/**
 * The two daily loops of the processor (`eraseDueAccounts`, `warnUpcomingDeletions`) as they run: one
 * statement at a time, with any number of steps of everybody else between two statements.
 */
module DeletionSweeps {
  import opened Wrappers
  import opened DeletionProtocol
  import opened DeletionRequests

  ghost predicate RunBetween(run: seq<State>, s: State, t: State) { IsRun(run) && run[0] == s && run[|run| - 1] == t }

  ghost predicate Reaches(s: State, t: State) { exists run :: RunBetween(run, s, t) }

  lemma {:induction false} ReachesSelf(s: State)
    ensures Reaches(s, s)
  {
    assert RunBetween([s], s, s);
  }

  lemma {:induction false} ReachesStep(s: State, t: State, step: Step)
    requires Reaches(s, t) && Enabled(t, step)
    ensures Reaches(s, Apply(t, step))
  {
    var run :| RunBetween(run, s, t);
    assert Next(t, Apply(t, step));
    assert RunBetween(run + [Apply(t, step)], s, Apply(t, step));
  }

  lemma {:induction false} ReachesOn(s: State, t: State, u: State)
    requires Reaches(s, t) && Reaches(t, u)
    ensures Reaches(s, u)
  {
    var first, second :| RunBetween(first, s, t) && RunBetween(second, t, u);
    var run := first + second[1..];
    forall i | 0 <= i < |run| - 1 ensures Next(run[i], run[i + 1]) {
      if i >= |first| - 1 {
        assert run[i] == second[i - |first| + 1] && run[i + 1] == second[i - |first| + 2];
      }
    }
    assert RunBetween(run, s, u);
  }

  lemma {:induction false} ReachesKeeps(s: State, t: State)
    requires Reaches(s, t) && Safe(s)
    ensures Safe(t)
    ensures forall id | id in s.requests :: id in t.requests && Evolves(s.requests[id], t.requests[id])
  {
    var run :| RunBetween(run, s, t);
    RunIsSafe(run, |run| - 1);
    forall id | id in s.requests ensures id in t.requests && Evolves(s.requests[id], t.requests[id]) {
      RowEvolves(run, 0, |run| - 1, id);
    }
  }

  class DeletionProcessor {
    var state: State

    /** Whatever other members and workers do meanwhile; the memory of `worker` is its own. */
    method Interfere(worker: Id)
      requires Safe(state)
      modifies this
      ensures Reaches(old(state), state) && Safe(state)
      ensures worker in old(state).workers ==>
          worker in state.workers && state.workers[worker] == old(state).workers[worker]
      ensures forall id | id in old(state).requests ::
          id in state.requests && Evolves(old(state).requests[id], state.requests[id])
    {
      ReachesSelf(state);
      ReachesKeeps(state, state);
    }

    method Do(step: Step)
      requires Safe(state) && Enabled(state, step)
      modifies this
      ensures state == Apply(old(state), step) && Safe(state) && Reaches(old(state), state)
      ensures forall id | id in old(state).requests ::
          id in state.requests && Evolves(old(state).requests[id], state.requests[id])
    {
      StepKeepsSafe(state, step);
      ReachesSelf(state);
      ReachesStep(state, state, step);
      ReachesKeeps(state, Apply(state, step));
      state := Apply(state, step);
    }

    /** Claim one due row; erase its account only when the conditional update hit it. */
    method EraseOne(worker: Id, id: Id, succeeds: bool)
      requires Safe(state) && Enabled(state, Claim(worker, id))
      modifies this
      ensures Reaches(old(state), state) && Safe(state)
      ensures worker in state.workers
          && state.workers[worker] == old(state).workers[worker].(due := old(state).workers[worker].due - {id})
      ensures state.requests.Keys >= old(state).requests.Keys && state.requests[id].status != Grace
      ensures forall other | other in old(state).requests :: Evolves(old(state).requests[other], state.requests[other])
    {
      ghost var start := state;
      var affected := state.requests[id].status == Grace;
      Do(Claim(worker, id));
      if affected {
        ghost var claimed := state;
        Interfere(worker);
        ReachesOn(start, claimed, state);
        assert WorkerConsistent(state.clock, state.requests, state.workers[worker]);
        ghost var erased := state;
        Do(if succeeds then Finish(worker) else Fail(worker));
        ReachesOn(start, erased, state);
        ReachesKeeps(start, state);
      }
    }

    /** Interference, then one turn of the erasing loop. */
    method EraseNext(worker: Id, succeeds: Id -> bool, ghost start: State)
      requires Sweeping(start, state, worker) && state.workers[worker].due != {}
      modifies this
      ensures Sweeping(start, state, worker)
      ensures state.workers[worker].due < old(state).workers[worker].due
    {
      Interfere(worker);
      assert WorkerConsistent(state.clock, state.requests, state.workers[worker]);
      ghost var claiming := state;
      var id :| id in state.workers[worker].due;
      EraseOne(worker, id, succeeds(id));
      ReachesOn(old(state), claiming, state);
      TurnKeepsSweeping(start, old(state), state, worker, id);
    }

    /**
     * `eraseDueAccounts`: under any interference the loop is a run of the protocol, and every request
     * that was due when the sweep read has left grace when it ends.
     */
    method EraseDueAccounts(worker: Id, succeeds: Id -> bool)
      requires Safe(state) && Idle(state, worker)
      modifies this
      ensures Reaches(old(state), state) && Safe(state) && Idle(state, worker)
      ensures forall id | id in Due(old(state)) :: id in state.requests && state.requests[id].status != Grace
    {
      Do(SweepRead(worker));
      while state.workers[worker].due != {}
        invariant Sweeping(old(state), state, worker)
        decreases state.workers[worker].due
      {
        EraseNext(worker, succeeds, old(state));
      }
    }

    /** Claim one row for its warning; skip it when it is due already or the update missed. */
    method WarnOne(worker: Id, id: Id)
      requires Safe(state) && Enabled(state, WarnClaim(worker, id))
      modifies this
      ensures Reaches(old(state), state) && Safe(state)
      ensures worker in state.workers
          && state.workers[worker]
             == old(state).workers[worker].(upcoming := old(state).workers[worker].upcoming - {id})
      ensures id in state.requests
      ensures || state.requests[id].warnedAt.Some?
              || state.requests[id].status != Grace
              || state.requests[id].scheduledFor <= state.workers[worker].readAt
    {
      Do(WarnClaim(worker, id));
    }

    /** Interference, then one turn of the warning loop. */
    method WarnNext(worker: Id, ghost start: State)
      requires InWarningSweep(start, state, worker) && state.workers[worker].upcoming != {}
      modifies this
      ensures InWarningSweep(start, state, worker)
      ensures state.workers[worker].upcoming < old(state).workers[worker].upcoming
    {
      Interfere(worker);
      assert WorkerConsistent(state.clock, state.requests, state.workers[worker]);
      ghost var claiming := state;
      var id :| id in state.workers[worker].upcoming;
      WarnOne(worker, id);
      ReachesOn(old(state), claiming, state);
      TurnKeepsWarning(start, old(state), state, worker, id);
    }

    /**
     * `warnUpcomingDeletions`: every request the sweep read that was still ahead of its date has been
     * warned, by this sweep or another, or has left grace.
     */
    method WarnUpcomingDeletions(worker: Id)
      requires Safe(state) && Idle(state, worker)
      modifies this
      ensures Reaches(old(state), state) && Safe(state) && Idle(state, worker)
      ensures forall id | id in Upcoming(old(state)) && old(state).requests[id].scheduledFor > old(state).clock ::
                id in state.requests && (Warned(state.warnings, id) || state.requests[id].status != Grace)
    {
      Do(WarnRead(worker));
      while state.workers[worker].upcoming != {}
        invariant InWarningSweep(old(state), state, worker)
        decreases state.workers[worker].upcoming
      {
        WarnNext(worker, old(state));
      }
    }
  }

  ghost predicate Sweeping(start: State, s: State, worker: Id) {
    && Reaches(start, s) && Safe(s) && worker in s.workers
    && s.workers[worker].erasing.None? && s.workers[worker].upcoming == {}
    && forall id | id in Due(start) ::
       id in s.requests && (id in s.workers[worker].due || s.requests[id].status != Grace)
  }

  lemma {:induction false} TurnKeepsSweeping(start: State, before: State, after: State, worker: Id, id: Id)
    requires Sweeping(start, before, worker) && Reaches(before, after)
    requires worker in after.workers
        && after.workers[worker] == before.workers[worker].(due := before.workers[worker].due - {id})
    requires id in after.requests && after.requests[id].status != Grace
    ensures Sweeping(start, after, worker)
  {
    ReachesOn(start, before, after);
    ReachesKeeps(before, after);
  }

  ghost predicate InWarningSweep(start: State, s: State, worker: Id) {
    && Safe(start) && Reaches(start, s) && Safe(s) && worker in s.workers
    && s.workers[worker].erasing.None? && s.workers[worker].due == {} && s.workers[worker].readAt == start.clock
    && forall id | id in Upcoming(start) && start.requests[id].scheduledFor > start.clock ::
         id in s.requests
           && (id in s.workers[worker].upcoming || s.requests[id].warnedAt.Some? || s.requests[id].status != Grace)
  }

  lemma {:induction false} TurnKeepsWarning(start: State, before: State, after: State, worker: Id, id: Id)
    requires InWarningSweep(start, before, worker) && Reaches(before, after)
    requires worker in after.workers
        && after.workers[worker] == before.workers[worker].(upcoming := before.workers[worker].upcoming - {id})
    requires id in after.requests
        && (after.requests[id].warnedAt.Some? || after.requests[id].status != Grace
            || after.requests[id].scheduledFor <= start.clock)
    ensures InWarningSweep(start, after, worker)
  {
    ReachesOn(start, before, after);
    ReachesKeeps(before, after);
    ReachesKeeps(start, after);
  }
}
