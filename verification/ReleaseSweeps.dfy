/**
 * The release loop (src/account/erased-sender-message-release.service.ts) as it runs: a batch at a time, with
 * anything at all happening to the tables between two batches.
 */
module ReleaseSweeps {
  import opened OrderedIds
  import opened MessageTables
  import opened MessageDatabase
  import opened MemberErasure
  import opened ErasureRuns

  lemma {:induction false} StaysBuried(states: seq<Tables>, steps: seq<Step>, k: nat, id: Uuid)
    requires IsRun(states, steps) && k < |steps| && IsBuried(states[k], id)
    ensures IsBuried(states[k + 1], id)
  {
    RunKeepsConsistent(states, steps, k);
    assert Next(states[k], states[k + 1], steps[k]);
    BuriedRowStep(states[k], states[k + 1], steps[k], id);
  }

  lemma {:induction false} BuriedForGood(states: seq<Tables>, steps: seq<Step>, i: nat, j: nat, id: Uuid)
    requires IsRun(states, steps) && i <= j < |states| && IsBuried(states[i], id)
    ensures IsBuried(states[j], id)
    decreases j
  {
    if i == j {
    } else {
      BuriedForGood(states, steps, i, j - 1, id);
      StaysBuried(states, steps, j - 1, id);
    }
  }

  /** The rows one batch writes. */
  function Batch(s: Tables, limit: nat): set<Uuid> { Lowest(s.Releasable(), limit) }

  lemma {:induction false} BatchBuries(s: Tables, limit: nat, now: int)
    requires Consistent(s) && limit >= 1
    ensures forall id | id in Batch(s, limit) :: IsHeld(s, id) && IsBuried(AfterRelease(s, limit, now), id)
    ensures AfterRelease(s, limit, now).Releasable() == s.Releasable() - Batch(s, limit)
    ensures |Batch(s, limit)| < limit ==> Batch(s, limit) == s.Releasable()
  {
    LowestIsPage(s.Releasable(), limit);
    ReleaseNeverChangesATie(s.messages, s.reports, s.participants, Batch(s, limit), now);
    forall id | id in Batch(s, limit) ensures IsHeld(s, id) && IsBuried(AfterRelease(s, limit, now), id) {
      TombstoneIsTombstone(s.messages[id], now);
    }
  }

  lemma {:induction false} RunGoesOn(states: seq<Tables>, steps: seq<Step>, step: Step, s: Tables)
    requires IsRun(states, steps) && Next(states[|steps|], s, step)
    ensures IsRun(states + [s], steps + [step])
  {
    var more, all := states + [s], steps + [step];
    forall i | 0 <= i < |all| ensures Next(more[i], more[i + 1], all[i]) {
      if i < |steps| {
        assert Next(states[i], states[i + 1], steps[i]);
      }
    }
  }

  /** The group of a row, tied or not, as the tables stand. */
  predicate IsTied(s: Tables, m: Message)
    requires m.heldFor.Some?
  {
    GroupTied(s.messages, s.reports, s.participants, m.heldFor.value, m.conversation)
  }

  /** What was held at the start is a tombstone at the end, unless a report tied its group before the last batch. */
  ghost predicate SweptClean(start: Tables, last: Tables, end: Tables) {
    forall id | IsHeld(start, id) :: IsBuried(end, id) || IsTied(last, start.messages[id])
  }

  /** A short batch leaves no untied row behind, whatever happened before it. */
  lemma {:induction false} ShortBatchSweepsClean(
      states: seq<Tables>, steps: seq<Step>, i: nat, last: nat, limit: nat, now: int)
    requires IsRun(states, steps) && i <= last < |states| && |Batch(states[last], limit)| < limit
    ensures SweptClean(states[i], states[last], AfterRelease(states[last], limit, now))
  {
    var start, s := states[i], states[last];
    RunKeepsConsistent(states, steps, last);
    BatchBuries(s, limit, now);
    forall id | IsHeld(start, id)
      ensures IsBuried(AfterRelease(s, limit, now), id) || IsTied(s, start.messages[id])
    {
      HeldRowFate(states, steps, i, last, id);
      if IsBuried(s, id) {
        BuriedRowStep(s, AfterRelease(s, limit, now), Release(limit, now), id);
      } else if !IsTied(s, start.messages[id]) {
        assert id in s.Releasable();
      }
    }
  }

  /** The last step of the run swept what was held at `i`. */
  ghost predicate EndsClean(states: seq<Tables>, i: nat) {
    i < |states| - 1 && SweptClean(states[i], states[|states| - 2], states[|states| - 1])
  }

  // ------------------------------------------------------------------------ the running count

  /** Step `k` is a batch that found the row untied and wrote it. */
  ghost predicate ReleasedAt(states: seq<Tables>, steps: seq<Step>, k: nat, id: Uuid)
    requires k < |steps| && k < |states|
  {
    steps[k].Release? && id in Batch(states[k], steps[k].limit)
  }

  /** The sweep whose batch `b` reads `clock(b)`. */
  datatype Sweep = Sweep(start: nat, limit: nat, clock: nat -> int)

  /** `own` are the steps of the run that were batches of this sweep, in the order it made them. */
  ghost predicate OwnBatches(steps: seq<Step>, sweep: Sweep, own: seq<nat>) {
    && (forall b | 0 <= b < |own| ::
          sweep.start <= own[b] < |steps| && steps[own[b]] == Release(sweep.limit, sweep.clock(b)))
    && forall b, c | 0 <= b < c < |own| :: own[b] < own[c]
  }

  /** Its last batch was the last step of all. */
  predicate EndsTheRun(steps: seq<Step>, own: seq<nat>) { |own| > 0 && own[|own| - 1] == |steps| - 1 }

  /** One of its batches found the row untied and wrote it. */
  ghost predicate WasReleased(states: seq<Tables>, steps: seq<Step>, own: seq<nat>, id: Uuid)
    requires forall b | 0 <= b < |own| :: own[b] < |steps| && own[b] < |states|
  {
    exists b | 0 <= b < |own| :: ReleasedAt(states, steps, own[b], id)
  }

  /** The run has come to `s`; `written` are the rows this sweep wrote, and each of them is a tombstone. */
  ghost predicate Accounts(
      states: seq<Tables>, steps: seq<Step>, s: Tables, sweep: Sweep, own: seq<nat>, written: set<Uuid>)
  {
    && IsRun(states, steps) && states[|steps|] == s && sweep.start <= |steps|
    && OwnBatches(steps, sweep, own)
    && (forall id :: id in written <==> WasReleased(states, steps, own, id))
    && forall id | id in written :: IsBuried(s, id)
  }

  lemma {:induction false} StillReleased(
      states: seq<Tables>, steps: seq<Step>, states': seq<Tables>, steps': seq<Step>, own: seq<nat>, id: Uuid)
    requires |steps| < |states| && |steps'| < |states'| && states <= states' && steps <= steps'
    requires forall b | 0 <= b < |own| :: own[b] < |steps|
    ensures WasReleased(states, steps, own, id) <==> WasReleased(states', steps', own, id)
  {
    forall b | 0 <= b < |own| ensures ReleasedAt(states, steps, own[b], id) == ReleasedAt(states', steps', own[b], id) {
    }
  }

  /** Whatever happens next, the rows written stay written. */
  lemma {:induction false} AccountsLast(
      states: seq<Tables>, steps: seq<Step>, s: Tables, states': seq<Tables>, steps': seq<Step>, s': Tables,
      sweep: Sweep, own: seq<nat>, written: set<Uuid>)
    requires Accounts(states, steps, s, sweep, own, written)
    requires IsRun(states', steps') && states'[|steps'|] == s' && states <= states' && steps <= steps'
    ensures Accounts(states', steps', s', sweep, own, written)
  {
    forall id ensures id in written <==> WasReleased(states', steps', own, id) {
      StillReleased(states, steps, states', steps', own, id);
    }
    forall id | id in written ensures IsBuried(s', id) {
      assert states'[|steps|] == s;
      BuriedForGood(states', steps', |steps|, |steps'|, id);
    }
  }

  lemma {:induction false} ReleasedOneMore(
      states: seq<Tables>, steps: seq<Step>, own: seq<nat>, k: nat, id: Uuid)
    requires forall b | 0 <= b < |own| :: own[b] < |steps| && own[b] < |states|
    requires k < |steps| && k < |states|
    ensures WasReleased(states, steps, own + [k], id)
       <==> WasReleased(states, steps, own, id) || ReleasedAt(states, steps, k, id)
  {
    var more := own + [k];
    assert more[|own|] == k;
    if WasReleased(states, steps, own, id) {
      var b :| 0 <= b < |own| && ReleasedAt(states, steps, own[b], id);
      assert more[b] == own[b];
    }
  }

  /** A batch adds its rows, none of which was counted before. */
  lemma {:induction false} BatchAdds(
      states: seq<Tables>, steps: seq<Step>, s: Tables, sweep: Sweep, own: seq<nat>, written: set<Uuid>)
    requires Accounts(states, steps, s, sweep, own, written) && sweep.limit >= 1
    ensures var step, batch := Release(sweep.limit, sweep.clock(|own|)), Batch(s, sweep.limit);
            var after := AfterRelease(s, sweep.limit, step.now);
            && Accounts(states + [after], steps + [step], after, sweep, own + [|steps|], written + batch)
            && |written + batch| == |written| + |batch|
  {
    var step, batch := Release(sweep.limit, sweep.clock(|own|)), Batch(s, sweep.limit);
    var after := AfterRelease(s, sweep.limit, step.now);
    RunKeepsConsistent(states, steps, |steps|);
    BatchBuries(s, sweep.limit, step.now);
    RunGoesOn(states, steps, step, after);
    AccountsLast(states, steps, s, states + [after], steps + [step], after, sweep, own, written);
    forall id
      ensures id in written + batch <==> WasReleased(states + [after], steps + [step], own + [|steps|], id)
    {
      ReleasedOneMore(states + [after], steps + [step], own, |steps|, id);
    }
    assert written !! batch;
    DisjointSizes(written, batch);
  }

  /** A full batch leaves fewer rows to release, a short one leaves none. */
  lemma {:induction false} BatchEnds(states: seq<Tables>, steps: seq<Step>, s: Tables, start: nat, limit: nat, now: int)
    requires IsRun(states, steps) && states[|steps|] == s && start <= |steps| && limit >= 1
    ensures var after := AfterRelease(s, limit, now);
            if |Batch(s, limit)| < limit then EndsClean(states + [after], start)
            else |after.Releasable()| < |s.Releasable()|
  {
    var after := AfterRelease(s, limit, now);
    RunKeepsConsistent(states, steps, |steps|);
    BatchBuries(s, limit, now);
    if |Batch(s, limit)| < limit {
      ShortBatchSweepsClean(states, steps, start, |steps|, limit, now);
      assert (states + [after])[|steps|] == s;
    } else {
      LowestIsPage(s.Releasable(), limit);
      DisjointSizes(after.Releasable(), Batch(s, limit));
    }
  }

  // --------------------------------------------------------------------------------- the loop

  class ReleaseSweep {
    var tables: Tables
    ghost var states: seq<Tables>
    ghost var steps: seq<Step>

    /** The history of the tables is a legal run that ends in what they hold. */
    ghost predicate Valid()
      reads this
    {
      IsRun(states, steps) && states[|steps|] == tables
    }

    /** Whatever erasures, other sweeps and the rest of the application do meanwhile. */
    method Interfere()
      requires Valid()
      modifies this
      ensures Valid() && old(states) <= states && old(steps) <= steps
    {
    }

    method ReleaseBatch(limit: nat, now: int) returns (affected: nat)
      requires Valid() && limit >= 1
      modifies this
      ensures states == old(states) + [tables] && steps == old(steps) + [Release(limit, now)]
      ensures tables == AfterRelease(old(tables), limit, now) && affected == |Batch(old(tables), limit)|
    {
      affected := |Batch(tables, limit)|;
      tables := AfterRelease(tables, limit, now);
      states, steps := states + [tables], steps + [Release(limit, now)];
    }

    method InterfereIf(disturbed: bool, ghost sweep: Sweep, ghost own: seq<nat>, ghost written: set<Uuid>)
      requires Accounts(states, steps, tables, sweep, own, written)
      modifies this
      ensures Accounts(states, steps, tables, sweep, own, written) && old(states) <= states && old(steps) <= steps
      ensures !disturbed ==> states == old(states) && steps == old(steps) && tables == old(tables)
    {
      if disturbed {
        Interfere();
        AccountsLast(old(states), old(steps), old(tables), states, steps, tables, sweep, own, written);
      }
    }

    /** A full batch leaves fewer rows to release, a short one leaves none. */
    method NextBatch(limit: nat, now: int, ghost sweep: Sweep, ghost own: seq<nat>, ghost written: set<Uuid>)
      returns (affected: nat, ghost more: set<Uuid>)
      requires Accounts(states, steps, tables, sweep, own, written)
      requires sweep.limit == limit >= 1 && sweep.clock(|own|) == now
      modifies this
      ensures Accounts(states, steps, tables, sweep, own + [|old(steps)|], more)
      ensures old(states) < states && |steps| == |old(steps)| + 1 && old(steps) < steps
      ensures |more| == |written| + affected
      ensures affected >= limit ==> |tables.Releasable()| < |old(tables).Releasable()|
      ensures affected < limit ==> EndsClean(states, sweep.start)
    {
      more := written + Batch(tables, limit);
      BatchAdds(states, steps, tables, sweep, own, written);
      BatchEnds(states, steps, tables, sweep.start, limit, now);
      affected := ReleaseBatch(limit, now);
    }

    /** One turn of the loop. */
    method NextTurn(
        limit: nat, now: int, disturbed: bool, ghost sweep: Sweep, ghost own: seq<nat>, ghost written: set<Uuid>)
      returns (affected: nat, ghost mine: seq<nat>, ghost more: set<Uuid>)
      requires Accounts(states, steps, tables, sweep, own, written)
      requires sweep.limit == limit >= 1 && sweep.clock(|own|) == now
      modifies this
      ensures Accounts(states, steps, tables, sweep, mine, more)
      ensures old(states) < states && old(steps) < steps
      ensures |mine| == |own| + 1 && EndsTheRun(steps, mine) && |more| == |written| + affected
      ensures !disturbed ==> |steps| == |old(steps)| + 1
      ensures !disturbed && affected >= limit ==> |tables.Releasable()| < |old(tables).Releasable()|
      ensures affected < limit ==> EndsClean(states, sweep.start)
    {
      InterfereIf(disturbed, sweep, own, written);
      mine := own + [|steps|];
      affected, more := NextBatch(limit, now, sweep, own, written);
    }

    /**
     * `releaseHeldMessages` for every batch size, disturbed before each of its first `rounds` batches. It ends,
     * every row held at its start is a tombstone or was tied at the last batch, and it counts each row it wrote
     * once, each found untied by the batch of its own that wrote it.
     */
    method ReleaseHeldMessages(limit: nat, clock: nat -> int, rounds: nat)
      returns (releasedCount: nat, ghost own: seq<nat>, ghost written: set<Uuid>)
      requires Valid() && limit >= 1
      modifies this
      ensures old(states) <= states && old(steps) <= steps
      ensures Accounts(states, steps, tables, Sweep(|old(steps)|, limit, clock), own, written)
      ensures releasedCount == |written| && EndsTheRun(steps, own)
      ensures EndsClean(states, |old(steps)|)
      ensures rounds == 0 ==> |steps| == |old(steps)| + |own|
    {
      ghost var sweep := Sweep(|steps|, limit, clock);
      releasedCount, own, written := 0, [], {};
      var batch := 0;
      while true
        invariant old(states) <= states && old(steps) <= steps
        invariant Accounts(states, steps, tables, sweep, own, written) && releasedCount == |written|
        invariant batch == |own| && (rounds == 0 ==> |steps| == |old(steps)| + |own|)
        decreases if batch < rounds then rounds - batch else 0, |tables.Releasable()|
      {
        var affected;
        affected, own, written := NextTurn(limit, clock(batch), batch < rounds, sweep, own, written);
        releasedCount, batch := releasedCount + affected, batch + 1;
        if affected < limit {
          return;
        }
      }
    }
  }

  /** So a row whose group is untied from the start of the sweep to its last batch is a tombstone at its end. */
  lemma {:induction false} UntiedThroughoutIsBuried(states: seq<Tables>, i: nat, id: Uuid)
    requires EndsClean(states, i) && IsHeld(states[i], id)
    requires forall k | i <= k < |states| - 1 :: !IsTied(states[k], states[i].messages[id])
    ensures IsBuried(states[|states| - 1], id)
  {
  }

  /** And a row whose group stays tied is written by no batch. */
  lemma {:induction false} TiedThroughoutIsNotReleased(
      states: seq<Tables>, steps: seq<Step>, i: nat, j: nat, id: Uuid)
    requires IsRun(states, steps) && i <= j < |states| && IsHeld(states[i], id)
    requires TiedThroughout(states, i, j, states[i].messages[id].heldFor.value, states[i].messages[id].conversation)
    ensures forall k | i <= k < j :: !ReleasedAt(states, steps, k, id)
    ensures IsHeld(states[j], id)
  {
    forall k | i <= k < j ensures !ReleasedAt(states, steps, k, id) {
      TiedRowsStayHeld(states, steps, i, k, id);
    }
    TiedRowsStayHeld(states, steps, i, j, id);
  }
}
