/**
 * What a member who asks for deletion is promised, over whole runs: thirty days before an erasure, one warning
 * that counts the days left, and a way back until a sweep takes the request up.
 */
module DeletionPromise {
  import opened Wrappers
  import opened DeletionRequests
  import opened DeletionProtocol

  // ------------------------------------------------------------------------------- asking

  /** The account has no request in grace or in progress. */
  predicate Free(requests: Requests, user: Id) {
    forall id | id in requests :: requests[id].user == user ==> requests[id].status in {Cancelled, Erased}
  }

  /** Step `k` of the run is the member's request, for thirty days from that instant. */
  ghost predicate AskedAt(run: seq<State>, k: nat, id: Id, user: Id) {
    && k + 1 < |run| && id !in run[k].requests && Free(run[k].requests, user)
    && run[k + 1] == run[k].(requests :=
         run[k].requests[id := Request(user, Grace, run[k].clock + 30 * 24 * 60 * 60 * 1000, None)])
  }

  /** Asking is granted exactly to a member without an open request. */
  lemma {:induction false} AskingIs(s: State, id: Id, user: Id)
    requires id !in s.requests
    ensures Enabled(s, Insert(id, user))
    ensures Apply(s, Insert(id, user))
         == if Free(s.requests, user)
            then s.(requests := s.requests[id := Request(user, Grace, s.clock + 30 * 24 * 60 * 60 * 1000, None)])
            else s
  {
  }

  lemma {:induction false} NewRowIsAsked(run: seq<State>, k: nat, id: Id)
    requires IsRun(run) && k + 1 < |run| && id !in run[k].requests && id in run[k + 1].requests
    ensures AskedAt(run, k, id, run[k + 1].requests[id].user)
  {
    var s := run[k];
    assert Next(s, run[k + 1]);
    var step :| Enabled(s, step) && run[k + 1] == Apply(s, step);
    if step.Insert? {
      AskingIs(s, step.request, step.user);
    } else {
      OnlyAskingAddsRows(s, step);
    }
  }

  lemma {:induction false} OnlyAskingAddsRows(s: State, step: Step)
    requires Enabled(s, step) && !step.Insert?
    ensures Apply(s, step).requests.Keys == s.requests.Keys
  {
  }

  /** Every request was asked for, and keeps the date it was given then. */
  lemma {:induction false} RowWasAsked(run: seq<State>, j: nat, id: Id) returns (k: nat)
    requires IsRun(run) && Initial(run[0]) && j < |run| && id in run[j].requests
    ensures k < j && AskedAt(run, k, id, run[j].requests[id].user)
    ensures run[j].requests[id].scheduledFor == run[k].clock + 30 * 24 * 60 * 60 * 1000
  {
    InitialIsSafe(run[0]);
    if id in run[j - 1].requests {
      k := RowWasAsked(run, j - 1, id);
      RowEvolves(run, j - 1, j, id);
    } else {
      k := j - 1;
      NewRowIsAsked(run, k, id);
    }
  }

  // ------------------------------------------------------------------------------ erasing

  /** Step `l` takes the request up: in grace before it, in progress after it. */
  ghost predicate ClaimedAt(run: seq<State>, l: nat, e: Erasure) {
    && l + 1 < |run| && run[l].clock == e.at
    && e.request in run[l].requests && run[l].requests[e.request].status == Grace
    && e.request in run[l + 1].requests && run[l + 1].requests[e.request].status == Processing
    && run[l + 1].erasures == run[l].erasures + [e]
  }

  lemma {:induction false} ErasuresGrow(s: State, step: Step)
    requires Enabled(s, step)
    ensures var after := Apply(s, step);
            || after.erasures == s.erasures
            || (&& step.Claim? && s.requests[step.request].status == Grace
                && step.request in after.requests && after.requests[step.request].status == Processing
                && after.erasures == s.erasures + [Erasure(step.worker, step.request, s.clock)])
  {
  }

  lemma {:induction false} ErasureWasClaimed(run: seq<State>, j: nat, e: nat) returns (l: nat)
    requires IsRun(run) && Initial(run[0]) && j < |run| && e < |run[j].erasures|
    ensures l < j && ClaimedAt(run, l, run[j].erasures[e])
  {
    var s := run[j - 1];
    assert Next(s, run[j - 1 + 1]);
    var step :| Enabled(s, step) && run[j] == Apply(s, step);
    ErasuresGrow(s, step);
    if e < |s.erasures| {
      l := ErasureWasClaimed(run, j - 1, e);
    } else {
      l := j - 1;
    }
  }

  /** No account is erased before thirty days have passed since its owner asked. */
  lemma {:induction false} ErasureIsThirtyDaysAfterAsking(run: seq<State>, j: nat, e: nat) returns (k: nat, l: nat)
    requires IsRun(run) && Initial(run[0]) && j < |run| && e < |run[j].erasures|
    ensures var erasure := run[j].erasures[e];
            && k < l < j && ClaimedAt(run, l, erasure)
            && AskedAt(run, k, erasure.request, run[l].requests[erasure.request].user)
            && erasure.at - run[k].clock >= 30 * 24 * 60 * 60 * 1000
  {
    var erasure := run[j].erasures[e];
    l := ErasureWasClaimed(run, j, e);
    k := RowWasAsked(run, l, erasure.request);
    InitialIsSafe(run[0]);
    RunIsSafe(run, j);
    RowEvolves(run, l, j, erasure.request);
  }

  /** And from then on the next sweep reads it, as long as it is in grace. */
  lemma {:induction false} SweepReadsItAfterThirtyDays(
      run: seq<State>, k: nat, j: nat, id: Id, user: Id, worker: Id)
    requires IsRun(run) && Initial(run[0]) && AskedAt(run, k, id, user) && k < j < |run|
    requires Enabled(run[j], SweepRead(worker))
    ensures id in run[j].requests
    ensures var read := Apply(run[j], SweepRead(worker));
            && worker in read.workers
            && (id in read.workers[worker].due
                <==> run[j].requests[id].status == Grace && run[j].clock - run[k].clock >= 30 * 24 * 60 * 60 * 1000)
  {
    InitialIsSafe(run[0]);
    RowEvolves(run, k + 1, j, id);
  }

  lemma {:induction false} DueIff(s: State, id: Id)
    ensures id in Due(s)
       <==> id in s.requests && s.requests[id].status == Grace && s.requests[id].scheduledFor <= s.clock
  {
  }

  /** What a worker that holds an account does to its request in the end: erased, or in progress for good. */
  lemma {:induction false} ErasureEnds(s: State, worker: Id)
    requires Safe(s) && Enabled(s, Finish(worker))
    ensures var id := s.workers[worker].erasing.value;
            var done, failed := Apply(s, Finish(worker)), Apply(s, Fail(worker));
            && s.requests[id].status == Processing
            && done.requests == s.requests[id := s.requests[id].(status := Erased)]
            && failed.requests == s.requests
            && done.workers[worker].erasing.None? && failed.workers[worker].erasing.None?
  {
    assert WorkerConsistent(s.clock, s.requests, s.workers[worker]);
  }

  // --------------------------------------------------------------------------- cancelling

  /** A cancellation that nobody overtakes closes the member's request and no other. */
  lemma {:induction false} CancellingWorks(s: State, session: Id, id: Id)
    requires Safe(s) && session !in s.cancelling && id in s.requests && s.requests[id].status == Grace
    ensures var reading := Apply(s, CancelRead(session, s.requests[id].user));
            && Enabled(reading, CancelWrite(session))
            && Apply(reading, CancelWrite(session))
               == s.(requests := s.requests[id := s.requests[id].(status := Cancelled)])
  {
    var user := s.requests[id].user;
    assert HasStatus(s, user, Grace);
    assert !HasStatus(s, user, Processing);
    var reading := Apply(s, CancelRead(session, user));
    var written := Apply(reading, CancelWrite(session));
    assert written.cancelling == s.cancelling;
    assert written.requests == s.requests[id := s.requests[id].(status := Cancelled)];
  }

  /** Without a request in grace, or with one in progress, it stops at its read. */
  lemma {:induction false} CancellingStops(s: State, session: Id, user: Id)
    requires session !in s.cancelling
    requires (forall id | id in s.requests && s.requests[id].user == user :: s.requests[id].status != Grace)
          || (exists id | id in s.requests :: s.requests[id].user == user && s.requests[id].status == Processing)
    ensures Apply(s, CancelRead(session, user)) == s
  {
  }

  // ------------------------------------------------------------------------------ warning

  /** `days` is `left` rounded to whole days, half a day up, and at least one. */
  predicate IsRounded(days: int, left: Millis) {
    && days >= 1
    && 2 * left < (2 * days + 1) * (24 * 60 * 60 * 1000)
    && (days > 1 ==> (2 * days - 1) * (24 * 60 * 60 * 1000) <= 2 * left)
  }

  lemma {:induction false} DaysRemainingIs(left: Millis)
    ensures IsRounded(DaysRemaining(left), left)
  {
  }

  /** The warning of a row: stamped when it was read, within three days of its date, and told the days left. */
  predicate Tells(requests: Requests, w: Warning) {
    && w.request in requests && requests[w.request].warnedAt.Some?
    && var left := requests[w.request].scheduledFor - requests[w.request].warnedAt.value;
    && 0 < left <= 3 * 24 * 60 * 60 * 1000
    && IsRounded(w.daysRemaining, left)
  }

  ghost predicate AllTell(s: State) { forall i | 0 <= i < |s.warnings| :: Tells(s.requests, s.warnings[i]) }

  lemma {:induction false} WarningsGrow(s: State, step: Step)
    requires Safe(s) && Enabled(s, step)
    ensures var after := Apply(s, step);
            || after.warnings == s.warnings
            || exists w :: after.warnings == s.warnings + [w] && Tells(after.requests, w)
  {
    if step.WarnClaim? {
      var id, w := step.request, s.workers[step.worker];
      assert WorkerConsistent(s.clock, s.requests, w);
      DaysRemainingIs(s.requests[id].scheduledFor - w.readAt);
      var sent := Warning(id, DaysRemaining(s.requests[id].scheduledFor - w.readAt));
      var after := Apply(s, step);
      assert after.warnings == s.warnings || (after.warnings == s.warnings + [sent] && Tells(after.requests, sent));
    }
  }

  lemma {:induction false} StepKeepsTelling(s: State, step: Step)
    requires Safe(s) && Enabled(s, step) && AllTell(s)
    ensures AllTell(Apply(s, step))
  {
    var after := Apply(s, step);
    WarningsGrow(s, step);
    forall i | 0 <= i < |after.warnings| ensures Tells(after.requests, after.warnings[i]) {
      if i < |s.warnings| {
        StepEvolves(s, step, s.warnings[i].request);
      }
    }
  }

  lemma {:induction false} WarningsTellTheDaysLeft(run: seq<State>, j: nat)
    requires IsRun(run) && Initial(run[0]) && j < |run|
    ensures AllTell(run[j])
  {
    if j == 0 {
    } else {
      WarningsTellTheDaysLeft(run, j - 1);
      InitialIsSafe(run[0]);
      RunIsSafe(run, j - 1);
      assert Next(run[j - 1], run[j - 1 + 1]);
      var step :| Enabled(run[j - 1], step) && run[j] == Apply(run[j - 1], step);
      StepKeepsTelling(run[j - 1], step);
    }
  }

  /** The warning sweep reads the requests in grace within three days of their date that were not warned. */
  lemma {:induction false} WarningSweepReads(s: State, worker: Id, id: Id)
    requires Enabled(s, WarnRead(worker))
    ensures var read := Apply(s, WarnRead(worker));
            && worker in read.workers && read.workers[worker].readAt == s.clock
            && (id in read.workers[worker].upcoming <==>
                && id in s.requests && s.requests[id].status == Grace && s.requests[id].warnedAt.None?
                && s.requests[id].scheduledFor - s.clock <= 3 * 24 * 60 * 60 * 1000)
  {
  }

  lemma {:induction false} UpcomingIff(s: State, id: Id)
    ensures id in Upcoming(s)
       <==> && id in s.requests && s.requests[id].status == Grace && s.requests[id].warnedAt.None?
            && s.requests[id].scheduledFor - s.clock <= 3 * 24 * 60 * 60 * 1000
  {
  }

  // ------------------------------------------------------------------------- one at a time

  /** In every state of every run a member has at most one request that is in grace or in progress. */
  lemma {:induction false} OneOpenRequest(run: seq<State>, j: nat, a: Id, b: Id)
    requires IsRun(run) && Initial(run[0]) && j < |run| && a in run[j].requests && b in run[j].requests
    requires run[j].requests[a].user == run[j].requests[b].user
    requires run[j].requests[a].status in {Grace, Processing} && run[j].requests[b].status in {Grace, Processing}
    ensures a == b
  {
    InitialIsSafe(run[0]);
    RunIsSafe(run, j);
  }

  /** Each request is erased at most once and warned at most once, along every run. */
  lemma {:induction false} OnceEach(run: seq<State>, j: nat)
    requires IsRun(run) && Initial(run[0]) && j < |run|
    ensures forall a, b | 0 <= a < |run[j].erasures| && 0 <= b < |run[j].erasures|
        && run[j].erasures[a].request == run[j].erasures[b].request :: a == b
    ensures forall a, b | 0 <= a < |run[j].warnings| && 0 <= b < |run[j].warnings|
        && run[j].warnings[a].request == run[j].warnings[b].request :: a == b
    ensures forall id | id in run[j].requests ::
        run[j].requests[id].warnedAt.Some? <==>
          exists i | 0 <= i < |run[j].warnings| :: run[j].warnings[i].request == id
  {
    InitialIsSafe(run[0]);
    RunIsSafe(run, j);
    assert forall id | id in run[j].requests :: run[j].requests[id].warnedAt.Some? <==> Warned(run[j].warnings, id);
  }

  /** A run starts empty, time passes, and a worker with nothing in its memory may sweep or warn. */
  lemma {:induction false} AnyWorkerMayStart(s: State, worker: Id)
    ensures Initial(State(s.clock, map[], map[], map[], [], []))
    ensures forall elapsed: nat ::
        Enabled(s, Tick(elapsed)) && Apply(s, Tick(elapsed)) == s.(clock := s.clock + elapsed)
    ensures Enabled(s, Fail(worker)) <==> worker in s.workers && s.workers[worker].erasing.Some?
    ensures worker !in Apply(s, Crash(worker)).workers && Apply(s, Crash(worker)).requests == s.requests
    ensures var free := worker in s.workers ==>
              s.workers[worker].due == {} && s.workers[worker].upcoming == {} && s.workers[worker].erasing.None?;
            && (Enabled(s, SweepRead(worker)) <==> free)
            && (Enabled(s, WarnRead(worker)) <==> free)
  {
  }

  /** Along every run a request keeps its member and its date, is stamped once, and never leaves a final status. */
  lemma {:induction false} TermsStay(run: seq<State>, i: nat, j: nat, id: Id)
    requires IsRun(run) && Initial(run[0]) && i <= j < |run| && id in run[i].requests
    ensures id in run[j].requests
    ensures var before, after := run[i].requests[id], run[j].requests[id];
            && after.user == before.user && after.scheduledFor == before.scheduledFor
            && (before.warnedAt.Some? ==> after.warnedAt == before.warnedAt)
            && (before.status in {Erased, Cancelled} ==> after.status == before.status)
            && (before.status == Processing ==> after.status in {Processing, Erased})
  {
    InitialIsSafe(run[0]);
    RowEvolves(run, i, j, id);
  }
}
