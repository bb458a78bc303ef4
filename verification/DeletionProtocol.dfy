/**
 * Account deletion as a protocol: members request and cancel, any number of sweep workers read the
 * due rows, claim them one by one with a conditional update, erase, and warn. Every statement is one
 * step, and steps of different processes interleave freely.
 */
module DeletionProtocol {
  import opened Days
  import opened DeletionRequests
  import opened Wrappers

  type Id = nat
  type Millis = int

  const DELETION_GRACE_DAYS := 30
  const DELETION_FINAL_WARNING_LEAD_DAYS := 3

  datatype Request = Request(user: Id, status: RequestStatus, scheduledFor: Millis, warnedAt: Option<Millis>)

  /** What one worker keeps in memory between its statements. */
  datatype Worker = Worker(readAt: Millis, due: set<Id>, erasing: Option<Id>, upcoming: set<Id>)

  /** `eraseAccount` started by a worker for a request. */
  datatype Erasure = Erasure(worker: Id, request: Id, at: Millis)

  /** A final warning handed to the notification service. */
  datatype Warning = Warning(request: Id, daysRemaining: int)

  datatype State = State(
    clock: Millis,
    requests: map<Id, Request>,
    /** Cancellations that passed their read and have not written yet, by session. */
    cancelling: map<Id, Id>,
    workers: map<Id, Worker>,
    erasures: seq<Erasure>,
    warnings: seq<Warning>
  )

  datatype Step =
    | Tick(elapsed: nat)
    | Insert(request: Id, user: Id)
    | CancelRead(session: Id, user: Id)
    | CancelWrite(session: Id)
    | SweepRead(worker: Id)
    | Claim(worker: Id, request: Id)
    | Finish(worker: Id)
    | Fail(worker: Id)
    | WarnRead(worker: Id)
    | WarnClaim(worker: Id, request: Id)
    | Crash(worker: Id)

  predicate IsOpen(r: Request) { r.status == Grace || r.status == Processing }

  predicate HasOpen(s: State, user: Id) {
    exists id | id in s.requests :: s.requests[id].user == user && IsOpen(s.requests[id])
  }

  predicate HasStatus(s: State, user: Id, status: RequestStatus) {
    exists id | id in s.requests :: s.requests[id].user == user && s.requests[id].status == status
  }

  function WithStatus(s: State, id: Id, status: RequestStatus): State
    requires id in s.requests
  {
    s.(requests := s.requests[id := s.requests[id].(status := status)])
  }

  /** `save` of a new grace row; UQ_deletion_request_open_user rejects a second open one. */
  function Inserted(s: State, id: Id, user: Id): State {
    if HasOpen(s, user) then s
    else s.(requests := s.requests[id := Request(user, Grace, s.clock + DELETION_GRACE_DAYS * DAY_MS, None)])
  }

  /** The reads of a cancellation: it goes on only with a grace row and without a processing one. */
  function CancelReadDone(s: State, session: Id, user: Id): State {
    if HasStatus(s, user, Grace) && !HasStatus(s, user, Processing)
      then s.(cancelling := s.cancelling[session := user]) else s
  }

  /** `UPDATE ... SET status = 'cancelled' WHERE user_id = $1 AND status = 'grace'`. */
  function CancelWritten(s: State, session: Id): State
    requires session in s.cancelling
  {
    var user := s.cancelling[session];
    s.(requests := map id | id in s.requests ::
         if s.requests[id].user == user && s.requests[id].status == Grace then s.requests[id].(status := Cancelled)
         else s.requests[id],
       cancelling := s.cancelling - {session})
  }

  function Due(s: State): set<Id> {
    set id | id in s.requests && s.requests[id].status == Grace && s.requests[id].scheduledFor <= s.clock
  }

  function SweepReadDone(s: State, worker: Id): State {
    s.(workers := s.workers[worker := Worker(s.clock, Due(s), None, {})])
  }

  /** The conditional update that claims a row, and the start of `eraseAccount` when it wins. */
  function Claimed(s: State, worker: Id, id: Id): State
    requires worker in s.workers && id in s.requests
  {
    var w := s.workers[worker].(due := s.workers[worker].due - {id});
    if s.requests[id].status != Grace then s.(workers := s.workers[worker := w])
    else WithStatus(s, id, Processing).(
      workers := s.workers[worker := w.(erasing := Some(id))],
      erasures := s.erasures + [Erasure(worker, id, s.clock)])
  }

  function Finished(s: State, worker: Id): State
    requires worker in s.workers && s.workers[worker].erasing.Some? && s.workers[worker].erasing.value in s.requests
  {
    WithStatus(s, s.workers[worker].erasing.value,
      Erased).(workers := s.workers[worker := s.workers[worker].(erasing := None)])
  }

  function Failed(s: State, worker: Id): State
    requires worker in s.workers
  {
    s.(workers := s.workers[worker := s.workers[worker].(erasing := None)])
  }

  function Upcoming(s: State): set<Id> {
    set id | id in s.requests && s.requests[id].status == Grace && s.requests[id].warnedAt.None?
          && s.requests[id].scheduledFor <= s.clock + DELETION_FINAL_WARNING_LEAD_DAYS * DAY_MS
  }

  function WarnReadDone(s: State, worker: Id): State {
    s.(workers := s.workers[worker := Worker(s.clock, {}, None, Upcoming(s))])
  }

  /** `Math.max(1, Math.round(left / DAY_MS))`. */
  function DaysRemaining(left: Millis): int {
    var rounded := (2 * left + DAY_MS) / (2 * DAY_MS);
    if rounded < 1 then 1 else rounded
  }

  /** The winning warning claim: the stamp on the row, and the notification. */
  function WarningSent(s: State, worker: Id, id: Id): State
    requires worker in s.workers && id in s.requests
  {
    var w, r := s.workers[worker], s.requests[id];
    s.(requests := s.requests[id := r.(warnedAt := Some(w.readAt))],
       workers := s.workers[worker := w.(upcoming := w.upcoming - {id})],
       warnings := s.warnings + [Warning(id, DaysRemaining(r.scheduledFor - w.readAt))])
  }

  function WarnClaimed(s: State, worker: Id, id: Id): State
    requires worker in s.workers && id in s.requests
  {
    var w, r := s.workers[worker], s.requests[id];
    if r.scheduledFor <= w.readAt || r.status != Grace || r.warnedAt.Some?
    then s.(workers := s.workers[worker := w.(upcoming := w.upcoming - {id})])
    else WarningSent(s, worker, id)
  }

  predicate Idle(s: State, worker: Id) {
    worker in s.workers ==> s.workers[worker] == Worker(s.workers[worker].readAt, {}, None, {})
  }

  predicate Enabled(s: State, step: Step) {
    match step
    case Tick(_) => true
    case Insert(id, _) => id !in s.requests
    case CancelRead(session, _) => session !in s.cancelling
    case CancelWrite(session) => session in s.cancelling
    case SweepRead(worker) => Idle(s, worker)
    case Claim(worker, id) => worker in s.workers && s.workers[worker].erasing.None? && id in s.workers[worker].due
      && id in s.requests
    case Finish(worker) => worker in s.workers && s.workers[worker].erasing.Some?
      && s.workers[worker].erasing.value in s.requests
    case Fail(worker) => worker in s.workers && s.workers[worker].erasing.Some?
    case WarnRead(worker) => Idle(s, worker)
    case WarnClaim(worker, id) => worker in s.workers && id in s.workers[worker].upcoming && id in s.requests
    case Crash(worker) => true
  }

  function Apply(s: State, step: Step): State
    requires Enabled(s, step)
  {
    match step
    case Tick(elapsed) => s.(clock := s.clock + elapsed)
    case Insert(id, user) => Inserted(s, id, user)
    case CancelRead(session, user) => CancelReadDone(s, session, user)
    case CancelWrite(session) => CancelWritten(s, session)
    case SweepRead(worker) => SweepReadDone(s, worker)
    case Claim(worker, id) => Claimed(s, worker, id)
    case Finish(worker) => Finished(s, worker)
    case Fail(worker) => Failed(s, worker)
    case WarnRead(worker) => WarnReadDone(s, worker)
    case WarnClaim(worker, id) => WarnClaimed(s, worker, id)
    case Crash(worker) => s.(workers := s.workers - {worker})
  }

  ghost predicate Next(s: State, s': State) { exists step :: Enabled(s, step) && s' == Apply(s, step) }

  predicate Initial(s: State) {
    s.requests == map[] && s.cancelling == map[] && s.workers == map[] && s.erasures == [] && s.warnings == []
  }

  // ------------------------------------------------------------------------ the invariant

  type Requests = map<Id, Request>

  ghost predicate OneOpenPerMember(requests: Requests) {
    forall a, b | a in requests && b in requests && requests[a].user == requests[b].user && IsOpen(requests[a])
      && IsOpen(requests[b]) :: a == b
  }

  predicate LeftGraceForErasure(r: Request) { r.status == Processing || r.status == Erased }

  ghost predicate Started(erasures: seq<Erasure>, id: Id) {
    exists i | 0 <= i < |erasures| :: erasures[i].request == id
  }

  /** A request was started at most once, by one worker, when due; and exactly the started ones left grace for good. */
  ghost predicate ErasedAtMostOnce(requests: Requests, erasures: seq<Erasure>) {
    && (forall i, j | 0 <= i < j < |erasures| :: erasures[i].request != erasures[j].request)
    && (forall i | 0 <= i < |erasures| ::
        erasures[i].request in requests && requests[erasures[i].request].scheduledFor <= erasures[i].at)
    && (forall id | id in requests :: LeftGraceForErasure(requests[id]) <==> Started(erasures, id))
  }

  ghost predicate Warned(warnings: seq<Warning>, id: Id) { exists i | 0 <= i < |warnings| :: warnings[i].request == id }

  /** A request is warned at most once, with 1 to 3 days left, and its row says whether it was. */
  ghost predicate WarnedAtMostOnce(requests: Requests, warnings: seq<Warning>) {
    && (forall i, j | 0 <= i < j < |warnings| :: warnings[i].request != warnings[j].request)
    && (forall i | 0 <= i < |warnings| ::
        warnings[i].request in requests && 1 <= warnings[i].daysRemaining <= DELETION_FINAL_WARNING_LEAD_DAYS)
    && (forall id | id in requests :: requests[id].warnedAt.Some? <==> Warned(warnings, id))
  }

  ghost predicate WorkerConsistent(clock: Millis, requests: Requests, w: Worker) {
    && w.readAt <= clock
    && (forall id | id in w.due :: id in requests && requests[id].scheduledFor <= w.readAt)
    && (forall id | id in w.upcoming ::
        id in requests && requests[id].scheduledFor <= w.readAt + DELETION_FINAL_WARNING_LEAD_DAYS * DAY_MS)
    && (w.erasing.Some? ==> w.erasing.value in requests && requests[w.erasing.value].status == Processing)
  }

  ghost predicate WorkersConsistent(clock: Millis, requests: Requests, workers: map<Id, Worker>) {
    && (forall w | w in workers :: WorkerConsistent(clock, requests, workers[w]))
    && (forall v, w | v in workers && w in workers && workers[v].erasing.Some?
        && workers[v].erasing == workers[w].erasing :: v == w)
  }

  ghost predicate Safe(s: State) {
    && OneOpenPerMember(s.requests)
    && ErasedAtMostOnce(s.requests, s.erasures)
    && WarnedAtMostOnce(s.requests, s.warnings)
    && WorkersConsistent(s.clock, s.requests, s.workers)
  }

  // ----------------------------------------------------------- one lemma per kind of change

  lemma {:induction false} ErasureStarts(requests: Requests, erasures: seq<Erasure>, e: Erasure)
    requires ErasedAtMostOnce(requests, erasures)
    requires e.request in requests && requests[e.request].status == Grace && requests[e.request].scheduledFor <= e.at
    ensures ErasedAtMostOnce(requests[e.request := requests[e.request].(status := Processing)], erasures + [e])
  {
    var more := erasures + [e];
    assert more[|erasures|] == e;
    assert forall i | 0 <= i < |erasures| :: more[i] == erasures[i];
    forall id ensures Started(more, id) <==> Started(erasures, id) || id == e.request {
      if i :| 0 <= i < |erasures| && erasures[i].request == id { assert more[i].request == id; }
    }
    assert !Started(erasures, e.request);
  }

  lemma {:induction false} WarningIsSent(requests: Requests, warnings: seq<Warning>, w: Warning, at: Millis)
    requires WarnedAtMostOnce(requests, warnings)
    requires w.request in requests && requests[w.request].warnedAt.None?
        && 1 <= w.daysRemaining <= DELETION_FINAL_WARNING_LEAD_DAYS
    ensures WarnedAtMostOnce(requests[w.request := requests[w.request].(warnedAt := Some(at))], warnings + [w])
  {
    var more := warnings + [w];
    assert more[|warnings|] == w;
    assert forall i | 0 <= i < |warnings| :: more[i] == warnings[i];
    forall id ensures Warned(more, id) <==> Warned(warnings, id) || id == w.request {
      if i :| 0 <= i < |warnings| && warnings[i].request == id { assert more[i].request == id; }
    }
    assert !Warned(warnings, w.request);
  }

  /** `after` differs from `before` in nothing the erasure log speaks of. */
  lemma {:induction false} ErasureLogUnaffected(before: Requests, after: Requests, erasures: seq<Erasure>)
    requires ErasedAtMostOnce(before, erasures)
    requires forall id | id in before ::
        id in after && after[id].scheduledFor == before[id].scheduledFor
          && LeftGraceForErasure(after[id]) == LeftGraceForErasure(before[id])
    requires forall id | id in after && id !in before :: !LeftGraceForErasure(after[id])
    ensures ErasedAtMostOnce(after, erasures)
  {
  }

  lemma {:induction false} WarningLogUnaffected(before: Requests, after: Requests, warnings: seq<Warning>)
    requires WarnedAtMostOnce(before, warnings)
    requires forall id | id in before :: id in after && after[id].warnedAt.Some? == before[id].warnedAt.Some?
    requires forall id | id in after && id !in before :: after[id].warnedAt.None?
    ensures WarnedAtMostOnce(after, warnings)
  {
  }

  lemma {:induction false} WorkerUnaffected(clock: Millis, clock': Millis, before: Requests, after: Requests, w: Worker)
    requires WorkerConsistent(clock, before, w) && clock <= clock'
    requires forall id | id in before :: id in after && after[id].scheduledFor == before[id].scheduledFor
    requires w.erasing.Some? && w.erasing.value in after ==> after[w.erasing.value].status == Processing
    ensures WorkerConsistent(clock', after, w)
  {
  }

  lemma {:induction false} DaysRemainingInLead(left: Millis)
    requires 0 < left <= DELETION_FINAL_WARNING_LEAD_DAYS * DAY_MS
    ensures 1 <= DaysRemaining(left) <= DELETION_FINAL_WARNING_LEAD_DAYS
  {
  }

  lemma {:induction false} ClaimKeepsSafe(s: State, worker: Id, id: Id)
    requires Safe(s) && Enabled(s, Claim(worker, id))
    ensures Safe(Claimed(s, worker, id))
  {
    var s' := Claimed(s, worker, id);
    ClaimKeepsWorkers(s, worker, id);
    if s.requests[id].status == Grace {
      ErasureStarts(s.requests, s.erasures, Erasure(worker, id, s.clock));
      WarningLogUnaffected(s.requests, s'.requests, s.warnings);
      OpenUnaffected(s.requests, s'.requests);
    }
  }

  lemma {:induction false} ClaimKeepsWorkers(s: State, worker: Id, id: Id)
    requires WorkersConsistent(s.clock, s.requests, s.workers) && Enabled(s, Claim(worker, id))
    ensures var s' := Claimed(s, worker, id); WorkersConsistent(s'.clock, s'.requests, s'.workers)
    ensures s.requests[id].scheduledFor <= s.clock
  {
    var s' := Claimed(s, worker, id);
    assert WorkerConsistent(s.clock, s.requests, s.workers[worker]);
    forall w | w in s'.workers ensures WorkerConsistent(s'.clock, s'.requests, s'.workers[w]) {
      if w != worker { WorkerUnaffected(s.clock, s'.clock, s.requests, s'.requests, s.workers[w]); }
    }
  }

  lemma {:induction false} OpenUnaffected(before: Requests, after: Requests)
    requires OneOpenPerMember(before)
    requires forall id | id in after ::
        id in before && after[id].user == before[id].user && (IsOpen(after[id]) ==> IsOpen(before[id]))
    ensures OneOpenPerMember(after)
  {
  }

  lemma {:induction false} WorkersUnaffected(clock: Millis, before: Requests, after: Requests, workers: map<Id, Worker>)
    requires WorkersConsistent(clock, before, workers)
    requires forall id | id in before ::
        id in after && after[id].scheduledFor == before[id].scheduledFor && after[id].status == before[id].status
    ensures WorkersConsistent(clock, after, workers)
  {
    forall v | v in workers ensures WorkerConsistent(clock, after, workers[v]) {
      WorkerUnaffected(clock, clock, before, after, workers[v]);
    }
  }

  lemma {:induction false} ForgetUpcoming(
      clock: Millis, requests: Requests, workers: map<Id, Worker>, worker: Id, id: Id)
    requires WorkersConsistent(clock, requests, workers) && worker in workers
    ensures WorkersConsistent(clock, requests,
        workers[worker := workers[worker].(upcoming := workers[worker].upcoming - {id})])
  {
    assert WorkerConsistent(clock, requests, workers[worker]);
  }

  lemma {:induction false} WarnClaimKeepsSafe(s: State, worker: Id, id: Id)
    requires Safe(s) && Enabled(s, WarnClaim(worker, id))
    ensures Safe(WarnClaimed(s, worker, id))
  {
    var r, w := s.requests[id], s.workers[worker];
    ForgetUpcoming(s.clock, s.requests, s.workers, worker, id);
    if r.scheduledFor > w.readAt && r.status == Grace && r.warnedAt.None? {
      WarningSentKeepsSafe(s, worker, id);
    }
  }

  lemma {:induction false} WarningSentKeepsSafe(s: State, worker: Id, id: Id)
    requires Safe(s) && worker in s.workers && id in s.workers[worker].upcoming && id in s.requests
    requires s.requests[id].scheduledFor > s.workers[worker].readAt && s.requests[id].status == Grace
        && s.requests[id].warnedAt.None?
    ensures Safe(WarningSent(s, worker, id))
  {
    var r, w := s.requests[id], s.workers[worker];
    assert WorkerConsistent(s.clock, s.requests, w);
    ForgetUpcoming(s.clock, s.requests, s.workers, worker, id);
    DaysRemainingInLead(r.scheduledFor - w.readAt);
    WarningKeepsTheRest(s, id, w.readAt, s.workers[worker := w.(upcoming := w.upcoming - {id})]);
    WarningIsSent(s.requests, s.warnings, Warning(id, DaysRemaining(r.scheduledFor - w.readAt)), w.readAt);
  }

  lemma {:induction false} WarningKeepsTheRest(s: State, id: Id, at: Millis, workers: map<Id, Worker>)
    requires Safe(s) && id in s.requests && WorkersConsistent(s.clock, s.requests, workers)
    ensures var after := s.requests[id := s.requests[id].(warnedAt := Some(at))];
            ErasedAtMostOnce(after, s.erasures) && OneOpenPerMember(after) && WorkersConsistent(s.clock, after, workers)
  {
    var after := s.requests[id := s.requests[id].(warnedAt := Some(at))];
    ErasureLogUnaffected(s.requests, after, s.erasures);
    OpenUnaffected(s.requests, after);
    WorkersUnaffected(s.clock, s.requests, after, workers);
  }

  lemma {:induction false} FinishKeepsSafe(s: State, worker: Id)
    requires Safe(s) && Enabled(s, Finish(worker))
    ensures Safe(Finished(s, worker))
  {
    var s' := Finished(s, worker);
    assert WorkerConsistent(s.clock, s.requests, s.workers[worker]);
    ErasureLogUnaffected(s.requests, s'.requests, s.erasures);
    WarningLogUnaffected(s.requests, s'.requests, s.warnings);
    forall v | v in s'.workers ensures WorkerConsistent(s'.clock, s'.requests, s'.workers[v]) {
      if v != worker { WorkerUnaffected(s.clock, s'.clock, s.requests, s'.requests, s.workers[v]); }
    }
  }

  /** The steps of members: new rows, cancellations, and time. */
  lemma {:induction false} MemberStepKeepsSafe(s: State, step: Step)
    requires Safe(s) && Enabled(s, step) && (step.Tick? || step.Insert? || step.CancelRead? || step.CancelWrite?)
    ensures Safe(Apply(s, step))
  {
    var s' := Apply(s, step);
    if step.Insert? {
      InsertKeepsSafe(s, step.request, step.user);
    } else {
      ErasureLogUnaffected(s.requests, s'.requests, s.erasures);
      WarningLogUnaffected(s.requests, s'.requests, s.warnings);
      WorkersCarryOn(s, s');
      OpenUnaffected(s.requests, s'.requests);
    }
  }

  lemma {:induction false} WorkersCarryOn(s: State, s': State)
    requires WorkersConsistent(s.clock, s.requests, s.workers) && s'.workers == s.workers && s.clock <= s'.clock
    requires forall id | id in s.requests ::
        id in s'.requests && s'.requests[id].scheduledFor == s.requests[id].scheduledFor
    requires forall id | id in s.requests && s.requests[id].status == Processing :: s'.requests[id].status == Processing
    ensures WorkersConsistent(s'.clock, s'.requests, s'.workers)
  {
    forall v | v in s'.workers ensures WorkerConsistent(s'.clock, s'.requests, s'.workers[v]) {
      WorkerUnaffected(s.clock, s'.clock, s.requests, s'.requests, s.workers[v]);
    }
  }

  lemma {:induction false} InsertKeepsSafe(s: State, id: Id, user: Id)
    requires Safe(s) && id !in s.requests
    ensures Safe(Inserted(s, id, user))
  {
    var s' := Inserted(s, id, user);
    assert !Started(s.erasures, id) && !Warned(s.warnings, id);
    ErasureLogUnaffected(s.requests, s'.requests, s.erasures);
    WarningLogUnaffected(s.requests, s'.requests, s.warnings);
    WorkersCarryOn(s, s');
    InsertKeepsOneOpen(s, id, user);
  }

  lemma {:induction false} InsertKeepsOneOpen(s: State, id: Id, user: Id)
    requires OneOpenPerMember(s.requests) && id !in s.requests
    ensures OneOpenPerMember(Inserted(s, id, user).requests)
  {
  }

  lemma {:induction false} StepKeepsSafe(s: State, step: Step)
    requires Safe(s) && Enabled(s, step)
    ensures Safe(Apply(s, step))
  {
    match step
    case Claim(worker, id) => ClaimKeepsSafe(s, worker, id);
    case WarnClaim(worker, id) => WarnClaimKeepsSafe(s, worker, id);
    case Finish(worker) => FinishKeepsSafe(s, worker);
    case SweepRead(worker) =>
    case WarnRead(worker) =>
    case Fail(worker) =>
    case Crash(worker) =>
    case _ => MemberStepKeepsSafe(s, step);
  }

  // ---------------------------------------------------------------------------------- runs

  ghost predicate IsRun(run: seq<State>) {
    |run| > 0 && forall i | 0 <= i < |run| - 1 :: Next(run[i], run[i + 1])
  }

  lemma {:induction false} InitialIsSafe(s: State)
    requires Initial(s)
    ensures Safe(s)
  {
  }

  /** Every state of every interleaving is safe. */
  lemma {:induction false} RunIsSafe(run: seq<State>, i: nat)
    requires IsRun(run) && Safe(run[0]) && i < |run|
    ensures Safe(run[i])
  {
    if i == 0 {
    } else {
      RunIsSafe(run, i - 1);
      assert Next(run[i - 1], run[i]);
      var step :| Enabled(run[i - 1], step) && run[i] == Apply(run[i - 1], step);
      StepKeepsSafe(run[i - 1], step);
    }
  }

  /** What one step may do to a row: grace is the only status with a choice, and each choice is final. */
  predicate Evolves(before: Request, after: Request) {
    && after.user == before.user
    && after.scheduledFor == before.scheduledFor
    && (before.warnedAt.Some? ==> after.warnedAt == before.warnedAt)
    && (match before.status
        case Grace => true
        case Processing => after.status in {Processing, Erased}
        case Erased => after.status == Erased
        case Cancelled => after.status == Cancelled)
  }

  lemma {:induction false} CancelEvolves(s: State, session: Id, id: Id)
    requires session in s.cancelling && id in s.requests
    ensures id in CancelWritten(s, session).requests && Evolves(s.requests[id], CancelWritten(s, session).requests[id])
  {
  }

  lemma {:induction false} FinishEvolves(s: State, worker: Id, id: Id)
    requires WorkersConsistent(s.clock, s.requests, s.workers) && Enabled(s, Finish(worker)) && id in s.requests
    ensures id in Finished(s, worker).requests && Evolves(s.requests[id], Finished(s, worker).requests[id])
  {
    assert WorkerConsistent(s.clock, s.requests, s.workers[worker]);
  }

  lemma {:induction false} WarnEvolves(s: State, worker: Id, other: Id, id: Id)
    requires worker in s.workers && other in s.requests && id in s.requests
    ensures id in WarnClaimed(s, worker, other).requests
    ensures Evolves(s.requests[id], WarnClaimed(s, worker, other).requests[id])
  {
  }

  lemma {:induction false} ClaimEvolves(s: State, worker: Id, other: Id, id: Id)
    requires worker in s.workers && other in s.requests && id in s.requests
    ensures id in Claimed(s, worker, other).requests && Evolves(s.requests[id], Claimed(s, worker, other).requests[id])
  {
  }

  lemma {:induction false} StepEvolves(s: State, step: Step, id: Id)
    requires Safe(s) && Enabled(s, step) && id in s.requests
    ensures id in Apply(s, step).requests && Evolves(s.requests[id], Apply(s, step).requests[id])
  {
    match step
    case CancelWrite(session) => CancelEvolves(s, session, id);
    case Claim(worker, other) => ClaimEvolves(s, worker, other, id);
    case Finish(worker) => FinishEvolves(s, worker, id);
    case WarnClaim(worker, other) => WarnEvolves(s, worker, other, id);
    case _ =>
  }

  lemma {:induction false} NextEvolves(s: State, s': State, id: Id)
    requires Safe(s) && Next(s, s') && id in s.requests
    ensures id in s'.requests && Evolves(s.requests[id], s'.requests[id])
  {
    var step :| Enabled(s, step) && s' == Apply(s, step);
    StepEvolves(s, step, id);
  }

  lemma {:induction false} EvolvesChains(a: Request, b: Request, c: Request)
    requires Evolves(a, b) && Evolves(b, c)
    ensures Evolves(a, c)
  {
  }

  ghost predicate EvolvesAt(run: seq<State>, k: nat, id: Id)
    requires k + 1 < |run|
  {
    id in run[k].requests ==> id in run[k + 1].requests && Evolves(run[k].requests[id], run[k + 1].requests[id])
  }

  lemma {:induction false} EvolvesAlong(run: seq<State>, i: nat, j: nat, id: Id)
    requires i <= j < |run| && id in run[i].requests
    requires forall k: nat | i <= k < j :: EvolvesAt(run, k, id)
    ensures id in run[j].requests && Evolves(run[i].requests[id], run[j].requests[id])
    decreases j
  {
    if i == j {
    } else {
      EvolvesAlong(run, i, j - 1, id);
      assert EvolvesAt(run, j - 1, id);
      EvolvesChains(run[i].requests[id], run[j - 1].requests[id], run[j].requests[id]);
    }
  }

  lemma {:induction false} RunSteps(run: seq<State>, k: nat)
    requires IsRun(run) && k + 1 < |run|
    ensures Next(run[k], run[k + 1])
  {
  }

  lemma {:induction false} RowEvolves(run: seq<State>, i: nat, j: nat, id: Id)
    requires IsRun(run) && Safe(run[0]) && i <= j < |run| && id in run[i].requests
    ensures id in run[j].requests && Evolves(run[i].requests[id], run[j].requests[id])
  {
    forall k: nat | i <= k < j ensures EvolvesAt(run, k, id) {
      RunIsSafe(run, k);
      RunSteps(run, k);
      if id in run[k].requests { NextEvolves(run[k], run[k + 1], id); }
    }
    EvolvesAlong(run, i, j, id);
  }

  /** A cancelled request is never erased and a claimed one never cancelled, whatever else runs. */
  lemma {:induction false} CancelledOrClaimedForGood(run: seq<State>, i: nat, j: nat, id: Id)
    requires IsRun(run) && Initial(run[0]) && i <= j < |run| && id in run[i].requests
    ensures id in run[j].requests
    ensures run[i].requests[id].status == Cancelled ==>
        run[j].requests[id].status == Cancelled && !Started(run[j].erasures, id)
    ensures Started(run[i].erasures, id) ==> Started(run[j].erasures, id) && run[j].requests[id].status != Cancelled
  {
    InitialIsSafe(run[0]);
    RowEvolves(run, i, j, id);
    RunIsSafe(run, i);
    RunIsSafe(run, j);
  }
}
