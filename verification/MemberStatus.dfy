/**
 * Hiding and coming back (`deactivate`, `requestDeletion`, `cancelDeletionRequest`): which status is
 * recorded when a member disappears, and which one a cancellation restores. One member's rows; each
 * transaction of the service is one step.
 */
module MemberStatus {
  import opened DeletionRequests
  import opened Wrappers

  datatype UserStatus = Active | Suspended | Deactivated

  datatype DeletionRow = DeletionRow(status: RequestStatus, previousStatus: Option<UserStatus>)

  /** The one `account_deactivation` row of a member; open while `reactivatedAt` is null. */
  datatype Deactivation = Deactivation(open: bool, previousStatus: Option<UserStatus>)

  datatype Error = NotFound | SoleAdmin | AlreadyScheduled | AlreadyProcessing | NothingPending

  /** `deletions` in creation order. */
  datatype Member = Member(exists_: bool, status: UserStatus, deletions: seq<DeletionRow>,
    deactivation: Option<Deactivation>) {
    predicate Paused() { deactivation.Some? && deactivation.value.open }

    predicate Has(s: RequestStatus) { exists i | 0 <= i < |deletions| :: deletions[i].status == s }

    predicate HasOpen() { Has(Grace) || Has(Processing) }
  }

  /** `find` in creation order. */
  function FirstGrace(rows: seq<DeletionRow>): Option<DeletionRow> {
    if rows == [] then None else if rows[0].status == Grace then Some(rows[0]) else FirstGrace(rows[1..])
  }

  function ResolveRestoreStatus(m: Member): Result<UserStatus, Error> {
    if !m.exists_ then Err(NotFound)
    else if m.status != Deactivated then Ok(m.status)
    else
      var fromPause := if m.Paused() then m.deactivation.value.previousStatus else None;
      var grace := FirstGrace(m.deletions);
      var fromDeletion := if grace.Some? then grace.value.previousStatus else None;
      Ok(if fromPause.Some? then fromPause.value else fromDeletion.GetOr(Active))
  }

  function DoDeactivate(m: Member, isSoleAdmin: bool): Result<Member, Error> {
    if isSoleAdmin then Err(SoleAdmin)
    else
      match ResolveRestoreStatus(m)
      case Err(e) => Err(e)
      case Ok(previous) => Ok(m.(deactivation := Some(Deactivation(true, Some(previous))), status := Deactivated))
  }

  function DoRequest(m: Member, isSoleAdmin: bool): Result<Member, Error> {
    if isSoleAdmin then Err(SoleAdmin)
    else if m.HasOpen() then Err(AlreadyScheduled)
    else
      match ResolveRestoreStatus(m)
      case Err(e) => Err(e)
      case Ok(previous) => Ok(m.(deletions := m.deletions + [DeletionRow(Grace, Some(previous))],
        status := Deactivated))
  }

  function CancelRows(rows: seq<DeletionRow>): seq<DeletionRow> {
    seq(|rows|, i requires 0 <= i < |rows| => if rows[i].status == Grace then rows[i].(status := Cancelled)
      else rows[i])
  }

  /** `open.find((row) => row.previousStatus !== null) ?? open[0]`, then its status or Active. */
  function RecordedStatus(rows: seq<DeletionRow>): UserStatus {
    if rows == [] then Active
    else if rows[0].status == Grace && rows[0].previousStatus.Some? then rows[0].previousStatus.value
    else RecordedStatus(rows[1..])
  }

  function DoCancel(m: Member): Result<Member, Error> {
    if m.Has(Processing) then Err(AlreadyProcessing)
    else if !m.Has(Grace) then Err(NothingPending)
    else
      var cancelled := m.(deletions := CancelRows(m.deletions));
      if m.Paused() || m.status != Deactivated then Ok(cancelled)
      else Ok(cancelled.(status := RecordedStatus(m.deletions)))
  }

  /** Signing in ends a pause, unless an erasure is pending. */
  function DoSignIn(m: Member): Member {
    if m.status != Deactivated || m.HasOpen() || !m.Paused() then m
    else m.(status := m.deactivation.value.previousStatus.GetOr(Active),
            deactivation := Some(m.deactivation.value.(open := false)))
  }

  /** What the rows give a hidden member on the way back: the open pause's record, else the grace row's. */
  function ComesBackAs(m: Member): UserStatus {
    if m.Paused() then m.deactivation.value.previousStatus.GetOr(Active) else RecordedStatus(m.deletions)
  }

  class MemberAccount {
    var member: Member

    method Deactivate(isSoleAdmin: bool) returns (r: Result<(), Error>)
      modifies this
      ensures match DoDeactivate(old(member), isSoleAdmin)
              case Ok(after) => r == Ok(()) && member == after
              case Err(e) => r == Err(e) && member == old(member)
      ensures r.Ok? <==> !isSoleAdmin && old(member).exists_
      ensures r.Ok? ==> member.status == Deactivated && member.Paused() && member.deletions == old(member).deletions
      ensures r.Ok? && old(member).status != Deactivated ==> ComesBackAs(member) == old(member).status
      ensures r.Ok? && old(member).status == Deactivated && Recorded(old(member)) ==>
                ComesBackAs(member) == ComesBackAs(old(member))
    {
      if isSoleAdmin { return Err(SoleAdmin); }
      if member.exists_ && Recorded(member) {
        ResolveIsComesBackAs(member);
      }
      var previous := ResolveRestoreStatus(member);
      if previous.Err? { return Err(previous.error); }
      member := member.(deactivation := Some(Deactivation(true, Some(previous.value))));
      member := member.(status := Deactivated);
      r := Ok(());
    }

    method RequestDeletion(isSoleAdmin: bool) returns (r: Result<(), Error>)
      modifies this
      ensures match DoRequest(old(member), isSoleAdmin)
              case Ok(after) => r == Ok(()) && member == after
              case Err(e) => r == Err(e) && member == old(member)
      ensures r.Ok? <==> !isSoleAdmin && !old(member).HasOpen() && old(member).exists_
      ensures r.Ok? ==> member.status == Deactivated && member.deactivation == old(member).deactivation
      ensures r.Ok? ==>
          |member.deletions| == |old(member).deletions| + 1 && member.Has(Grace) && !member.Has(Processing)
      ensures r.Ok? && old(member).status != Deactivated ==>
                member.deletions[|old(member).deletions|] == DeletionRow(Grace, Some(old(member).status))
    {
      if isSoleAdmin { return Err(SoleAdmin); }
      if member.HasOpen() { return Err(AlreadyScheduled); }
      var previous := ResolveRestoreStatus(member);
      if previous.Err? { return Err(previous.error); }
      member := member.(deletions := member.deletions + [DeletionRow(Grace, Some(previous.value))]);
      assert member.deletions[|old(member).deletions|].status == Grace;
      member := member.(status := Deactivated);
      r := Ok(());
    }

    method CancelDeletionRequest() returns (r: Result<(), Error>)
      modifies this
      ensures match DoCancel(old(member))
              case Ok(after) => r == Ok(()) && member == after
              case Err(e) => r == Err(e) && member == old(member)
      ensures r.Ok? <==> old(member).Has(Grace) && !old(member).Has(Processing)
      ensures r.Ok? ==> !member.HasOpen() && member.deactivation == old(member).deactivation
      ensures r.Ok? ==>
                member.status == if old(member).status == Deactivated && !old(member).Paused()
                  then ComesBackAs(old(member)) else old(member).status
    {
      if member.Has(Processing) { return Err(AlreadyProcessing); }
      if !member.Has(Grace) { return Err(NothingPending); }
      var recorded := RecordedStatus(member.deletions);
      member := member.(deletions := CancelRows(member.deletions));
      r := Ok(());
      if member.Paused() { return; }
      if member.status == Deactivated {
        member := member.(status := recorded);
      }
    }
  }

  // ---------------------------------------------------------------------------------- runs

  /**
   * What else touches these rows: sign-in, the sweep, and moderators. A sanction, or its lifting, leaves a
   * hidden member hidden and brings only an open pause up to date. MoveStatus is any other writer.
   */
  datatype Step =
    | Deactivate(isSoleAdmin: bool)
    | RequestDeletion(isSoleAdmin: bool)
    | CancelDeletion
    | SignIn
    | Claim(row: nat)
    | Finish(row: nat)
    | MoveStatus(to: UserStatus)
    | Sanction(to: UserStatus)

  function OrSame(r: Result<Member, Error>, m: Member): Member { if r.Ok? then r.value else m }

  predicate Enabled(m: Member, step: Step) {
    match step
    case Claim(row) => row < |m.deletions|
    case Finish(row) => row < |m.deletions| && m.deletions[row].status == Processing
    case MoveStatus(to) => to != Deactivated
    case Sanction(to) => to != Deactivated
    case _ => true
  }

  /** `enforceAgainstUser` and `restoreUser`, with `syncDeactivationPreviousStatus`. */
  function Sanctioned(m: Member, to: UserStatus): Member {
    var synced := if m.Paused() then m.(deactivation := Some(Deactivation(true, Some(to)))) else m;
    if m.status == Deactivated then synced else synced.(status := to)
  }

  function Apply(m: Member, step: Step): Member
    requires Enabled(m, step)
  {
    match step
    case Deactivate(isSoleAdmin) => OrSame(DoDeactivate(m, isSoleAdmin), m)
    case RequestDeletion(isSoleAdmin) => OrSame(DoRequest(m, isSoleAdmin), m)
    case CancelDeletion => OrSame(DoCancel(m), m)
    case SignIn => DoSignIn(m)
    case Claim(row) =>
      if m.deletions[row].status == Grace
        then m.(deletions := m.deletions[row := m.deletions[row].(status := Processing)]) else m
    case Finish(row) => m.(exists_ := false, deletions := m.deletions[row := m.deletions[row].(status := Erased)])
    case MoveStatus(to) => m.(status := to)
    case Sanction(to) => Sanctioned(m, to)
  }

  /** The status the member had when they last went from visible to hidden, carried along a run. */
  function HeldAfter(m: Member, m': Member, held: UserStatus): UserStatus {
    if m.status != Deactivated && m'.status == Deactivated then m.status else held
  }

  predicate NeverDeactivated(s: Option<UserStatus>) { s.Some? && s.value != Deactivated }

  ghost predicate Recorded(m: Member) {
    && (forall i | 0 <= i < |m.deletions| :: NeverDeactivated(m.deletions[i].previousStatus))
    && (m.deactivation.Some? ==> NeverDeactivated(m.deactivation.value.previousStatus))
  }

  ghost predicate OneOpen(m: Member) {
    forall i, j | 0 <= i < j < |m.deletions| ::
      !(m.deletions[i].status in {Grace, Processing} && m.deletions[j].status in {Grace, Processing})
  }

  /**
   * The invariant. A hidden member can come back: a pause is open or a request is. Hidden without a
   * pause, the grace row records the status held before.
   */
  ghost predicate Restorable(m: Member, held: UserStatus) {
    && Recorded(m) && OneOpen(m) && held != Deactivated
    && (m.exists_ && m.status == Deactivated ==> m.Paused() || m.HasOpen())
    && (m.status == Deactivated && !m.Paused() ==>
          forall i | 0 <= i < |m.deletions| && m.deletions[i].status == Grace ::
            m.deletions[i].previousStatus == Some(held))
  }

  lemma {:induction false} FirstGraceIs(rows: seq<DeletionRow>)
    ensures FirstGrace(rows).Some? <==> exists i | 0 <= i < |rows| :: rows[i].status == Grace
    ensures FirstGrace(rows).Some? ==>
        exists i | 0 <= i < |rows| :: rows[i].status == Grace && FirstGrace(rows).value == rows[i]
  {
    if rows == [] {
    } else {
      FirstGraceIs(rows[1..]);
      assert rows == [rows[0]] + rows[1..];
    }
  }

  lemma {:induction false} RecordedStatusIs(rows: seq<DeletionRow>)
    requires forall i | 0 <= i < |rows| :: rows[i].previousStatus.Some?
    ensures RecordedStatus(rows) == Active || exists i | 0 <= i < |rows| ::
        rows[i].status == Grace && RecordedStatus(rows) == rows[i].previousStatus.value
    ensures (exists i | 0 <= i < |rows| :: rows[i].status == Grace) ==>
              exists i | 0 <= i < |rows| ::
                rows[i].status == Grace && RecordedStatus(rows) == rows[i].previousStatus.value
  {
    if rows == [] {
    } else {
      RecordedStatusIs(rows[1..]);
      assert rows == [rows[0]] + rows[1..];
      if rows[0].status != Grace && exists i | 0 <= i < |rows| :: rows[i].status == Grace {
        var i :| 0 <= i < |rows| && rows[i].status == Grace;
        assert rows[1..][i - 1].status == Grace;
        var k :| 0 <= k < |rows[1..]| && rows[1..][k].status == Grace
          && RecordedStatus(rows[1..]) == rows[1..][k].previousStatus.value;
        assert rows[k + 1] == rows[1..][k];
      }
    }
  }

  lemma {:induction false} ResolvedIsVisible(m: Member)
    requires Recorded(m)
    ensures ResolveRestoreStatus(m).Ok? ==> ResolveRestoreStatus(m).value != Deactivated
  {
    FirstGraceIs(m.deletions);
  }

  lemma {:induction false} RequestKeepsRestorable(m: Member, held: UserStatus)
    requires Restorable(m, held) && DoRequest(m, false).Ok?
    ensures var m' := DoRequest(m, false).value; Restorable(m', HeldAfter(m, m', held))
  {
    var m' := DoRequest(m, false).value;
    ResolvedIsVisible(m);
    assert m'.deletions[|m.deletions|].status == Grace;
    assert m'.HasOpen();
  }

  lemma {:induction false} ClaimKeepsRestorable(m: Member, row: nat, held: UserStatus)
    requires Restorable(m, held) && row < |m.deletions| && m.deletions[row].status == Grace
    ensures var m' := Apply(m, Claim(row)); Restorable(m', HeldAfter(m, m', held))
  {
    var m' := Apply(m, Claim(row));
    assert m'.deletions[row].status == Processing;
    assert m'.HasOpen();
  }

  lemma {:induction false} PauseKeepsRestorable(m: Member, isSoleAdmin: bool, held: UserStatus)
    requires Restorable(m, held)
    ensures var m' := Apply(m, Deactivate(isSoleAdmin)); Restorable(m', HeldAfter(m, m', held))
  {
    ResolvedIsVisible(m);
  }

  lemma {:induction false} CancelKeepsRestorable(m: Member, held: UserStatus)
    requires Restorable(m, held)
    ensures var m' := Apply(m, CancelDeletion); Restorable(m', HeldAfter(m, m', held))
  {
    RecordedStatusIs(m.deletions);
  }

  lemma {:induction false} StepKeepsRestorable(m: Member, step: Step, held: UserStatus)
    requires Restorable(m, held) && Enabled(m, step)
    ensures Restorable(Apply(m, step), HeldAfter(m, Apply(m, step), held))
  {
    match step
    case Deactivate(a) => PauseKeepsRestorable(m, a, held);
    case RequestDeletion(a) => if DoRequest(m, a).Ok? { RequestKeepsRestorable(m, held); }
    case CancelDeletion => CancelKeepsRestorable(m, held);
    case Claim(row) => if m.deletions[row].status == Grace { ClaimKeepsRestorable(m, row, held); }
    case _ =>
  }

  /** A run of one member, with the status held before hiding carried beside it. */
  ghost predicate IsRun(members: seq<Member>, held: seq<UserStatus>, steps: seq<Step>) {
    && |members| == |held| == |steps| + 1
    && Initial(members[0]) && held[0] == members[0].status
    && forall i | 0 <= i < |steps| ::
         && Enabled(members[i], steps[i])
         && members[i + 1] == Apply(members[i], steps[i])
         && held[i + 1] == HeldAfter(members[i], members[i + 1], held[i])
  }

  predicate Initial(m: Member) { m.exists_ && m.status != Deactivated && m.deletions == [] && m.deactivation.None? }

  lemma {:induction false} RunIsRestorable(members: seq<Member>, held: seq<UserStatus>, steps: seq<Step>, i: nat)
    requires IsRun(members, held, steps) && i < |members|
    ensures Restorable(members[i], held[i])
  {
    if i == 0 {
    } else {
      RunIsRestorable(members, held, steps, i - 1);
      RunSteps(members, held, steps, i - 1);
      StepKeepsRestorable(members[i - 1], steps[i - 1], held[i - 1]);
    }
  }

  lemma {:induction false} RunSteps(members: seq<Member>, held: seq<UserStatus>, steps: seq<Step>, i: nat)
    requires IsRun(members, held, steps) && i < |steps|
    ensures Enabled(members[i], steps[i]) && members[i + 1] == Apply(members[i], steps[i])
    ensures held[i + 1] == HeldAfter(members[i], members[i + 1], held[i])
  {
  }

  /** No open pause and no grace row ever records Deactivated as what to come back to. */
  lemma {:induction false} NothingRecordsDeactivated(
      members: seq<Member>, held: seq<UserStatus>, steps: seq<Step>, i: nat)
    requires IsRun(members, held, steps) && i < |members|
    ensures members[i].Paused() ==> members[i].deactivation.value.previousStatus != Some(Deactivated)
    ensures forall k | 0 <= k < |members[i].deletions| && members[i].deletions[k].status == Grace ::
        members[i].deletions[k].previousStatus != Some(Deactivated)
  {
    RunIsRestorable(members, held, steps, i);
  }

  /**
   * A cancellation closes every open request, and without an open pause gives a hidden member the
   * status held before hiding; a status somebody else set is left, and a paused member stays hidden.
   */
  lemma {:induction false} CancelRestoresExactly(members: seq<Member>, held: seq<UserStatus>, steps: seq<Step>, i: nat)
    requires IsRun(members, held, steps) && i < |members|
    requires DoCancel(members[i]).Ok?
    ensures var before, after := members[i], DoCancel(members[i]).value;
            && !after.HasOpen()
            && after.deactivation == before.deactivation
            && (before.Paused() ==> after.status == before.status)
            && (before.status != Deactivated ==> after.status == before.status)
            && (!before.Paused() && before.status == Deactivated ==> after.status == held[i])
  {
    RunIsRestorable(members, held, steps, i);
    RecordedStatusIs(members[i].deletions);
  }

  /**
   * What a second hiding step would record for a member hidden without a pause: the status held
   * before, exactly when a grace row is there to read it from, or it was Active anyway.
   */
  lemma {:induction false} ResolveIsExactWithAGraceRow(
      members: seq<Member>, held: seq<UserStatus>, steps: seq<Step>, i: nat)
    requires IsRun(members, held, steps) && i < |members|
    requires members[i].exists_ && members[i].status == Deactivated && !members[i].Paused()
    ensures ResolveRestoreStatus(members[i]) == Ok(held[i]) <==> members[i].Has(Grace) || held[i] == Active
  {
    RunIsRestorable(members, held, steps, i);
    FirstGraceIs(members[i].deletions);
  }

  /** The run in which it is not: suspended, request, claimed by the sweep, then deactivate. */
  lemma {:induction false} ProcessingRowIsNotRead()
    ensures var suspended := Member(true, Suspended, [], None);
            var requested := OrSame(DoRequest(suspended, false), suspended);
            var claimed := Apply(requested, Claim(0));
            && requested.deletions == [DeletionRow(Grace, Some(Suspended))]
            && ResolveRestoreStatus(requested) == Ok(Suspended)
            && ResolveRestoreStatus(claimed) == Ok(Active)
  {
    var suspended := Member(true, Suspended, [], None);
    var requested := OrSame(DoRequest(suspended, false), suspended);
    assert requested.deletions == [DeletionRow(Grace, Some(Suspended))];
    var claimed := Apply(requested, Claim(0));
    FirstGraceIs(requested.deletions);
    FirstGraceIs(claimed.deletions);
  }

  // ------------------------------------------------------------- sanctions on hidden members

  /** Hidden, there, and not being erased: a member who can still come back. */
  predicate IsAway(m: Member) { m.exists_ && m.status == Deactivated && !m.Has(Processing) }

  /** Coming back, by signing in or by cancelling, gives the status on record. */
  lemma {:induction false} ComingBackGives(m: Member)
    requires IsAway(m)
    ensures m.Paused() && !m.HasOpen() ==> DoSignIn(m).status == ComesBackAs(m)
    ensures !m.Paused() && m.Has(Grace) ==> DoCancel(m).Ok? && DoCancel(m).value.status == ComesBackAs(m)
  {
  }

  /** Two ways to find the one grace row. */
  lemma {:induction false} RecordedIsFirstGrace(rows: seq<DeletionRow>)
    requires forall i | 0 <= i < |rows| :: rows[i].previousStatus.Some?
    ensures RecordedStatus(rows) == if FirstGrace(rows).Some?
        then FirstGrace(rows).value.previousStatus.GetOr(Active) else Active
  {
    if rows == [] {
    } else {
      RecordedIsFirstGrace(rows[1..]);
    }
  }

  /** What hiding, again or for the first time, leaves on record. */
  lemma {:induction false} ResolveIsComesBackAs(m: Member)
    requires Recorded(m) && m.exists_
    ensures ResolveRestoreStatus(m) == Ok(if m.status != Deactivated then m.status else ComesBackAs(m))
  {
    RecordedIsFirstGrace(m.deletions);
  }

  lemma {:induction false} LastRowIsRecorded(rows: seq<DeletionRow>, last: DeletionRow)
    requires last.status == Grace && last.previousStatus.Some?
    requires forall i | 0 <= i < |rows| :: rows[i].status != Grace
    ensures RecordedStatus(rows + [last]) == last.previousStatus.value
  {
    if rows == [] {
    } else {
      LastRowIsRecorded(rows[1..], last);
      assert (rows + [last])[1..] == rows[1..] + [last];
    }
  }

  /** Going into hiding puts the status of that moment on record. */
  lemma {:induction false} HidingRecordsTheStatus(m: Member, step: Step, held: UserStatus)
    requires Restorable(m, held) && Enabled(m, step) && m.exists_ && m.status != Deactivated && !m.Paused()
    requires IsAway(Apply(m, step))
    ensures ComesBackAs(Apply(m, step)) == m.status
  {
    ResolveIsComesBackAs(m);
    match step
    case RequestDeletion(a) =>
      if DoRequest(m, a).Ok? {
        LastRowIsRecorded(m.deletions, DeletionRow(Grace, Some(m.status)));
      }
    case _ =>
  }

  /** While a member is away only a sanction under an open pause changes what is on record. */
  lemma {:induction false} AwayStep(m: Member, step: Step, held: UserStatus)
    requires Restorable(m, held) && Enabled(m, step) && IsAway(m) && IsAway(Apply(m, step))
    ensures ComesBackAs(Apply(m, step)) == if step.Sanction? && m.Paused() then step.to else ComesBackAs(m)
  {
    match step
    case Deactivate(_) => ResolveIsComesBackAs(m);
    case CancelDeletion => RecordedStatusIs(m.deletions);
    case Claim(row) => ClaimedIsProcessing(m, row);
    case _ =>
  }

  lemma {:induction false} ClaimedIsProcessing(m: Member, row: nat)
    requires row < |m.deletions|
    ensures m.deletions[row].status == Grace ==> Apply(m, Claim(row)).Has(Processing)
  {
    if m.deletions[row].status == Grace {
      assert Apply(m, Claim(row)).deletions[row].status == Processing;
    }
  }

  ghost predicate AwayThroughout(members: seq<Member>, i: nat, j: nat)
    requires i <= j < |members|
  {
    forall k | i <= k <= j :: IsAway(members[k])
  }

  /** Without a sanction the record stays what it was. */
  lemma {:induction false} RecordStays(members: seq<Member>, held: seq<UserStatus>, steps: seq<Step>, i: nat, j: nat)
    requires IsRun(members, held, steps) && i <= j < |members| && AwayThroughout(members, i, j)
    requires forall k | i <= k < j :: !steps[k].Sanction?
    ensures ComesBackAs(members[j]) == ComesBackAs(members[i])
    decreases j
  {
    if i == j {
    } else {
      RecordStays(members, held, steps, i, j - 1);
      RunIsRestorable(members, held, steps, j - 1);
      assert members[j - 1 + 1] == Apply(members[j - 1], steps[j - 1]);
      AwayStep(members[j - 1], steps[j - 1], held[j - 1]);
    }
  }

  /** Hidden and never sanctioned, a member comes back with the status they left with, pause or not. */
  lemma {:induction false} ComesBackAsTheyLeft(
      members: seq<Member>, held: seq<UserStatus>, steps: seq<Step>, h: nat, j: nat)
    requires IsRun(members, held, steps) && h < j < |members|
    requires members[h].exists_ && members[h].status != Deactivated && !members[h].Paused()
    requires AwayThroughout(members, h + 1, j) && forall k | h < k < j :: !steps[k].Sanction?
    ensures ComesBackAs(members[j]) == members[h].status
  {
    RunIsRestorable(members, held, steps, h);
    assert members[h + 1] == Apply(members[h], steps[h]);
    HidingRecordsTheStatus(members[h], steps[h], held[h]);
    RecordStays(members, held, steps, h + 1, j);
  }

  /**
   * The last sanction of a hidden member survives the return exactly if it came while a pause was open, or
   * was already the status on record.
   */
  lemma {:induction false} SanctionSurvivesIff(
      members: seq<Member>, held: seq<UserStatus>, steps: seq<Step>, k: nat, j: nat)
    requires IsRun(members, held, steps) && k < j < |members| && AwayThroughout(members, k, j)
    requires steps[k].Sanction? && forall l | k < l < j :: !steps[l].Sanction?
    ensures ComesBackAs(members[j]) == steps[k].to <==> members[k].Paused() || ComesBackAs(members[k]) == steps[k].to
  {
    RunIsRestorable(members, held, steps, k);
    assert members[k + 1] == Apply(members[k], steps[k]);
    AwayStep(members[k], steps[k], held[k]);
    RecordStays(members, held, steps, k + 1, j);
  }

  /** A run in which it does not: request, suspension, cancellation. */
  lemma {:induction false} CancellationLiftsASuspension()
    ensures var active := Member(true, Active, [], None);
            var requested := Apply(active, RequestDeletion(false));
            var suspended := Apply(requested, Sanction(Suspended));
            && IsAway(suspended)
            && DoCancel(suspended).Ok? && DoCancel(suspended).value.status == Active
            && IsRun([active, requested, suspended, DoCancel(suspended).value], [Active, Active, Active, Active],
                 [RequestDeletion(false), Sanction(Suspended), CancelDeletion])
  {
    var active := Member(true, Active, [], None);
    var requested := Apply(active, RequestDeletion(false));
    assert requested.deletions == [DeletionRow(Grace, Some(Active))];
    var suspended := Apply(requested, Sanction(Suspended));
    assert suspended.deletions[0].status == Grace;
  }

  /** Unless another writer unhides a paused member, a pause is open only on hidden members. */
  lemma {:induction false} PauseMeansHidden(members: seq<Member>, held: seq<UserStatus>, steps: seq<Step>, i: nat)
    requires IsRun(members, held, steps) && i < |members|
    requires forall k | 0 <= k < i && steps[k].MoveStatus? :: members[k].status != Deactivated
    ensures members[i].Paused() ==> members[i].status == Deactivated
  {
    if i == 0 {
    } else {
      PauseMeansHidden(members, held, steps, i - 1);
      assert members[i - 1 + 1] == Apply(members[i - 1], steps[i - 1]);
    }
  }

  // ---------------------------------------------------------------------------- coming back

  lemma {:induction false} WaysBack(m: Member)
    requires m.exists_ && m.status == Deactivated
    requires forall i | 0 <= i < |m.deletions| :: m.deletions[i].status != Processing
    ensures m.deactivation.Some? && m.deactivation.value.open
              && (forall i | 0 <= i < |m.deletions| :: m.deletions[i].status in {Cancelled, Erased})
            ==> DoSignIn(m) == m.(status := ComesBackAs(m),
                                  deactivation := Some(m.deactivation.value.(open := false)))
    ensures !(m.deactivation.Some? && m.deactivation.value.open)
              && (exists i | 0 <= i < |m.deletions| :: m.deletions[i].status == Grace)
            ==> DoCancel(m).Ok? && DoCancel(m).value.status == ComesBackAs(m)
  {
    ComingBackGives(m);
  }

  /** Both ways back, for a member nobody sanctioned. */
  lemma {:induction false} ReturnsAsTheyLeft(
      members: seq<Member>, held: seq<UserStatus>, steps: seq<Step>, h: nat, j: nat)
    requires IsRun(members, held, steps) && h < j < |members|
    requires members[h].exists_ && members[h].status != Deactivated && !members[h].Paused()
    requires forall k | h < k <= j ::
        && members[k].exists_ && members[k].status == Deactivated
        && forall d | 0 <= d < |members[k].deletions| :: members[k].deletions[d].status != Processing
    requires forall k | h < k < j :: !steps[k].Sanction?
    ensures var m := members[j];
            m.deactivation.Some? && m.deactivation.value.open
              && (forall i | 0 <= i < |m.deletions| :: m.deletions[i].status in {Cancelled, Erased})
            ==> DoSignIn(m) == m.(status := members[h].status,
                                  deactivation := Some(m.deactivation.value.(open := false)))
    ensures var m := members[j];
            !(m.deactivation.Some? && m.deactivation.value.open)
              && (exists i | 0 <= i < |m.deletions| :: m.deletions[i].status == Grace)
            ==> DoCancel(m).Ok? && DoCancel(m).value.status == members[h].status
  {
    assert AwayThroughout(members, h + 1, j);
    ComesBackAsTheyLeft(members, held, steps, h, j);
    WaysBack(members[j]);
  }

  /** And for one whose last sanction came under a pause. */
  lemma {:induction false} ReturnsAsSanctioned(
      members: seq<Member>, held: seq<UserStatus>, steps: seq<Step>, k: nat, j: nat)
    requires IsRun(members, held, steps) && k < j < |members|
    requires forall l | k <= l <= j ::
        && members[l].exists_ && members[l].status == Deactivated
        && forall d | 0 <= d < |members[l].deletions| :: members[l].deletions[d].status != Processing
    requires steps[k].Sanction? && forall l | k < l < j :: !steps[l].Sanction?
    requires members[k].deactivation.Some? && members[k].deactivation.value.open
    ensures var m := members[j];
            m.deactivation.Some? && m.deactivation.value.open
              && (forall i | 0 <= i < |m.deletions| :: m.deletions[i].status in {Cancelled, Erased})
            ==> DoSignIn(m) == m.(status := steps[k].to,
                                  deactivation := Some(m.deactivation.value.(open := false)))
    ensures var m := members[j];
            !(m.deactivation.Some? && m.deactivation.value.open)
              && (exists i | 0 <= i < |m.deletions| :: m.deletions[i].status == Grace)
            ==> DoCancel(m).Ok? && DoCancel(m).value.status == steps[k].to
  {
    assert AwayThroughout(members, k, j);
    SanctionSurvivesIff(members, held, steps, k, j);
    WaysBack(members[j]);
  }

  /** What the sweep does to the account: a row in grace is taken up, and a finished erasure leaves no member. */
  lemma {:induction false} SweepSteps(m: Member, row: nat)
    requires row < |m.deletions|
    ensures Enabled(m, Claim(row))
    ensures Apply(m, Claim(row))
         == if m.deletions[row].status != Grace then m
            else m.(deletions := m.deletions[row := DeletionRow(Processing, m.deletions[row].previousStatus)])
    ensures Enabled(m, Finish(row)) <==> m.deletions[row].status == Processing
    ensures m.deletions[row].status == Processing ==>
              && !Apply(m, Finish(row)).exists_
              && Apply(m, Finish(row)).deletions
                 == m.deletions[row := DeletionRow(Erased, m.deletions[row].previousStatus)]
  {
  }

  /** A cancellation closes the rows in grace, leaves every other row and the pause, and works without an erasure. */
  lemma {:induction false} CancelIs(m: Member, i: nat)
    requires i < |m.deletions| && m.deletions[i].status == Grace
    requires forall j | 0 <= j < |m.deletions| :: m.deletions[j].status != Processing
    ensures DoCancel(m).Ok?
    ensures var after := DoCancel(m).value;
            && after.exists_ == m.exists_ && after.deactivation == m.deactivation
            && |after.deletions| == |m.deletions|
            && forall j | 0 <= j < |m.deletions| ::
                 after.deletions[j] == if m.deletions[j].status == Grace
                                       then DeletionRow(Cancelled, m.deletions[j].previousStatus) else m.deletions[j]
  {
    assert m.Has(Grace) && !m.Has(Processing);
  }

  /**
   * A sanction reaches a visible member at once and a hidden one on record, under a pause only; any other writer
   * just writes the status.
   */
  lemma {:induction false} SanctionIs(m: Member, to: UserStatus)
    requires to != Deactivated
    ensures Enabled(m, Sanction(to))
    ensures var after := Apply(m, Sanction(to));
            && after.exists_ == m.exists_ && after.deletions == m.deletions
            && after.status == (if m.status == Deactivated then Deactivated else to)
            && after.deactivation == (if m.deactivation.Some? && m.deactivation.value.open
                                      then Some(Deactivation(true, Some(to))) else m.deactivation)
    ensures Enabled(m, MoveStatus(to)) && Apply(m, MoveStatus(to)) == m.(status := to)
  {
  }

  /** Along every run: at most one request is open, and a hidden member has a pause or an open request. */
  lemma {:induction false} HiddenHaveAWayBack(members: seq<Member>, held: seq<UserStatus>, steps: seq<Step>, i: nat)
    requires IsRun(members, held, steps) && i < |members|
    ensures var m := members[i];
            && (forall a, b | 0 <= a < |m.deletions| && 0 <= b < |m.deletions|
                  && m.deletions[a].status in {Grace, Processing} && m.deletions[b].status in {Grace, Processing} ::
                  a == b)
            && (m.exists_ && m.status == Deactivated ==>
                  || (m.deactivation.Some? && m.deactivation.value.open)
                  || exists a | 0 <= a < |m.deletions| :: m.deletions[a].status in {Grace, Processing})
  {
    RunIsRestorable(members, held, steps, i);
  }

  /**
   * The steps by which a visible member hides: a pause or a request, recording the status of that moment. The sole
   * admin stays, and so does who asks while a request is open.
   */
  lemma {:induction false} HidingIs(m: Member, isSoleAdmin: bool)
    requires m.exists_ && m.status != Deactivated
    ensures Apply(m, Deactivate(isSoleAdmin))
         == if isSoleAdmin then m
            else m.(status := Deactivated, deactivation := Some(Deactivation(true, Some(m.status))))
    ensures Apply(m, RequestDeletion(isSoleAdmin))
         == if isSoleAdmin || (exists i | 0 <= i < |m.deletions| :: m.deletions[i].status in {Grace, Processing}) then m
            else m.(status := Deactivated, deletions := m.deletions + [DeletionRow(Grace, Some(m.status))])
  {
  }

  /** Hiding again changes the record of a pause or adds a row, and the member stays hidden. */
  lemma {:induction false} HidingAgainIs(m: Member)
    requires m.exists_ && m.status == Deactivated && Recorded(m)
    ensures Apply(m, Deactivate(false)) == m.(deactivation := Some(Deactivation(true, Some(ComesBackAs(m)))))
    ensures (forall i | 0 <= i < |m.deletions| :: m.deletions[i].status in {Cancelled, Erased}) ==>
              Apply(m, RequestDeletion(false))
                == m.(deletions := m.deletions + [DeletionRow(Grace, Some(ComesBackAs(m)))])
  {
    ResolveIsComesBackAs(m);
  }
}
