/**
 * Runs of the message tables: erasure transactions, release batches, the two other writers of rows that
 * may be held, and whatever the rest of the application does in between (new members, messages, reports,
 * decisions on reports, seats).
 */
module ErasureRuns {
  import opened Wrappers
  import opened OrderedIds
  import opened Days
  import opened MessageTables
  import opened ReportRekey
  import opened MessageDatabase
  import opened MemberErasure

  const MESSAGE_DELETE_EVIDENCE_HOLD_DAYS := 30

  datatype Step =
    | Erase(user: Uuid, now: int)
    | Release(limit: nat, now: int)
    /** A message deleted for everyone, by its author or by staff. */
    | DeleteForEveryone(id: Uuid, now: int)
    /** `releaseRows` of the hourly sweep over the ids it selected. */
    | EvidenceSweep(ids: set<Uuid>, now: int)
    | Elsewhere

  // ------------------------------------------------------------------- the two other writers

  /** `tombstoneWithEvidenceHold`: the content stays for thirty days. */
  function DeletedForEveryone(m: Message, now: int): Message {
    if m.deletedAt.Some? || m.kind == SystemKind then m
    else m.(deletedAt := Some(now), purgeAfter := Some(now + MESSAGE_DELETE_EVIDENCE_HOLD_DAYS * DAY_MS))
  }

  /** A holding message report names this row, in the spelling `::text` prints. */
  predicate IsNamed(reports: Reports, id: Uuid) {
    exists r | r in reports ::
      reports[r].subjectType == MessageSubject && reports[r].subject == TextOf(id) && Holding(reports[r].status)
  }

  /** The guard of the sweep's UPDATE. It does not look at `erased_sender_ref`. */
  predicate IsDue(m: Message, reports: Reports, id: Uuid, now: int) {
    && m.deletedAt.Some?
    && m.purgeAfter.Some? && m.purgeAfter.value <= now
    && !IsNamed(reports, id)
  }

  function Blanked(m: Message): Message { m.(body := "", attachment := None, purgeAfter := None) }

  function EvidenceSwept(messages: Messages, reports: Reports, ids: set<Uuid>, now: int): Messages {
    map id | id in messages ::
      if id in ids && IsDue(messages[id], reports, id, now) then Blanked(messages[id]) else messages[id]
  }

  // ------------------------------------------------------------------------------------ runs

  /** What another part of the application may do to one existing row. */
  predicate RowElsewhere(before: Message, after: Message) {
    if before.heldFor.Some? then after == before
    else
      && after.heldFor.None?
      && after.sender == before.sender
      && after.kind == before.kind
      && (before.sender.None? && IsTombstone(before) ==> IsTombstone(after))
  }

  /**
   * Live members do as they please with their own messages, and reports and seats change freely
   * within the schema. A new member's uuid is fresh. No other statement writes a row without a sender.
   */
  ghost predicate Environment(s: Tables, s': Tables) {
    && s.users <= s'.users
    && (forall id | id in s.messages && s.messages[id].heldFor.Some? :: s.messages[id].heldFor.value !in s'.users)
    && (forall id | id in s.messages :: id in s'.messages && RowElsewhere(s.messages[id], s'.messages[id]))
    && (forall id | id in s'.messages && id !in s.messages ::
          && id != NIL_UUID
          && s'.messages[id].heldFor.None?
          && (s'.messages[id].sender.Some? ==> s'.messages[id].sender.value in s'.users)
          && (s'.messages[id].sender.None? ==> s'.messages[id].kind == SystemKind))
    && (forall r | r in s'.reports && s'.reports[r].reporter.Some? :: s'.reports[r].reporter.value in s'.users)
    && (forall p | p in s'.participants :: p.1 in s'.users)
    && OpenReportsUnique(s'.reports, true)
  }

  function AfterRelease(s: Tables, limit: nat, now: int): Tables {
    s.(messages := TombstoneRows(s.messages, Lowest(s.Releasable(), limit), now))
  }

  ghost predicate Next(s: Tables, s': Tables, step: Step) {
    match step
    case Erase(user, now) => s' == Erased(s, user, now)
    case Release(limit, now) => s' == AfterRelease(s, limit, now)
    case DeleteForEveryone(id, now) =>
      s' == if id in s.messages then s.(messages := s.messages[id := DeletedForEveryone(s.messages[id], now)]) else s
    case EvidenceSweep(ids, now) => s' == s.(messages := EvidenceSwept(s.messages, s.reports, ids, now))
    case Elsewhere => Environment(s, s')
  }

  ghost predicate IsRun(states: seq<Tables>, steps: seq<Step>) {
    && |states| == |steps| + 1
    && Consistent(states[0])
    && forall i | 0 <= i < |steps| :: Next(states[i], states[i + 1], steps[i])
  }

  lemma {:induction false} StepKeepsConsistent(s: Tables, s': Tables, step: Step)
    requires Consistent(s) && Next(s, s', step)
    ensures Consistent(s')
  {
    match step
    case Erase(user, now) => ErasureKeepsConsistent(s, user, now);
    case Release(limit, now) =>
      forall id | id in s'.messages ensures RowConsistent(s'.messages[id], s'.users) {
        TombstoneIsTombstone(s.messages[id], now);
      }
    case DeleteForEveryone(_, _) =>
    case EvidenceSweep(_, _) =>
    case Elsewhere =>
      forall id | id in s'.messages ensures RowConsistent(s'.messages[id], s'.users) {
        if id in s.messages {
          assert RowElsewhere(s.messages[id], s'.messages[id]);
        }
      }
  }

  /** Safety over every run: an anonymous row somebody wrote is held or carries no content. */
  lemma {:induction false} RunKeepsConsistent(states: seq<Tables>, steps: seq<Step>, i: nat)
    requires IsRun(states, steps) && i < |states|
    ensures Consistent(states[i])
  {
    if i == 0 {
    } else {
      RunKeepsConsistent(states, steps, i - 1);
      StepKeepsConsistent(states[i - 1], states[i], steps[i - 1]);
    }
  }

  predicate IsHeld(s: Tables, id: Uuid) { id in s.messages && s.messages[id].heldFor.Some? }

  /** An erased member's row that is a tombstone. */
  predicate IsBuried(s: Tables, id: Uuid) {
    id in s.messages && s.messages[id].sender.None? && IsTombstone(s.messages[id])
  }

  /** All of a row but its content and the two dates of its deletion. */
  predicate SameRecord(a: Message, b: Message) {
    && a.heldFor == b.heldFor && a.sender == b.sender && a.kind == b.kind && a.conversation == b.conversation
    && a.replyTo == b.replyTo && a.forwarded == b.forwarded
  }

  predicate SameContent(a: Message, b: Message) { a.body == b.body && a.attachment == b.attachment }

  predicate IsBlank(m: Message) { m.body == "" && m.attachment == None }

  /** The step is an evidence sweep whose guard the row meets. */
  predicate Blanks(s: Tables, step: Step, id: Uuid) {
    step.EvidenceSweep? && id in step.ids && id in s.messages && IsDue(s.messages[id], s.reports, id, step.now)
  }

  predicate Deletes(s: Tables, step: Step, id: Uuid) {
    step.DeleteForEveryone? && step.id == id && id in s.messages && s.messages[id].deletedAt.None?
  }

  /** What one step makes of a held row. */
  lemma {:induction false} HeldRowStep(s: Tables, s': Tables, step: Step, id: Uuid)
    requires Consistent(s) && Next(s, s', step) && IsHeld(s, id)
    ensures id in s'.messages
    ensures var before, after := s.messages[id], s'.messages[id];
            if step.Release? && id in Lowest(s.Releasable(), step.limit) then id in s.Releasable() && IsBuried(s', id)
            else if Blanks(s, step, id) then after == Blanked(before)
            else if Deletes(s, step, id) then after == DeletedForEveryone(before, step.now)
            else after == before
  {
    match step
    case Erase(user, now) =>
      if user in s.users {
        ErasedRow(s, user, now, id);
      }
    case Release(limit, now) =>
      LowestIsPage(s.Releasable(), limit);
      TombstoneIsTombstone(s.messages[id], now);
    case DeleteForEveryone(_, _) =>
    case EvidenceSweep(_, _) =>
    case Elsewhere => assert RowElsewhere(s.messages[id], s'.messages[id]);
  }

  lemma {:induction false} BuriedRowStep(s: Tables, s': Tables, step: Step, id: Uuid)
    requires Consistent(s) && Next(s, s', step) && IsBuried(s, id)
    ensures IsBuried(s', id)
  {
    match step
    case Erase(user, now) =>
      if user in s.users {
        ErasedRow(s, user, now, id);
      }
    case Release(limit, now) => TombstoneIsTombstone(s.messages[id], now);
    case DeleteForEveryone(_, _) =>
    case EvidenceSweep(_, _) =>
    case Elsewhere => assert RowElsewhere(s.messages[id], s'.messages[id]);
  }

  /**
   * Over any stretch of a run a held row is held, with all of its record, or some release found its group
   * untied and it is a tombstone ever since.
   */
  lemma {:induction false} HeldRowFate(states: seq<Tables>, steps: seq<Step>, i: nat, j: nat, id: Uuid)
    requires IsRun(states, steps) && i <= j < |states| && IsHeld(states[i], id)
    ensures id in states[j].messages
    ensures || SameRecord(states[j].messages[id], states[i].messages[id])
            || (&& IsBuried(states[j], id)
                && exists k | i <= k < j ::
                     && steps[k].Release? && id in states[k].Releasable()
                     && SameRecord(states[k].messages[id], states[i].messages[id]))
    decreases j
  {
    if i == j {
    } else {
      var last := j - 1;
      HeldRowFate(states, steps, i, last, id);
      RunKeepsConsistent(states, steps, last);
      assert Next(states[last], states[last + 1], steps[last]);
      if SameRecord(states[last].messages[id], states[i].messages[id]) {
        HeldRowStep(states[last], states[j], steps[last], id);
      } else {
        BuriedRowStep(states[last], states[j], steps[last], id);
      }
    }
  }

  /** A row still held was held all along. */
  lemma {:induction false} HeldSince(states: seq<Tables>, steps: seq<Step>, i: nat, k: nat, j: nat, id: Uuid)
    requires IsRun(states, steps) && i <= k <= j < |states| && IsHeld(states[i], id) && IsHeld(states[j], id)
    ensures IsHeld(states[k], id)
    decreases j - k
  {
    if k == j {
    } else {
      HeldSince(states, steps, i, k + 1, j, id);
      HeldRowFate(states, steps, i, k, id);
      RunKeepsConsistent(states, steps, k);
      assert Next(states[k], states[k + 1], steps[k]);
      if IsBuried(states[k], id) {
        BuriedRowStep(states[k], states[k + 1], steps[k], id);
      }
    }
  }

  ghost predicate Swept(states: seq<Tables>, steps: seq<Step>, i: nat, j: nat, id: Uuid)
    requires i <= j <= |steps| <= |states|
  {
    exists k | i <= k < j :: Blanks(states[k], steps[k], id)
  }

  /**
   * A row that stays held keeps its text and its attachment exactly when no evidence sweep met it deleted,
   * past its purge date and without a message report that names it, or there was nothing left to blank.
   */
  lemma {:induction false} HeldContentIsKeptIff(states: seq<Tables>, steps: seq<Step>, i: nat, j: nat, id: Uuid)
    requires IsRun(states, steps) && i <= j < |states| && IsHeld(states[i], id) && IsHeld(states[j], id)
    ensures SameContent(states[j].messages[id], states[i].messages[id])
       <==> IsBlank(states[i].messages[id]) || !Swept(states, steps, i, j, id)
    ensures Swept(states, steps, i, j, id) ==> IsBlank(states[j].messages[id])
    decreases j
  {
    if i == j {
    } else {
      var last := j - 1;
      HeldSince(states, steps, i, last, j, id);
      HeldContentIsKeptIff(states, steps, i, last, id);
      RunKeepsConsistent(states, steps, last);
      assert Next(states[last], states[last + 1], steps[last]);
      HeldRowStep(states[last], states[j], steps[last], id);
      SweptOneMore(states, steps, i, last, id);
    }
  }

  lemma {:induction false} SweptOneMore(states: seq<Tables>, steps: seq<Step>, i: nat, k: nat, id: Uuid)
    requires i <= k < |steps| <= |states|
    ensures Swept(states, steps, i, k + 1, id) <==> Swept(states, steps, i, k, id) || Blanks(states[k], steps[k], id)
  {
  }

  ghost predicate Rewritten(states: seq<Tables>, steps: seq<Step>, i: nat, j: nat, id: Uuid)
    requires i <= j <= |steps| <= |states|
  {
    exists k | i <= k < j :: Blanks(states[k], steps[k], id) || Deletes(states[k], steps[k], id)
  }

  /** Live, deleted with a purge date, or past it. A held row moves on and never back. */
  function Stage(m: Message): nat { if m.deletedAt.None? then 0 else if m.purgeAfter.Some? then 1 else 2 }

  /** A row that stays held is the same row, dates and all, exactly when neither writer reached it. */
  lemma {:induction false} HeldRowIsUntouchedIff(states: seq<Tables>, steps: seq<Step>, i: nat, j: nat, id: Uuid)
    requires IsRun(states, steps) && i <= j < |states| && IsHeld(states[i], id) && IsHeld(states[j], id)
    ensures states[j].messages[id] == states[i].messages[id] <==> !Rewritten(states, steps, i, j, id)
    ensures Rewritten(states, steps, i, j, id) ==> Stage(states[i].messages[id]) < Stage(states[j].messages[id])
    decreases j
  {
    if i == j {
    } else {
      var last := j - 1;
      HeldSince(states, steps, i, last, j, id);
      HeldRowIsUntouchedIff(states, steps, i, last, id);
      RunKeepsConsistent(states, steps, last);
      assert Next(states[last], states[last + 1], steps[last]);
      HeldRowStep(states[last], states[j], steps[last], id);
      RewrittenOneMore(states, steps, i, last, id);
      HeldRowMovesOn(states[last], steps[last], id, states[j].messages[id]);
    }
  }

  lemma {:induction false} HeldRowMovesOn(s: Tables, step: Step, id: Uuid, after: Message)
    requires IsHeld(s, id) && s.messages[id].kind != SystemKind
    requires after == if Blanks(s, step, id) then Blanked(s.messages[id])
             else if Deletes(s, step, id) then DeletedForEveryone(s.messages[id], step.now) else s.messages[id]
    ensures if Blanks(s, step, id) || Deletes(s, step, id) then Stage(s.messages[id]) < Stage(after)
            else after == s.messages[id]
  {
  }

  lemma {:induction false} RewrittenOneMore(states: seq<Tables>, steps: seq<Step>, i: nat, k: nat, id: Uuid)
    requires i <= k < |steps| <= |states|
    ensures Rewritten(states, steps, i, k + 1, id)
       <==> Rewritten(states, steps, i, k, id) || Blanks(states[k], steps[k], id) || Deletes(states[k], steps[k], id)
  {
  }

  ghost predicate TiedThroughout(states: seq<Tables>, i: nat, j: nat, former: Uuid, conversation: Uuid)
    requires i <= j <= |states|
  {
    forall k | i <= k < j ::
      GroupTied(states[k].messages, states[k].reports, states[k].participants, former, conversation)
  }

  /** While a report ties the group at every step, the row stays held with its record. */
  lemma {:induction false} TiedRowsStayHeld(states: seq<Tables>, steps: seq<Step>, i: nat, j: nat, id: Uuid)
    requires IsRun(states, steps) && i <= j < |states| && IsHeld(states[i], id)
    requires TiedThroughout(states, i, j, states[i].messages[id].heldFor.value, states[i].messages[id].conversation)
    ensures IsHeld(states[j], id) && SameRecord(states[j].messages[id], states[i].messages[id])
    ensures SameContent(states[j].messages[id], states[i].messages[id])
       <==> IsBlank(states[i].messages[id]) || !Swept(states, steps, i, j, id)
  {
    HeldRowFate(states, steps, i, j, id);
    HeldContentIsKeptIff(states, steps, i, j, id);
  }

  /** A row that a holding message report names throughout is kept whole but for a deletion's two dates. */
  lemma {:induction false} NamedRowsKeepTheirContent(states: seq<Tables>, steps: seq<Step>, i: nat, j: nat, id: Uuid)
    requires IsRun(states, steps) && i <= j < |states| && IsHeld(states[i], id)
    requires forall k | i <= k < j :: IsNamed(states[k].reports, id)
    ensures IsHeld(states[j], id) && SameRecord(states[j].messages[id], states[i].messages[id])
    ensures SameContent(states[j].messages[id], states[i].messages[id])
    decreases j
  {
    if i == j {
    } else {
      NamedRowsKeepTheirContent(states, steps, i, j - 1, id);
      RunKeepsConsistent(states, steps, j - 1);
      assert Next(states[j - 1], states[j - 1 + 1], steps[j - 1]);
      NamedRowIsTied(states[j - 1], id);
      HeldRowStep(states[j - 1], states[j], steps[j - 1], id);
    }
  }

  lemma {:induction false} NamedRowIsTied(s: Tables, id: Uuid)
    requires IsHeld(s, id) && IsNamed(s.reports, id)
    ensures id !in s.Releasable()
  {
    var m := s.messages[id];
    var r :| r in s.reports && s.reports[r].subjectType == MessageSubject && s.reports[r].subject == TextOf(id)
             && Holding(s.reports[r].status);
    assert HoldsGroup(s.reports[r], s.messages, s.participants, m.heldFor.value, m.conversation);
  }

  lemma {:induction false} ReportTiesAfterErasure(t: Tables, m: Message, report: Report)
    requires report == Report(MemberSubject, TextOf(1), Open, Some(2), "")
    requires m == Message(7, Some(1), UserKind, "x", Some(0), None, false, None, Some(2), None)
    requires t == Tables({1, 2}, map[5 := m], map[9 := report], {(7, 1), (7, 2)}, map[])
    ensures 7 in t.TiedAtErasure(1)
    ensures var after := Erased(t, 1, 1);
            after.reports == t.reports && GroupTied(after.messages, after.reports, after.participants, 1, 7)
  {
    var reports := t.ReportsAtErasure(1);
    assert reports == t.reports;
    assert TiesByMember(reports[9], t.participants, TextOf(1), 7);
    var after := Erased(t, 1, 1);
    assert (7, 2) in after.participants;
    assert HoldsGroup(after.reports[9], after.messages, after.participants, 1, 7);
  }

  lemma {:induction false} HeldAfterErasure(t: Tables, m: Message, report: Report)
    requires report == Report(MemberSubject, TextOf(1), Open, Some(2), "")
    requires m == Message(7, Some(1), UserKind, "x", Some(0), None, false, None, Some(2), None)
    requires t == Tables({1, 2}, map[5 := m], map[9 := report], {(7, 1), (7, 2)}, map[])
    ensures Consistent(t)
    ensures var after := Erased(t, 1, 1);
            5 in after.messages && after.messages[5] == m.(sender := None, heldFor := Some(1))
              && !IsNamed(after.reports, 5)
  {
    assert Consistent(t);
    ErasedRow(t, 1, 1, 5);
    ReportTiesAfterErasure(t, m, report);
  }

  /** The author deleted it before the erasure; the hourly sweep blanks it although its group is tied. */
  lemma {:induction false} TiedRowIsBlanked(t: Tables, m: Message, report: Report)
    requires report == Report(MemberSubject, TextOf(1), Open, Some(2), "")
    requires m == Message(7, Some(1), UserKind, "x", Some(0), None, false, None, Some(2), None)
    requires t == Tables({1, 2}, map[5 := m], map[9 := report], {(7, 1), (7, 2)}, map[])
    ensures var held := Erased(t, 1, 1);
            var blank := held.(messages := EvidenceSwept(held.messages, held.reports, {5}, 2));
            var states := [t, held, blank];
            && IsRun(states, [Erase(1, 1), EvidenceSweep({5}, 2)])
            && IsHeld(held, 5) && held.messages[5].body == "x"
            && TiedThroughout(states, 1, 2, 1, 7)
            && IsHeld(blank, 5) && blank.messages[5].body == ""
  {
    ReportTiesAfterErasure(t, m, report);
    HeldAfterErasure(t, m, report);
    var held := Erased(t, 1, 1);
    var blank := held.(messages := EvidenceSwept(held.messages, held.reports, {5}, 2));
    TwoStepRun(t, held, blank, Erase(1, 1), EvidenceSweep({5}, 2));
  }

  lemma {:induction false} TwoStepRun(a: Tables, b: Tables, c: Tables, first: Step, second: Step)
    requires Consistent(a) && Next(a, b, first) && Next(b, c, second)
    ensures IsRun([a, b, c], [first, second])
  {
  }
}
