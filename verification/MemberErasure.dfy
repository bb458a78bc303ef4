/**
 * Properties that span the erasure transaction, the release sweep and every run of both:
 * the two definitions of a tied conversation, and what becomes of an erased member's messages.
 */
module MemberErasure {
  import opened Wrappers
  import opened MessageTables
  import opened ReportRekey
  import opened MessageDatabase

  /**
   * What holds of the tables between transactions. The nil uuid is no message id, a row names only
   * live users, a held row is anonymous and no system pill, and an anonymous row somebody wrote is
   * held or a tombstone.
   */
  ghost predicate Consistent(t: Tables) {
    && NIL_UUID !in t.messages
    && (forall id | id in t.messages :: RowConsistent(t.messages[id], t.users))
    && (forall r | r in t.reports && t.reports[r].reporter.Some? :: t.reports[r].reporter.value in t.users)
    && (forall p | p in t.participants :: p.1 in t.users)
    && OpenReportsUnique(t.reports, true)
  }

  predicate RowConsistent(m: Message, users: set<Uuid>) {
    && (m.sender.Some? ==> m.sender.value in users && m.heldFor.None?)
    && (m.heldFor.Some? ==> m.heldFor.value !in users && m.kind != SystemKind)
    && (m.sender.None? && m.kind != SystemKind ==> m.heldFor.Some? || IsTombstone(m))
  }

  lemma {:induction false} SeveredKeepsOpenReportsUnique(reports: Reports, user: Uuid, keyedByReason: bool)
    requires OpenReportsUnique(reports, keyedByReason)
    ensures OpenReportsUnique(Severed(reports, user), keyedByReason)
  {
    var after := Severed(reports, user);
    forall a, b | a in after && b in after && SameIndexKey(after[a], after[b], keyedByReason)
      ensures a == b
    {
      assert SameIndexKey(reports[a], reports[b], keyedByReason);
    }
  }

  lemma {:induction false} ReportsAtErasureUnique(t: Tables, user: Uuid, keyedByReason: bool)
    requires OpenReportsUnique(t.reports, keyedByReason)
    ensures OpenReportsUnique(t.ReportsAtErasure(user), keyedByReason)
  {
    SeveredKeepsOpenReportsUnique(t.reports, user, keyedByReason);
    if t.SlugOf(user).Some? {
      RekeyKeepsOpenReportsUnique(Severed(t.reports, user), user, t.SlugOf(user).value, keyedByReason);
    }
  }

  /** Every message the member wrote ends held with its content, or a full tombstone; no other row changes. */
  lemma {:induction false} ErasedRow(t: Tables, user: Uuid, now: int, id: Uuid)
    requires Consistent(t) && user in t.users && id in t.messages
    ensures id in Erased(t, user, now).messages
    ensures var before := t.messages[id];
            var after := Erased(t, user, now).messages[id];
            && (before.sender != Some(user) ==> after == before)
            && (before.sender == Some(user) && before.kind == SystemKind ==> after == before.(sender := None))
            && (WrittenBy(before, user) && before.conversation in t.TiedAtErasure(user) ==>
                  after == before.(sender := None, heldFor := Some(user)))
            && (WrittenBy(before, user) && before.conversation !in t.TiedAtErasure(user) ==>
                  IsTombstone(after) && after == Tombstone(before, now).(sender := None))
  {
    TombstoneIsTombstone(t.messages[id], now);
  }

  lemma {:induction false} ErasureKeepsConsistent(t: Tables, user: Uuid, now: int)
    requires Consistent(t)
    ensures Consistent(Erased(t, user, now))
  {
    if user in t.users {
      var after := Erased(t, user, now);
      forall id | id in after.messages ensures RowConsistent(after.messages[id], after.users) {
        ErasedRow(t, user, now, id);
      }
      ReportsAtErasureUnique(t, user, true);
    }
  }

  // ---------------------------------------------------------- the two definitions of "tied"

  /** The erasure-time tie, without the message reports whose subject id is not spelled in lower case. */
  ghost predicate TiedInLowerCase(t: Tables, user: Uuid, conversation: Uuid) {
    exists r | r in t.ReportsAtErasure(user) ::
      var report := t.ReportsAtErasure(user)[r];
      || (TiesByMessage(report, t.messages, user, conversation) && report.subject.casing == 0)
      || TiesByMember(report, t.participants, TextOf(user), conversation)
  }

  /** Holding rows in a conversation, the sweep sees the tie of the erasure, minus its upper-case half. */
  lemma {:induction false} ReleaseTieIsLowerCaseErasureTie(t: Tables, user: Uuid, now: int, conversation: Uuid)
    requires Consistent(t) && user in t.users
    requires conversation in t.TiedAtErasure(user)
    ensures var after := Erased(t, user, now);
            GroupTied(after.messages, after.reports, after.participants, user, conversation)
            <==> TiedInLowerCase(t, user, conversation)
  {
    var after := Erased(t, user, now);
    assert after.reports == t.ReportsAtErasure(user);
    forall r | r in after.reports
      ensures HoldsGroup(after.reports[r], after.messages, after.participants, user, conversation)
         <==> || (TiesByMessage(after.reports[r], t.messages, user, conversation)
                  && after.reports[r].subject.casing == 0)
              || TiesByMember(after.reports[r], t.participants, TextOf(user), conversation)
    {
      SiblingsAreTheMembersOwn(t, user, now, conversation, after.reports[r]);
      assert after.reports[r].reporter != Some(user);
    }
  }

  lemma {:induction false} SiblingsAreTheMembersOwn(t: Tables, user: Uuid, now: int, conversation: Uuid, report: Report)
    requires Consistent(t) && user in t.users
    requires conversation in t.TiedAtErasure(user)
    ensures var after := Erased(t, user, now).messages;
            (exists s | s in after ::
             TextOf(s) == report.subject && after[s].heldFor == Some(user) && after[s].conversation == conversation)
            <==> (&& report.subject.UuidText? && report.subject.casing == 0 && report.subject.uuid in t.messages
                  && WrittenBy(t.messages[report.subject.uuid], user)
                  && t.messages[report.subject.uuid].conversation == conversation)
  {
    var after := Erased(t, user, now).messages;
    forall s | s in after
      ensures (after[s].heldFor == Some(user) && after[s].conversation == conversation)
         <==> (WrittenBy(t.messages[s], user) && t.messages[s].conversation == conversation)
    {
      ErasedRow(t, user, now, s);
    }
    if report.subject.UuidText? && report.subject.casing == 0 && report.subject.uuid in t.messages {
      assert TextOf(report.subject.uuid) == report.subject;
    }
  }

  /** The rows of this member that a sweep right after the erasure would free. */
  ghost function FreedAtOnce(t: Tables, user: Uuid, now: int): set<Uuid> {
    var after := Erased(t, user, now);
    set id | id in after.Releasable() && after.messages[id].heldFor == Some(user)
  }

  lemma {:induction false} FreedAtOnceExactly(t: Tables, user: Uuid, now: int, id: Uuid)
    requires Consistent(t) && user in t.users
    ensures id in FreedAtOnce(t, user, now)
       <==> && id in t.messages && WrittenBy(t.messages[id], user)
            && t.messages[id].conversation in t.TiedAtErasure(user)
            && !TiedInLowerCase(t, user, t.messages[id].conversation)
  {
    if id in t.messages {
      ErasedRow(t, user, now, id);
      if WrittenBy(t.messages[id], user) && t.messages[id].conversation in t.TiedAtErasure(user) {
        ReleaseTieIsLowerCaseErasureTie(t, user, now, t.messages[id].conversation);
      }
    }
  }

  /**
   * The two definitions of a tie agree for a member exactly when every conversation where the erasure
   * holds rows has a holding report by member, or on a message named in lower case.
   */
  lemma {:induction false} SweepFreesNoneIffTiesAreLowerCase(t: Tables, user: Uuid, now: int)
    requires Consistent(t) && user in t.users
    ensures FreedAtOnce(t, user, now) == {}
       <==> forall id | id in t.messages && WrittenBy(t.messages[id], user)
            && t.messages[id].conversation in t.TiedAtErasure(user) ::
              TiedInLowerCase(t, user, t.messages[id].conversation)
  {
    forall id | id in t.messages && WrittenBy(t.messages[id], user)
      && t.messages[id].conversation in t.TiedAtErasure(user)
      ensures id in FreedAtOnce(t, user, now) <==> !TiedInLowerCase(t, user, t.messages[id].conversation)
    {
      FreedAtOnceExactly(t, user, now, id);
    }
    forall id | id in FreedAtOnce(t, user, now)
      ensures id in t.messages && WrittenBy(t.messages[id], user)
          && t.messages[id].conversation in t.TiedAtErasure(user)
    {
      FreedAtOnceExactly(t, user, now, id);
    }
  }

  /** When report subjects are stored in lower case, nothing the erasure held is freed at once. */
  lemma {:induction false} LowerCaseSubjectsKeepEverythingHeld(t: Tables, user: Uuid, now: int)
    requires Consistent(t) && user in t.users
    requires forall r | r in t.reports && t.reports[r].subjectType == MessageSubject
        && t.reports[r].subject.UuidText? :: t.reports[r].subject.casing == 0
    ensures FreedAtOnce(t, user, now) == {}
  {
    forall id | id in t.messages && WrittenBy(t.messages[id], user)
      && t.messages[id].conversation in t.TiedAtErasure(user)
      ensures TiedInLowerCase(t, user, t.messages[id].conversation)
    {
      TieIsLowerCase(t, user, t.messages[id].conversation);
    }
    SweepFreesNoneIffTiesAreLowerCase(t, user, now);
  }

  lemma {:induction false} TieIsLowerCase(t: Tables, user: Uuid, conversation: Uuid)
    requires conversation in t.TiedAtErasure(user)
    requires forall r | r in t.reports && t.reports[r].subjectType == MessageSubject
        && t.reports[r].subject.UuidText? :: t.reports[r].subject.casing == 0
    ensures TiedInLowerCase(t, user, conversation)
  {
    var reports := t.ReportsAtErasure(user);
    var r :| r in reports
      && (TiesByMessage(reports[r], t.messages, user, conversation)
          || TiesByMember(reports[r], t.participants, TextOf(user), conversation));
    assert reports[r].subjectType == MessageSubject ==> reports[r].subject == t.reports[r].subject;
  }

  lemma {:induction false} UpperCaseReportTies(t: Tables, m: Message, report: Report)
    requires report == Report(MessageSubject, UuidText(5, 1), Open, Some(2), "")
    requires m == Message(7, Some(1), UserKind, "x", None, None, false, None, None, None)
    requires t == Tables({1, 2}, map[5 := m], map[9 := report], {(7, 1), (7, 2)}, map[])
    ensures Consistent(t) && 7 in t.TiedAtErasure(1) && !TiedInLowerCase(t, 1, 7)
  {
    var reports := t.ReportsAtErasure(1);
    assert reports == t.reports;
    assert TiesByMessage(reports[9], t.messages, 1, 7);
  }

  /** An input on which they do not agree: one open report spells the message's id in upper case. */
  lemma {:induction false} UpperCaseReportIsHeldThenFreed(t: Tables, m: Message, report: Report)
    requires report == Report(MessageSubject, UuidText(5, 1), Open, Some(2), "")
    requires m == Message(7, Some(1), UserKind, "x", None, None, false, None, None, None)
    requires t == Tables({1, 2}, map[5 := m], map[9 := report], {(7, 1), (7, 2)}, map[])
    ensures Consistent(t) && t.messages[5].body != "" && 5 in FreedAtOnce(t, 1, 0)
  {
    UpperCaseReportTies(t, m, report);
    FreedAtOnceExactly(t, 1, 0, 5);
  }

  /** An open report by a participant that spells the member's id in upper case holds nothing. */
  lemma {:induction false} UpperCaseMemberReportHoldsNothing(t: Tables, m: Message, report: Report, slug: SubjectText)
    requires report == Report(MemberSubject, UuidText(1, 1), Open, Some(2), "") && slug != report.subject
    requires m == Message(7, Some(1), UserKind, "x", None, None, false, None, None, None)
    requires t == Tables({1, 2}, map[5 := m], map[9 := report], {(7, 1), (7, 2)}, map[1 := Some(slug)])
    ensures Consistent(t)
    ensures TiedByIdOrSlug(t.messages, t.reports, t.participants, 1, slug, 7) && 7 !in t.TiedAtErasure(1)
    ensures 5 in Erased(t, 1, 0).messages && Erased(t, 1, 0).messages[5].body == ""
  {
    assert t.reports[9] == report && t.messages[5] == m;
    assert TiesByName(report, t.participants, 1, slug, 7);
    assert t.ReportsAtErasure(1)[9] == report;
    assert 7 !in t.TiedAtErasure(1);
    ErasedRow(t, 1, 0, 5);
  }
}
