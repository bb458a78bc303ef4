/**
 * Which messages survive their author's erasure, read off the rows alone. A report is evidence while it is open
 * or escalated, and it ties the conversations it is about and nothing else.
 */
module HeldEvidence {
  import opened Wrappers
  import opened OrderedIds
  import opened MessageTables
  import opened ReportRekey
  import opened MessageDatabase
  import opened MemberErasure
  import opened ErasureRuns
  import opened ReleaseSweeps

  // ---------------------------------------------------------------------------- one report

  predicate Undecided(report: Report) { report.status == Open || report.status == Escalated }

  /** About a message the member wrote in the conversation, however its uuid is spelled. */
  predicate IsAboutMessage(report: Report, messages: Messages, user: Uuid, conversation: Uuid) {
    && report.subjectType == MessageSubject
    && exists id | id in messages ::
         && report.subject.UuidText? && report.subject.uuid == id
         && messages[id].sender == Some(user) && messages[id].kind != SystemKind
         && messages[id].conversation == conversation
  }

  /** About `subject` as a member, by somebody who sits in the conversation. */
  predicate IsAboutMember(report: Report, participants: Participants, subject: SubjectText, conversation: Uuid) {
    && report.subjectType == MemberSubject && report.subject == subject
    && exists p | p in participants :: p.0 == conversation && report.reporter == Some(p.1)
  }

  /** About a row held for the former member in the conversation, its uuid in lower case. */
  predicate IsAboutHeld(report: Report, messages: Messages, former: Uuid, conversation: Uuid) {
    && report.subjectType == MessageSubject
    && exists id | id in messages ::
         && report.subject == UuidText(id, 0)
         && messages[id].heldFor == Some(former) && messages[id].conversation == conversation
  }

  predicate Ties(
      report: Report, messages: Messages, participants: Participants, user: Uuid, conversation: Uuid)
  {
    && Undecided(report)
    && (|| IsAboutMessage(report, messages, user, conversation)
        || IsAboutMember(report, participants, UuidText(user, 0), conversation))
  }

  predicate TiesHeld(
      report: Report, messages: Messages, participants: Participants, former: Uuid, conversation: Uuid)
  {
    && Undecided(report)
    && (|| IsAboutHeld(report, messages, former, conversation)
        || IsAboutMember(report, participants, UuidText(former, 0), conversation))
  }

  // -------------------------------------------------------------------------------- the ties

  lemma {:induction false} TiesByMemberIff(
      report: Report, participants: Participants, subject: SubjectText, conversation: Uuid)
    ensures TiesByMember(report, participants, subject, conversation)
       <==> Undecided(report) && IsAboutMember(report, participants, subject, conversation)
  {
    if TiesByMember(report, participants, subject, conversation) {
      var p := (conversation, report.reporter.value);
      assert p in participants && p.0 == conversation && report.reporter == Some(p.1);
    }
    if IsAboutMember(report, participants, subject, conversation) {
      var p :| p in participants && p.0 == conversation && report.reporter == Some(p.1);
      assert p == (conversation, report.reporter.value);
    }
  }

  lemma {:induction false} TiesByMessageIff(report: Report, messages: Messages, user: Uuid, conversation: Uuid)
    ensures TiesByMessage(report, messages, user, conversation)
       <==> Undecided(report) && IsAboutMessage(report, messages, user, conversation)
  {
  }

  /** What the erasure reads as tied. */
  lemma {:induction false} TiedIff(
      messages: Messages, reports: Reports, participants: Participants, user: Uuid, conversation: Uuid)
    ensures conversation in TiedConversations(messages, reports, participants, user)
       <==> exists r | r in reports :: Ties(reports[r], messages, participants, user, conversation)
  {
    forall r | r in reports
      ensures Ties(reports[r], messages, participants, user, conversation)
         <==> TiesByMessage(reports[r], messages, user, conversation)
              || TiesByMember(reports[r], participants, TextOf(user), conversation)
    {
      TiesByMessageIff(reports[r], messages, user, conversation);
      TiesByMemberIff(reports[r], participants, TextOf(user), conversation);
    }
  }

  lemma {:induction false} HoldsGroupIff(
      report: Report, messages: Messages, participants: Participants, former: Uuid, conversation: Uuid)
    ensures HoldsGroup(report, messages, participants, former, conversation)
       <==> TiesHeld(report, messages, participants, former, conversation)
  {
    TiesByMemberIff(report, participants, TextOf(former), conversation);
    if s :| s in messages && TextOf(s) == report.subject && messages[s].heldFor == Some(former)
            && messages[s].conversation == conversation {
      assert report.subject == UuidText(s, 0);
    }
    if s :| s in messages && report.subject == UuidText(s, 0) && messages[s].heldFor == Some(former)
            && messages[s].conversation == conversation {
      assert TextOf(s) == report.subject;
    }
  }

  /** What the release reads as tied. */
  lemma {:induction false} GroupTiedIff(
      messages: Messages, reports: Reports, participants: Participants, former: Uuid, conversation: Uuid)
    ensures GroupTied(messages, reports, participants, former, conversation)
       <==> exists r | r in reports :: TiesHeld(reports[r], messages, participants, former, conversation)
  {
    forall r | r in reports
      ensures HoldsGroup(reports[r], messages, participants, former, conversation)
         <==> TiesHeld(reports[r], messages, participants, former, conversation)
    {
      HoldsGroupIff(reports[r], messages, participants, former, conversation);
    }
  }

  // ------------------------------------------------------------------- deciding a report

  /** Escalating an open report changes no tie. */
  lemma {:induction false} EscalatingKeepsTies(
      messages: Messages, reports: Reports, participants: Participants, r: Uuid, user: Uuid, conversation: Uuid)
    requires r in reports && reports[r].status == Open
    ensures var escalated := reports[r := reports[r].(status := Escalated)];
            && (conversation in TiedConversations(messages, escalated, participants, user)
                <==> conversation in TiedConversations(messages, reports, participants, user))
            && (GroupTied(messages, escalated, participants, user, conversation)
                <==> GroupTied(messages, reports, participants, user, conversation))
  {
    var escalated := reports[r := reports[r].(status := Escalated)];
    forall q | q in reports
      ensures Ties(escalated[q], messages, participants, user, conversation)
         <==> Ties(reports[q], messages, participants, user, conversation)
      ensures TiesHeld(escalated[q], messages, participants, user, conversation)
         <==> TiesHeld(reports[q], messages, participants, user, conversation)
    {
    }
    BothTiesIff(messages, reports, participants, user, conversation);
    BothTiesIff(messages, escalated, participants, user, conversation);
  }

  /** Resolving one ties as much as deleting it. */
  lemma {:induction false} ResolvingIsRemoving(
      messages: Messages, reports: Reports, participants: Participants, r: Uuid, user: Uuid, conversation: Uuid)
    requires r in reports
    ensures var resolved, removed := reports[r := reports[r].(status := Resolved)], reports - {r};
            && (conversation in TiedConversations(messages, resolved, participants, user)
                <==> conversation in TiedConversations(messages, removed, participants, user))
            && (GroupTied(messages, resolved, participants, user, conversation)
                <==> GroupTied(messages, removed, participants, user, conversation))
  {
    var resolved, removed := reports[r := reports[r].(status := Resolved)], reports - {r};
    assert forall q | q in removed :: q in resolved && resolved[q] == removed[q];
    assert forall q | q in resolved && q !in removed :: q == r;
    BothTiesIff(messages, resolved, participants, user, conversation);
    BothTiesIff(messages, removed, participants, user, conversation);
  }

  lemma {:induction false} BothTiesIff(
      messages: Messages, reports: Reports, participants: Participants, user: Uuid, conversation: Uuid)
    ensures conversation in TiedConversations(messages, reports, participants, user)
       <==> exists r | r in reports :: Ties(reports[r], messages, participants, user, conversation)
    ensures GroupTied(messages, reports, participants, user, conversation)
       <==> exists r | r in reports :: TiesHeld(reports[r], messages, participants, user, conversation)
  {
    TiedIff(messages, reports, participants, user, conversation);
    GroupTiedIff(messages, reports, participants, user, conversation);
  }

  // ------------------------------------------------------------------- the erasure, row by row

  /** The two names of a member the erasure looks for: the uuid in lower case, and a slug that is not empty. */
  predicate IsNameOf(t: Tables, user: Uuid, subject: SubjectText) {
    || subject == UuidText(user, 0)
    || (user in t.slugs && t.slugs[user] == Some(subject) && subject != OtherText(""))
  }

  /** A report of the tables as they stand keeps what the member wrote in the conversation. */
  predicate Keeps(t: Tables, report: Report, user: Uuid, conversation: Uuid) {
    && Undecided(report)
    && (|| IsAboutMessage(report, t.messages, user, conversation)
        || (&& IsNameOf(t, user, report.subject) && report.reporter != Some(user)
            && IsAboutMember(report, t.participants, report.subject, conversation)))
  }

  ghost predicate IsKept(t: Tables, user: Uuid, conversation: Uuid) {
    exists r | r in t.reports :: Keeps(t, t.reports[r], user, conversation)
  }

  lemma {:induction false} KeptIsTied(t: Tables, user: Uuid, conversation: Uuid)
    requires IsKept(t, user, conversation)
    ensures conversation in t.TiedAtErasure(user)
  {
    var r :| r in t.reports && Keeps(t, t.reports[r], user, conversation);
    var severed, report := Severed(t.reports, user), t.reports[r];
    if IsAboutMessage(report, t.messages, user, conversation) {
      TiesByMessageIff(t.ReportsAtErasure(user)[r], t.messages, user, conversation);
      assert TiesByMessage(t.ReportsAtErasure(user)[r], t.messages, user, conversation);
    } else {
      TiesByMemberIff(report, t.participants, report.subject, conversation);
      assert severed[r] == report;
      if t.SlugOf(user).Some? && t.SlugOf(user).value != OtherText("") {
        ReadReportTies(t.messages, severed, t.participants, user, t.SlugOf(user).value, conversation, r);
      } else {
        assert TiesByMember(t.ReportsAtErasure(user)[r], t.participants, TextOf(user), conversation);
      }
    }
  }

  lemma {:induction false} SeveredIsKept(t: Tables, user: Uuid, conversation: Uuid, r: Uuid)
    requires r in t.reports
    requires var report := Severed(t.reports, user)[r];
             || TiesByMessage(report, t.messages, user, conversation)
             || (IsNameOf(t, user, report.subject)
                 && TiesByMember(report, t.participants, report.subject, conversation))
    ensures IsKept(t, user, conversation)
  {
    var report := Severed(t.reports, user)[r];
    TiesByMessageIff(report, t.messages, user, conversation);
    TiesByMemberIff(report, t.participants, report.subject, conversation);
    assert Keeps(t, t.reports[r], user, conversation);
  }

  lemma {:induction false} TiedIsKept(t: Tables, user: Uuid, conversation: Uuid)
    requires conversation in t.TiedAtErasure(user)
    ensures IsKept(t, user, conversation)
  {
    var severed := Severed(t.reports, user);
    if t.SlugOf(user).Some? && t.SlugOf(user).value != OtherText("") {
      var slug := t.SlugOf(user).value;
      TieWasRead(t.messages, severed, t.participants, user, slug, conversation);
      var r :| r in severed
        && (|| TiesByMessage(severed[r], t.messages, user, conversation)
            || (TiesByName(severed[r], t.participants, user, slug, conversation)
                && IsRead(severed[r].subject, user, slug)));
      SeveredIsKept(t, user, conversation, r);
    } else {
      var r :| r in severed
        && (|| TiesByMessage(severed[r], t.messages, user, conversation)
            || TiesByMember(severed[r], t.participants, TextOf(user), conversation));
      SeveredIsKept(t, user, conversation, r);
    }
  }

  /**
   * What a member wrote keeps everything but its author exactly when an undecided report is about one of their
   * messages in the conversation, or about them by another of its participants. Otherwise the text is gone.
   */
  lemma {:induction false} ErasureKeepsIff(t: Tables, user: Uuid, now: int, id: Uuid)
    requires Consistent(t) && user in t.users && id in t.messages
    requires t.messages[id].sender == Some(user) && t.messages[id].kind != SystemKind
    ensures id in Erased(t, user, now).messages
    ensures var before, after := t.messages[id], Erased(t, user, now).messages[id];
            if IsKept(t, user, before.conversation) then after == before.(sender := None, heldFor := Some(user))
            else after == Tombstone(before, now).(sender := None) && after.body == "" && after.heldFor.None?
  {
    TombstoneLeaves(t.messages[id], now);
    ErasedRow(t, user, now, id);
    if IsKept(t, user, t.messages[id].conversation) {
      KeptIsTied(t, user, t.messages[id].conversation);
    } else if t.messages[id].conversation in t.TiedAtErasure(user) {
      TiedIsKept(t, user, t.messages[id].conversation);
    }
  }

  /** One undecided report on a member's message keeps it through the erasure and, in lower case, ties it after. */
  lemma {:induction false} ReportedMessageIsKept(t: Tables, user: Uuid, now: int, id: Uuid, r: Uuid)
    requires Consistent(t) && user in t.users && id in t.messages && r in t.reports
    requires t.messages[id].sender == Some(user) && t.messages[id].kind != SystemKind
    requires t.reports[r].status in {Open, Escalated} && t.reports[r].subjectType == MessageSubject
    requires t.reports[r].subject.UuidText? && t.reports[r].subject.uuid == id
    ensures t.messages[id].conversation in t.TiedAtErasure(user)
    ensures var before, after := t.messages[id], Erased(t, user, now);
            && id in after.messages && after.messages[id] == before.(sender := None, heldFor := Some(user))
            && (t.reports[r].subject.casing == 0 ==>
                  GroupTied(after.messages, after.reports, after.participants, user, before.conversation))
  {
    var conversation, after := t.messages[id].conversation, Erased(t, user, now);
    assert IsAboutMessage(t.reports[r], t.messages, user, conversation);
    assert Keeps(t, t.reports[r], user, conversation);
    KeptIsTied(t, user, conversation);
    ErasureKeepsIff(t, user, now, id);
    if t.reports[r].subject.casing == 0 {
      assert after.reports[r].subject == UuidText(id, 0);
      assert IsAboutHeld(after.reports[r], after.messages, user, conversation);
      GroupTiedIff(after.messages, after.reports, after.participants, user, conversation);
    }
  }

  // ---------------------------------------------------------------------- release and sweep

  /** A release may write a row exactly when it is held and no undecided report is about its group. */
  lemma {:induction false} ReleasableIff(t: Tables, id: Uuid)
    ensures id in t.Releasable()
       <==> && id in t.messages && t.messages[id].heldFor.Some?
            && var m := t.messages[id];
               forall r | r in t.reports ::
                 !TiesHeld(t.reports[r], t.messages, t.participants, m.heldFor.value, m.conversation)
  {
    if id in t.messages && t.messages[id].heldFor.Some? {
      var m := t.messages[id];
      GroupTiedIff(t.messages, t.reports, t.participants, m.heldFor.value, m.conversation);
    }
  }

  /** The hourly sweep blanks a row exactly when it is deleted, past its date, and no undecided report names it. */
  lemma {:induction false} SweepBlanksIff(t: Tables, ids: set<Uuid>, now: int, id: Uuid)
    requires id in t.messages
    ensures var before, after := t.messages[id], EvidenceSwept(t.messages, t.reports, ids, now);
            && id in after
            && if && id in ids && before.deletedAt.Some? && before.purgeAfter.Some? && before.purgeAfter.value <= now
                  && forall r | r in t.reports ::
                       Undecided(t.reports[r]) ==>
                         t.reports[r].subjectType != MessageSubject || t.reports[r].subject != UuidText(id, 0)
               then after[id] == before.(body := "", attachment := None, purgeAfter := None)
               else after[id] == before
  {
    if IsNamed(t.reports, id) {
      var r :| r in t.reports && t.reports[r].subjectType == MessageSubject && t.reports[r].subject == TextOf(id)
               && Holding(t.reports[r].status);
      assert Undecided(t.reports[r]);
    }
    if r :| r in t.reports && Undecided(t.reports[r]) && t.reports[r].subjectType == MessageSubject
            && t.reports[r].subject == UuidText(id, 0) {
      assert Holding(t.reports[r].status);
    }
  }

  /** Deleted for everyone, a live message keeps its content for thirty days and loses it at the end of them. */
  lemma {:induction false} DeletionHoldsThirtyDays(t: Tables, id: Uuid, at: int, now: int)
    requires id in t.messages && t.messages[id].deletedAt.None? && t.messages[id].kind != SystemKind
    requires forall r | r in t.reports ::
        t.reports[r].subjectType != MessageSubject || t.reports[r].subject != UuidText(id, 0)
    ensures var before, deleted := t.messages[id], DeletedForEveryone(t.messages[id], at);
            var swept := EvidenceSwept(t.messages[id := deleted], t.reports, {id}, now);
            && SameContent(deleted, before) && deleted.deletedAt == Some(at)
            && swept[id] == if now < at + 30 * 24 * 60 * 60 * 1000 then deleted
                            else before.(body := "", attachment := None, deletedAt := Some(at), purgeAfter := None)
  {
    var deleted := DeletedForEveryone(t.messages[id], at);
    SweepBlanksIff(t.(messages := t.messages[id := deleted]), {id}, now, id);
  }

  /** What a live member does with their own message, and any change of the reports, may happen between two steps. */
  lemma {:induction false} LivesGoOn(t: Tables, id: Uuid, m: Message, reports: Reports)
    requires Consistent(t) && id in t.messages && t.messages[id].sender.Some?
    requires m.sender == t.messages[id].sender && m.kind == t.messages[id].kind && m.heldFor.None?
    requires forall r | r in reports && reports[r].reporter.Some? :: reports[r].reporter.value in t.users
    requires OpenReportsUnique(reports, true)
    ensures Next(t, t.(messages := t.messages[id := m], reports := reports), Elsewhere)
  {
    assert RowConsistent(t.messages[id], t.users);
    forall k | k in t.messages && t.messages[k].heldFor.Some? ensures t.messages[k].heldFor.value !in t.users {
      assert RowConsistent(t.messages[k], t.users);
    }
  }

  // ---------------------------------------------------------------------------- over a run

  /** While some undecided report is about its group a held row keeps all but its content and deletion dates. */
  lemma {:induction false} UndecidedReportsKeepTheRecord(
      states: seq<Tables>, steps: seq<Step>, i: nat, j: nat, id: Uuid, former: Uuid)
    requires IsRun(states, steps) && i <= j < |states|
    requires id in states[i].messages && states[i].messages[id].heldFor == Some(former)
    requires forall k | i <= k < j :: exists r | r in states[k].reports ::
        TiesHeld(states[k].reports[r], states[k].messages, states[k].participants, former,
          states[i].messages[id].conversation)
    ensures id in states[j].messages
    ensures var before, after := states[i].messages[id], states[j].messages[id];
            && after.heldFor == Some(former) && after.sender == before.sender && after.kind == before.kind
            && after.conversation == before.conversation && after.replyTo == before.replyTo
            && after.forwarded == before.forwarded
            && (|| (after.body == before.body && after.attachment == before.attachment)
                || (after.body == "" && after.attachment.None?))
  {
    var conversation := states[i].messages[id].conversation;
    forall k | i <= k < j
      ensures GroupTied(states[k].messages, states[k].reports, states[k].participants, former, conversation)
    {
      GroupTiedIff(states[k].messages, states[k].reports, states[k].participants, former, conversation);
    }
    TiedRowsStayHeld(states, steps, i, j, id);
    HeldContentIsKeptIff(states, steps, i, j, id);
  }

  /** What a release wrote shows nothing of its author for the rest of the run. */
  lemma {:induction false} ReleasedRowsShowNothing(states: seq<Tables>, steps: seq<Step>, k: nat, j: nat, id: Uuid)
    requires IsRun(states, steps) && k < j < |states|
    requires steps[k].Release? && steps[k].limit >= 1 && id in Lowest(states[k].Releasable(), steps[k].limit)
    ensures id in states[j].messages
    ensures var m := states[j].messages[id];
            && m.body == "" && m.deletedAt.Some? && m.sender.None? && m.heldFor.None? && m.replyTo.None? && !m.forwarded
            && (m.attachment.Some? ==>
                  && m.kind in {ImageKind, DocumentKind} && m.purgeAfter.Some?
                  && m.attachment.value.caption.None? && m.attachment.value.fileName in {None, Some("")})
  {
    RunKeepsConsistent(states, steps, k);
    assert Next(states[k], states[k + 1], steps[k]);
    BatchBuries(states[k], steps[k].limit, steps[k].now);
    BuriedForGood(states, steps, k + 1, j, id);
  }

  /** After an erasure no sender, reporter, seat or slug names the member. */
  lemma {:induction false} ErasureRemovesTheMember(t: Tables, user: Uuid, now: int)
    requires Consistent(t) && user in t.users
    ensures var after := Erased(t, user, now);
            && after.users == t.users - {user}
            && (forall id | id in after.messages :: after.messages[id].sender != Some(user))
            && (forall r | r in after.reports :: after.reports[r].reporter != Some(user))
            && (forall c :: (c, user) !in after.participants)
            && user !in after.slugs
  {
  }

  /** And nobody else's rows change. */
  lemma {:induction false} ErasureTouchesNobodyElse(t: Tables, user: Uuid, now: int)
    ensures var after := Erased(t, user, now);
            && after.messages.Keys == t.messages.Keys && after.reports.Keys == t.reports.Keys
            && (forall id | id in t.messages && t.messages[id].sender != Some(user) ::
                  after.messages[id] == t.messages[id])
            && (forall r | r in t.reports && t.reports[r].subjectType != MemberSubject ::
                  after.reports[r].(reporter := None) == t.reports[r].(reporter := None))
            && (forall c, u | u != user :: (c, u) in after.participants <==> (c, u) in t.participants)
            && (forall u | u in t.slugs && u != user :: u in after.slugs && after.slugs[u] == t.slugs[u])
  {
  }

  /** The tie a reader of the rule expects, in any casing of the uuid or by slug. */
  lemma {:induction false} ExpectedTieIs(
      messages: Messages, reports: Reports, participants: Participants, user: Uuid, slug: SubjectText,
      conversation: Uuid)
    ensures TiedByIdOrSlug(messages, reports, participants, user, slug, conversation)
       <==> exists r | r in reports ::
              && Undecided(reports[r])
              && (|| IsAboutMessage(reports[r], messages, user, conversation)
                  || (&& IsAboutMember(reports[r], participants, reports[r].subject, conversation)
                      && (|| (reports[r].subject.UuidText? && reports[r].subject.uuid == user)
                          || reports[r].subject == slug)))
  {
    forall r | r in reports
      ensures TiesByMessage(reports[r], messages, user, conversation)
         <==> Undecided(reports[r]) && IsAboutMessage(reports[r], messages, user, conversation)
      ensures TiesByMember(reports[r], participants, reports[r].subject, conversation)
         <==> Undecided(reports[r]) && IsAboutMember(reports[r], participants, reports[r].subject, conversation)
    {
      TiesByMessageIff(reports[r], messages, user, conversation);
      TiesByMemberIff(reports[r], participants, reports[r].subject, conversation);
    }
  }

  /** Along every run: what an erased member wrote is held for them, or shows nothing of it. */
  lemma {:induction false} AnonymousRowsAreHeldOrBlank(states: seq<Tables>, steps: seq<Step>, i: nat, id: Uuid)
    requires IsRun(states, steps) && i < |states| && id in states[i].messages
    requires states[i].messages[id].sender.None? && states[i].messages[id].kind != SystemKind
    ensures var m := states[i].messages[id];
            || (m.heldFor.Some? && m.heldFor.value !in states[i].users)
            || (m.heldFor.None? && m.deletedAt.Some? && m.body == "" && m.replyTo.None? && !m.forwarded)
  {
    RunKeepsConsistent(states, steps, i);
    assert RowConsistent(states[i].messages[id], states[i].users);
  }
}
