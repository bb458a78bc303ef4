/** What re-keying a member's slug reports onto their user id keeps, and that it loses no tie. */
module ReportRekey {
  import opened Wrappers
  import opened MessageTables

  /**
   * UQ_reports_open_reporter_subject: unique over the open rows, NULL reporters distinct. The index
   * was first built on (reporter, type, subject) and later rebuilt with the reason code in the key.
   */
  ghost predicate OpenReportsUnique(reports: Reports, keyedByReason: bool) {
    forall a, b | a in reports && b in reports && SameIndexKey(reports[a], reports[b], keyedByReason) :: a == b
  }

  predicate SameIndexKey(a: Report, b: Report, keyedByReason: bool) {
    && a.status == Open && b.status == Open
    && a.reporter.Some? && a.reporter == b.reporter
    && a.subjectType == b.subjectType
    && a.subject == b.subject
    && (keyedByReason ==> a.reasonCode == b.reasonCode)
  }

  /** The statement can never raise a unique violation, under either shape of the index. */
  lemma {:induction false} RekeyKeepsOpenReportsUnique(
      reports: Reports, user: Uuid, slug: SubjectText, keyedByReason: bool)
    requires OpenReportsUnique(reports, keyedByReason)
    ensures OpenReportsUnique(Rekeyed(reports, user, slug), keyedByReason)
  {
    var after := Rekeyed(reports, user, slug);
    forall a, b | a in after && b in after && SameIndexKey(after[a], after[b], keyedByReason)
      ensures a == b
    {
      var movedA := RekeyMatches(reports, reports[a], user, slug);
      var movedB := RekeyMatches(reports, reports[b], user, slug);
      // A row that moved has no open twin, and a row it would meet at the new key is such a twin.
      assert movedA && reports[a].status == Open ==> !IsTwin(reports[b], reports[a], user);
      assert movedB && reports[b].status == Open ==> !IsTwin(reports[a], reports[b], user);
      assert movedA == movedB ==> SameIndexKey(reports[a], reports[b], keyedByReason);
    }
  }

  lemma {:induction false} RekeyIsIdempotent(reports: Reports, user: Uuid, slug: SubjectText)
    ensures Rekeyed(Rekeyed(reports, user, slug), user, slug) == Rekeyed(reports, user, slug)
  {
    var once := Rekeyed(reports, user, slug);
    forall id | id in reports
      ensures Rekeyed(once, user, slug)[id] == once[id]
    {
      var report := reports[id];
      if report.status == Open && report.subjectType == MemberSubject && HasOpenTwin(reports, report, user) {
        var t :| t in reports && IsTwin(reports[t], report, user);
        assert once[t] == reports[t];
        assert once[id] == report;
        assert IsTwin(once[t], once[id], user);
        assert HasOpenTwin(once, once[id], user);
      }
    }
    assert Rekeyed(once, user, slug).Keys == once.Keys;
  }

  // ---------------------------------------------------------------- what the re-key is for

  /** What moderation reads as naming the member: their uuid in any casing, or their slug. */
  predicate Names(subject: SubjectText, user: Uuid, slug: SubjectText) {
    (subject.UuidText? && subject.uuid == user) || subject == slug
  }

  /** A holding report about the member, filed by a participant of the conversation. */
  predicate TiesByName(report: Report, participants: Participants, user: Uuid, slug: SubjectText, conversation: Uuid) {
    && Names(report.subject, user, slug)
    && TiesByMember(report, participants, report.subject, conversation)
  }

  /** The tie a reader of the rule expects. */
  predicate TiedByIdOrSlug(
      messages: Messages, reports: Reports, participants: Participants, user: Uuid, slug: SubjectText,
        conversation: Uuid) {
    exists r | r in reports ::
      || TiesByMessage(reports[r], messages, user, conversation)
      || TiesByName(reports[r], participants, user, slug, conversation)
  }

  /** A subject the statements compare equal to what they look for. */
  predicate IsRead(subject: SubjectText, user: Uuid, slug: SubjectText) { subject == TextOf(user) || subject == slug }

  /** The conversation is tied, but only by reports that spell the member's uuid with upper-case digits. */
  predicate TiedInUpperCaseOnly(
      messages: Messages, reports: Reports, participants: Participants, user: Uuid, slug: SubjectText,
        conversation: Uuid) {
    && TiedByIdOrSlug(messages, reports, participants, user, slug, conversation)
    && forall r | r in reports ::
         && !TiesByMessage(reports[r], messages, user, conversation)
         && (TiesByName(reports[r], participants, user, slug, conversation) ==> !IsRead(reports[r].subject, user, slug))
  }

  /** The tie after the re-key never invents one, and an expected one is missed exactly in that case. */
  lemma {:induction false} RekeyedTieIsTieByIdOrSlug(
      messages: Messages, reports: Reports, participants: Participants, user: Uuid, slug: SubjectText,
        conversation: Uuid)
    ensures var tied := Tied(messages, Rekeyed(reports, user, slug), participants, user, conversation);
            var expected := TiedByIdOrSlug(messages, reports, participants, user, slug, conversation);
            && (tied ==> expected)
            && ((tied <==> expected) <==>
                 !TiedInUpperCaseOnly(messages, reports, participants, user, slug, conversation))
  {
    if Tied(messages, Rekeyed(reports, user, slug), participants, user, conversation) {
      TieWasRead(messages, reports, participants, user, slug, conversation);
    }
    forall r | r in reports && TiesByMessage(reports[r], messages, user, conversation)
      ensures Tied(messages, Rekeyed(reports, user, slug), participants, user, conversation)
    {
      assert Rekeyed(reports, user, slug)[r] == reports[r];
    }
    forall r | r in reports && TiesByName(reports[r], participants, user, slug, conversation)
               && IsRead(reports[r].subject, user, slug)
      ensures Tied(messages, Rekeyed(reports, user, slug), participants, user, conversation)
    {
      ReadReportTies(messages, reports, participants, user, slug, conversation, r);
    }
  }

  lemma {:induction false} TieWasRead(
      messages: Messages, reports: Reports, participants: Participants, user: Uuid, slug: SubjectText,
        conversation: Uuid)
    requires Tied(messages, Rekeyed(reports, user, slug), participants, user, conversation)
    ensures exists r | r in reports ::
              || TiesByMessage(reports[r], messages, user, conversation)
              || (TiesByName(reports[r], participants, user, slug, conversation)
                  && IsRead(reports[r].subject, user, slug))
  {
    var after := Rekeyed(reports, user, slug);
    var r :| r in after && (TiesByMessage(after[r], messages, user, conversation)
                            || TiesByMember(after[r], participants, TextOf(user), conversation));
    assert r in reports;
    if TiesByMessage(after[r], messages, user, conversation) {
      assert TiesByMessage(reports[r], messages, user, conversation);
    } else {
      assert TiesByName(reports[r], participants, user, slug, conversation) && IsRead(reports[r].subject, user, slug);
    }
  }

  /** The colliding slug rows the statement skips lose nothing: their twin carries the same tie. */
  lemma {:induction false} ReadReportTies(
      messages: Messages, reports: Reports, participants: Participants, user: Uuid, slug: SubjectText,
        conversation: Uuid, r: Uuid)
    requires r in reports && TiesByName(reports[r], participants, user, slug, conversation)
    requires IsRead(reports[r].subject, user, slug)
    ensures Tied(messages, Rekeyed(reports, user, slug), participants, user, conversation)
  {
    var after := Rekeyed(reports, user, slug);
    if reports[r].subject == TextOf(user) || RekeyMatches(reports, reports[r], user, slug) {
      assert TiesByMember(after[r], participants, TextOf(user), conversation);
    } else {
      var t :| t in reports && IsTwin(reports[t], reports[r], user);
      assert TiesByMember(after[t], participants, TextOf(user), conversation);
    }
  }

  /** So reports that name the member by slug or in lower case lose nothing at all. */
  lemma {:induction false} LowerCaseNamesLoseNothing(
      messages: Messages, reports: Reports, participants: Participants, user: Uuid, slug: SubjectText,
        conversation: Uuid)
    requires forall r | r in reports && reports[r].subjectType == MemberSubject
        && Names(reports[r].subject, user, slug) ::
               IsRead(reports[r].subject, user, slug)
    ensures Tied(messages, Rekeyed(reports, user, slug), participants, user, conversation)
       <==> TiedByIdOrSlug(messages, reports, participants, user, slug, conversation)
  {
    RekeyedTieIsTieByIdOrSlug(messages, reports, participants, user, slug, conversation);
  }

  /** Written out: if no two open reports by one reporter are about one subject, none are after the re-key. */
  lemma {:induction false} RekeyRaisesNoViolation(
      reports: Reports, user: Uuid, slug: SubjectText, reporter: Uuid, a: Uuid, b: Uuid)
    requires forall p, q | p in reports && q in reports && p != q ::
        !(&& reports[p].status == Open && reports[q].status == Open
          && reports[p].reporter.Some? && reports[p].reporter == reports[q].reporter
          && reports[p].subjectType == reports[q].subjectType && reports[p].subject == reports[q].subject)
    requires a in reports && b in reports && a != b
    ensures var after := Rekeyed(reports, user, slug);
            !(&& after[a].status == Open && after[b].status == Open
              && after[a].reporter == Some(reporter) == after[b].reporter
              && after[a].subjectType == after[b].subjectType && after[a].subject == after[b].subject)
  {
    forall p, q | p in reports && q in reports && SameIndexKey(reports[p], reports[q], false) ensures p == q {
    }
    RekeyKeepsOpenReportsUnique(reports, user, slug, false);
    assert !SameIndexKey(Rekeyed(reports, user, slug)[a], Rekeyed(reports, user, slug)[b], false);
  }

  /** Which rows move: member reports by slug, but an open one only if its reporter has no open report by id. */
  lemma {:induction false} RekeyMovesIff(reports: Reports, user: Uuid, slug: SubjectText, id: Uuid)
    requires id in reports
    ensures var before, after := reports[id], Rekeyed(reports, user, slug);
            var hasTwin := exists t | t in reports ::
              && reports[t].subjectType == MemberSubject && reports[t].subject == UuidText(user, 0)
              && reports[t].status == Open && reports[t].reporter.Some? && reports[t].reporter == before.reporter;
            && after.Keys == reports.Keys
            && after[id] == if before.subjectType == MemberSubject && before.subject == slug
                               && !(before.status == Open && hasTwin)
                            then before.(subject := UuidText(user, 0)) else before
  {
    if HasOpenTwin(reports, reports[id], user) {
      var t :| t in reports && IsTwin(reports[t], reports[id], user);
      assert reports[t].subject == UuidText(user, 0);
    }
    forall t | t in reports
      && reports[t].subjectType == MemberSubject && reports[t].subject == UuidText(user, 0)
      && reports[t].status == Open && reports[t].reporter.Some? && reports[t].reporter == reports[id].reporter
      ensures HasOpenTwin(reports, reports[id], user)
    {
      assert IsTwin(reports[t], reports[id], user);
    }
  }

  /** The index, on the rows: open reports by one reporter differ in type or subject, or in reason if that counts. */
  lemma {:induction false} IndexIs(reports: Reports, keyedByReason: bool)
    ensures OpenReportsUnique(reports, keyedByReason)
       <==> forall a, b | a in reports && b in reports && a != b
              && reports[a].status == Open && reports[b].status == Open
              && reports[a].reporter.Some? && reports[b].reporter == reports[a].reporter
              && reports[a].subjectType == reports[b].subjectType && reports[a].subject == reports[b].subject ::
                keyedByReason && reports[a].reasonCode != reports[b].reasonCode
  {
    forall a, b | a in reports && b in reports
      ensures SameIndexKey(reports[a], reports[b], keyedByReason)
         <==> && reports[a].status == Open && reports[b].status == Open
              && reports[a].reporter.Some? && reports[b].reporter == reports[a].reporter
              && reports[a].subjectType == reports[b].subjectType && reports[a].subject == reports[b].subject
              && (keyedByReason ==> reports[a].reasonCode == reports[b].reasonCode)
    {
    }
  }
}
