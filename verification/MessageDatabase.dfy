/**
 * The erasure's message step (`settleErasedMemberMessages`) and the daily release sweep
 * (`releaseHeldMessages`), run against tables that each statement updates in place.
 */
module MessageDatabase {
  import opened Wrappers
  import opened OrderedIds
  import opened MessageTables

  /** What settling the member's messages must leave, written as one update of the whole table. */
  function Settled(messages: Messages, user: Uuid, tied: set<Uuid>, now: int): Messages {
    map id | id in messages ::
      var m := messages[id];
      if !WrittenBy(m, user) then m
      else if m.conversation in tied then m.(heldFor := Some(user))
      else if m.heldFor.None? then Tombstone(m, now)
      else m
  }

  function RekeyedFor(reports: Reports, user: Uuid, slug: Option<SubjectText>): Reports {
    if slug.Some? && slug.value != OtherText("") then Rekeyed(reports, user, slug.value) else reports
  }

  datatype Tables = Tables(
    users: set<Uuid>,
    messages: Messages,
    reports: Reports,
    participants: Participants,
    slugs: map<Uuid, Option<SubjectText>>
  ) {
    function SlugOf(user: Uuid): Option<SubjectText> {
      if user in slugs then slugs[user] else None
    }

    /** The reports as the tie query of this user's erasure reads them. */
    function ReportsAtErasure(user: Uuid): Reports {
      RekeyedFor(Severed(reports, user), user, SlugOf(user))
    }

    function TiedAtErasure(user: Uuid): (ids: set<Uuid>) {
      TiedConversations(messages, ReportsAtErasure(user), participants, user)
    }

    function Releasable(): set<Uuid> { UntiedHeld(messages, reports, participants) }
  }

  /** What erasing one member leaves in the five tables; nothing when the user row is already gone. */
  function Erased(t: Tables, user: Uuid, now: int): Tables {
    if user !in t.users then t
    else Tables(
      t.users - {user},
      Anonymised(Settled(t.messages, user, t.TiedAtErasure(user), now), user),
      t.ReportsAtErasure(user),
      WithoutSeats(t.participants, user),
      t.slugs - {user})
  }

  /** The table after a sweep that wrote row `id` in its batch number `writtenBy[id]`. */
  ghost function Released(messages: Messages, writtenBy: map<Uuid, nat>, statementTime: nat -> int): Messages {
    map id | id in messages ::
      if id in writtenBy then Tombstone(messages[id], statementTime(writtenBy[id])) else messages[id]
  }

  /** Tombstoning leaves a row in the result of the page query; only the cursor moves past it. */
  lemma {:induction false} TombstonedRowsStillMatch(messages: Messages, user: Uuid, ids: set<Uuid>, now: int)
    requires ids <= Unsettled(messages, user)
    ensures Unsettled(TombstoneRows(messages, ids, now), user) == Unsettled(messages, user)
  {
  }

  lemma {:induction false} SettledIsMarkThenTombstone(messages: Messages, user: Uuid, tied: set<Uuid>, now: int)
    ensures var marked := MarkedHeld(messages, user, tied);
            TombstoneRows(marked, Unsettled(marked, user), now) == Settled(messages, user, tied, now)
  {
  }

  /** One page extends the tombstoned prefix of the ids up to the page's highest id. */
  lemma {:induction false} PageExtendsPrefix(all: set<Uuid>, cursor: Uuid, limit: nat, page: set<Uuid>, highest: Uuid)
    requires limit >= 1
    requires page == Lowest(After(all, cursor), limit)
    requires page != {}
    requires highest in page && forall x | x in page :: x <= highest
    ensures cursor < highest
    ensures (all - After(all, cursor)) + page == all - After(all, highest)
    ensures (all - After(all, cursor)) !! page
    ensures |After(all, highest)| < |After(all, cursor)|
    ensures |page| < limit ==> After(all, highest) == {}
  {
    var past := After(all, cursor);
    LowestIsPage(past, limit);
    forall x | x in past
      ensures x in page <==> x <= highest
    {
      if x !in page { assert highest < x; }
    }
    assert After(all, highest) == past - page;
    assert highest in past && highest !in After(all, highest);
    assert After(all, highest) < past;
    StrictSubsetIsSmaller(After(all, highest), past);
  }

  lemma {:induction false} StrictSubsetIsSmaller(a: set<Uuid>, b: set<Uuid>)
    requires a < b
    ensures |a| < |b|
  {
    assert b == a + (b - a);
    assert b - a != {};
  }

  class Database {
    var messages: Messages
    var reports: Reports
    var participants: Participants
    /** `profiles.slug` by user; a user without a profile row is absent. */
    var slugs: map<Uuid, Option<SubjectText>>
    var users: set<Uuid>

    function View(): Tables
      reads this
    {
      Tables(users, messages, reports, participants, slugs)
    }

    method RekeySlugMemberReports(user: Uuid, slug: SubjectText)
      modifies this`reports
      ensures reports == Rekeyed(old(reports), user, slug)
    {
      reports := Rekeyed(reports, user, slug);
    }

    method MarkHeld(user: Uuid, tied: set<Uuid>)
      modifies this`messages
      ensures messages == MarkedHeld(old(messages), user, tied)
    {
      messages := MarkedHeld(messages, user, tied);
    }

    method TiedConversationIds(user: Uuid) returns (ids: set<Uuid>)
      ensures ids == TiedConversations(messages, reports, participants, user)
    {
      ids := TiedConversations(messages, reports, participants, user);
    }

    method HoldIn(user: Uuid, tied: set<Uuid>)
      modifies this`messages
      ensures messages == MarkedHeld(old(messages), user, tied)
    {
      if |tied| > 0 {
        MarkHeld(user, tied);
      } else {
        assert messages == MarkedHeld(messages, user, tied);
      }
    }

    /** One statement: tombstone a page and return its ids, in no defined order. */
    method TombstonePage(user: Uuid, cursor: Uuid, limit: nat, now: int) returns (rows: seq<Uuid>)
      modifies this`messages
      ensures var page := TombstonePageIds(old(messages), user, cursor, limit);
              && messages == TombstoneRows(old(messages), page, now)
              && |rows| == |page|
              && forall x :: x in rows <==> x in page
    {
      var page := TombstonePageIds(messages, user, cursor, limit);
      messages := TombstoneRows(messages, page, now);
      rows := InSomeOrder(page);
    }

    /** The `reduce` over the returned rows. */
    method HighestId(rows: seq<Uuid>, start: Uuid) returns (highest: Uuid)
      ensures highest == start || highest in rows
      ensures start <= highest && forall x | x in rows :: x <= highest
    {
      highest := start;
      for i := 0 to |rows|
        invariant highest == start || highest in rows
        invariant start <= highest && forall j | 0 <= j < i :: rows[j] <= highest
      {
        if rows[i] > highest { highest := rows[i]; }
      }
    }

    /**
     * The keyset loop. It ends although tombstoned rows keep matching the page query, and writes
     * each row once: the count it returns is the number of rows it had to write.
     */
    method TombstoneUnheld(user: Uuid, now: int, batchSize: nat) returns (tombstonedCount: nat)
      requires batchSize >= 1
      requires NIL_UUID !in messages
      modifies this`messages
      ensures messages == TombstoneRows(old(messages), Unsettled(old(messages), user), now)
      ensures tombstonedCount == |Unsettled(old(messages), user)|
    {
      var cursor := NIL_UUID;
      tombstonedCount := 0;
      ghost var marked := messages;
      StartOfTable(marked, user, now);
      while true
        invariant Progress(marked, messages, user, cursor, tombstonedCount, now)
        decreases |After(Unsettled(marked, user), cursor)|
      {
        ghost var before := messages;
        var rows := TombstonePage(user, cursor, batchSize, now);
        tombstonedCount := tombstonedCount + |rows|;
        if |rows| == 0 {
          EmptyPageIsEnd(marked, before, user, cursor, tombstonedCount, batchSize, now);
          break;
        }
        var highest := HighestId(rows, cursor);
        PageAdvances(marked, before, user, cursor, tombstonedCount - |rows|, batchSize, rows, highest, now);
        cursor := highest;
        if |rows| < batchSize {
          break;
        }
      }
    }

    /**
     * `settleErasedMemberMessages`, for every page size. Real message ids sort after the nil uuid.
     */
    method SettleErasedMemberMessages(user: Uuid, now: int, batchSize: nat) returns (tombstonedCount: nat)
      requires batchSize >= 1
      requires NIL_UUID !in messages
      modifies this`reports, this`messages
      ensures reports == RekeyedFor(old(reports), user, if user in slugs then slugs[user] else None)
      ensures var tied := TiedConversations(old(messages), reports, participants, user);
              && messages == Settled(old(messages), user, tied, now)
              && tombstonedCount == |Unsettled(MarkedHeld(old(messages), user, tied), user)|
    {
      var slug := if user in slugs then slugs[user] else None;
      if slug.Some? && slug.value != OtherText("") {
        RekeySlugMemberReports(user, slug.value);
      }
      var tied := TiedConversationIds(user);
      HoldIn(user, tied);
      tombstonedCount := TombstoneUnheld(user, now, batchSize);
      SettledIsMarkThenTombstone(old(messages), user, tied, now);
    }

    /** The message side of the erasure transaction: sever, settle, delete the user row. */
    method EraseMember(user: Uuid, now: int, batchSize: nat)
      requires batchSize >= 1
      requires NIL_UUID !in messages
      modifies this
      ensures View() == Erased(old(View()), user, now)
    {
      if user !in users {
        return;
      }
      reports := Severed(reports, user);
      var _ := SettleErasedMemberMessages(user, now, batchSize);
      users := users - {user};
      messages := Anonymised(messages, user);
      participants := WithoutSeats(participants, user);
      slugs := slugs - {user};
    }

    /** One batch of the release sweep: its own statement, with its own `now()`. */
    method ReleaseBatch(limit: nat, now: int) returns (affected: nat, ghost page: set<Uuid>)
      modifies this`messages
      ensures page == Lowest(UntiedHeld(old(messages), reports, participants), limit)
      ensures messages == TombstoneRows(old(messages), page, now) && affected == |page|
      ensures UntiedHeld(messages, reports, participants) == UntiedHeld(old(messages), reports, participants) - page
    {
      var ids := Lowest(UntiedHeld(messages, reports, participants), limit);
      ReleaseNeverChangesATie(messages, reports, participants, ids, now);
      messages := TombstoneRows(messages, ids, now);
      affected, page := |ids|, ids;
    }

    /**
     * `releaseHeldMessages`, for every batch size. The rows written are exactly those untied when
     * the sweep began, each by one batch; nothing else changes.
     */
    method ReleaseHeldMessages(
        batchSize: nat, statementTime: nat -> int) returns (releasedCount: nat, ghost writtenBy: map<Uuid, nat>)
      requires batchSize >= 1
      modifies this`messages
      ensures writtenBy.Keys == UntiedHeld(old(messages), reports, participants)
      ensures messages == Released(old(messages), writtenBy, statementTime)
      ensures releasedCount == |UntiedHeld(old(messages), reports, participants)|
      ensures UntiedHeld(messages, reports, participants) == {}
    {
      releasedCount := 0;
      writtenBy := map[];
      var batch := 0;
      ghost var all := UntiedHeld(messages, reports, participants);
      ghost var left := all;
      assert messages == Released(messages, map[], statementTime);
      while true
        invariant left == UntiedHeld(messages, reports, participants)
        invariant Sweeping(all, old(messages), messages, left, writtenBy, releasedCount, statementTime)
        decreases |left|
      {
        SweepAdvances(all, old(messages), messages, left, writtenBy, releasedCount, batchSize, batch, statementTime);
        var affected, page := ReleaseBatch(batchSize, statementTime(batch));
        writtenBy := Stamp(writtenBy, page, batch);
        left := left - page;
        releasedCount := releasedCount + affected;
        batch := batch + 1;
        if affected < batchSize {
          return;
        }
      }
    }
  }

  // ------------------------------------------------- the tombstone loop, one page at a time

  /** The rows up to the cursor are tombstoned and counted, the rest are as they were marked. */
  ghost predicate Progress(marked: Messages, messages: Messages, user: Uuid, cursor: Uuid, count: nat, now: int) {
    var written := Unsettled(marked, user) - After(Unsettled(marked, user), cursor);
    messages == TombstoneRows(marked, written, now) && count == |written|
  }

  lemma {:induction false} StartOfTable(marked: Messages, user: Uuid, now: int)
    requires NIL_UUID !in marked
    ensures Progress(marked, marked, user, NIL_UUID, 0, now)
  {
    var all := Unsettled(marked, user);
    assert all - After(all, NIL_UUID) == {};
    assert TombstoneRows(marked, {}, now) == marked;
  }

  lemma {:induction false} EmptyPageIsEnd(
      marked: Messages, before: Messages, user: Uuid, cursor: Uuid, count: nat, limit: nat, now: int)
    requires limit >= 1
    requires Progress(marked, before, user, cursor, count, now)
    requires TombstonePageIds(before, user, cursor, limit) == {}
    ensures TombstoneRows(before, {}, now) == before == TombstoneRows(marked, Unsettled(marked, user), now)
    ensures count == |Unsettled(marked, user)|
  {
    var all := Unsettled(marked, user);
    TombstonedRowsStillMatch(marked, user, all - After(all, cursor), now);
    LowestIsPage(After(all, cursor), limit);
    assert all - After(all, cursor) == all;
  }

  lemma {:induction false} PageAdvances(
      marked: Messages, before: Messages, user: Uuid, cursor: Uuid, count: nat, limit: nat, rows: seq<Uuid>,
      highest: Uuid, now: int)
    requires limit >= 1
    requires Progress(marked, before, user, cursor, count, now)
    requires var page := TombstonePageIds(before, user, cursor, limit);
             |rows| == |page| && |rows| > 0 && (forall x :: x in rows <==> x in page)
    requires highest == cursor || highest in rows
    requires forall x | x in rows :: x <= highest
    ensures var after := TombstoneRows(before, TombstonePageIds(before, user, cursor, limit), now);
            && Progress(marked, after, user, highest, count + |rows|, now)
            && (|rows| < limit ==>
                  && after == TombstoneRows(marked, Unsettled(marked, user), now)
                  && count + |rows| == |Unsettled(marked, user)|)
    ensures |After(Unsettled(marked, user), highest)| < |After(Unsettled(marked, user), cursor)|
  {
    var all := Unsettled(marked, user);
    var written := all - After(all, cursor);
    TombstonedRowsStillMatch(marked, user, written, now);
    var page := Lowest(After(all, cursor), limit);
    PageAbove(page, cursor, highest, rows);
    PageExtendsPrefix(all, cursor, limit, page, highest);
    TombstoneTwice(marked, written, page, now);
    DisjointSizes(written, page);
    if |rows| < limit {
      NothingAfter(all, highest);
    }
  }

  lemma {:induction false} DisjointSizes(a: set<Uuid>, b: set<Uuid>)
    requires a !! b
    ensures |a + b| == |a| + |b|
  {
  }

  lemma {:induction false} NothingAfter(all: set<Uuid>, highest: Uuid)
    requires After(all, highest) == {}
    ensures all - After(all, highest) == all
  {
  }

  // ------------------------------------------------------ the release sweep, one batch at a time

  ghost predicate Sweeping(
      all: set<Uuid>, start: Messages, messages: Messages, left: set<Uuid>, writtenBy: map<Uuid, nat>, count: nat,
      statementTime: nat -> int)
  {
    && writtenBy.Keys <= all
    && messages == Released(start, writtenBy, statementTime)
    && left == all - writtenBy.Keys
    && count == |writtenBy.Keys|
  }

  ghost function Stamp(writtenBy: map<Uuid, nat>, page: set<Uuid>, batch: nat): (r: map<Uuid, nat>)
    ensures r.Keys == writtenBy.Keys + page
  {
    writtenBy + map id | id in page :: batch
  }

  lemma {:induction false} SweepAdvances(
      all: set<Uuid>, start: Messages, before: Messages, left: set<Uuid>, writtenBy: map<Uuid, nat>, count: nat,
      limit: nat, batch: nat, statementTime: nat -> int)
    requires limit >= 1
    requires Sweeping(all, start, before, left, writtenBy, count, statementTime)
    ensures var page := Lowest(left, limit);
            var after := TombstoneRows(before, page, statementTime(batch));
            && Sweeping(all, start, after, left - page, Stamp(writtenBy, page, batch), count + |page|, statementTime)
            && (|page| < limit ==> Stamp(writtenBy, page, batch).Keys == all && left - page == {})
            && (|page| >= limit ==> |left - page| < |left|)
  {
    var page := Lowest(left, limit);
    LowestIsPage(left, limit);
    BatchMovesPage(all, writtenBy.Keys, left, page, limit);
    ReleaseOneMore(start, writtenBy, page, batch, statementTime);
  }

  lemma {:induction false} BatchMovesPage(
      all: set<Uuid>, written: set<Uuid>, left: set<Uuid>, page: set<Uuid>, limit: nat)
    requires limit >= 1
    requires written <= all && left == all - written
    requires IsPage(page, left, limit)
    ensures written + page <= all && written !! page
    ensures all - (written + page) == left - page
    ensures |written + page| == |written| + |page|
    ensures |page| < limit ==> written + page == all && left - page == {}
    ensures |page| >= limit ==> |left - page| < |left|
  {
    if |page| >= limit {
      var x :| x in page;
      assert x in left && x !in left - page;
      StrictSubsetIsSmaller(left - page, left);
    }
  }

  lemma {:induction false} ReleaseOneMore(
      start: Messages, writtenBy: map<Uuid, nat>, page: set<Uuid>, batch: nat, statementTime: nat -> int)
    requires writtenBy.Keys !! page
    ensures TombstoneRows(Released(start, writtenBy, statementTime), page, statementTime(batch))
         == Released(start, Stamp(writtenBy, page, batch), statementTime)
  {
  }

  lemma {:induction false} PageAbove(page: set<Uuid>, cursor: Uuid, highest: Uuid, rows: seq<Uuid>)
    requires page != {} && (forall x | x in page :: cursor < x)
    requires forall x :: x in rows <==> x in page
    requires highest == cursor || highest in rows
    requires forall x | x in rows :: x <= highest
    ensures highest in page && forall x | x in page :: x <= highest
  {
    var y :| y in page;
    assert y in rows;
  }

  lemma {:induction false} TombstoneTwice(messages: Messages, first: set<Uuid>, second: set<Uuid>, now: int)
    requires first !! second
    ensures TombstoneRows(TombstoneRows(messages, first, now), second, now)
        == TombstoneRows(messages, first + second, now)
  {
  }

  /** Releasing some untied rows neither ties nor unties any other held row. */
  lemma {:induction false} ReleaseNeverChangesATie(
      messages: Messages, reports: Reports, participants: Participants, part: set<Uuid>, now: int)
    requires part <= UntiedHeld(messages, reports, participants)
    ensures UntiedHeld(TombstoneRows(messages, part, now), reports, participants)
         == UntiedHeld(messages, reports, participants) - part
  {
    var after := TombstoneRows(messages, part, now);
    forall id | id in messages && id !in part && messages[id].heldFor.Some?
      ensures GroupTied(after, reports, participants, messages[id].heldFor.value, messages[id].conversation)
         <==> GroupTied(messages, reports, participants, messages[id].heldFor.value, messages[id].conversation)
    {
      var former, conversation := messages[id].heldFor.value, messages[id].conversation;
      forall r | r in reports
        ensures HoldsGroup(reports[r], after, participants, former, conversation)
           <==> HoldsGroup(reports[r], messages, participants, former, conversation)
      {
        if HoldsGroup(reports[r], messages, participants, former, conversation) {
          assert GroupTied(messages, reports, participants, former, conversation);
          if reports[r].subjectType == MessageSubject {
            var s :| s in messages && TextOf(s) == reports[r].subject && messages[s].heldFor == Some(former)
              && messages[s].conversation == conversation;
            assert s !in part;
            assert after[s] == messages[s];
          }
        }
      }
    }
  }

  /** The batched sweep and a single statement over every untied row differ at most in timestamps. */
  lemma {:induction false} ReleasedAtOneInstantIsOneShot(
      messages: Messages, reports: Reports, participants: Participants, writtenBy: map<Uuid, nat>,
      statementTime: nat -> int, now: int)
    requires writtenBy.Keys == UntiedHeld(messages, reports, participants)
    requires forall k: nat :: statementTime(k) == now
    ensures Released(messages, writtenBy, statementTime)
         == TombstoneRows(messages, UntiedHeld(messages, reports, participants), now)
  {
  }
}
