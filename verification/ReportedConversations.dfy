/** `buildReportedConversationsExport`: three ceilings on one read (src/account/message-export.ts). */
module ReportedConversations {
  import opened Arithmetic
  import opened Wrappers
  import opened MessageReads

  const REPORTED_CONVERSATION_MESSAGES_EXPORT_CAP: nat := 5000
  const REPORTED_CONVERSATIONS_EXPORT_CAP: nat := 200
  const REPORTED_CONVERSATION_TOTAL_MESSAGES_EXPORT_CAP: nat := 20000
  const MESSAGE_EXPORT_PAGE_SIZE: nat := 2000

  /** The member's own participant row. */
  datatype Seat = Seat(clearedAt: Option<int>, leftAt: Option<int>)

  /** Live, not taken down, not hidden by the member, after their last clear, not after they left. */
  function Visible(table: set<Row>, user: nat, conversation: nat, seat: Seat): set<Row> {
    set r | r in table && r.conversation == conversation && !r.isDeleted && !r.isModerated && user !in r.hiddenFor
         && (seat.clearedAt.Some? ==> r.createdAt > seat.clearedAt.value)
         && (seat.leftAt.Some? ==> r.createdAt <= seat.leftAt.value)
  }

  datatype Entry = Entry(conversation: nat, rows: seq<Row>, isTruncated: bool)

  /** What one conversation takes when the total allows. */
  function Share(table: set<Row>, user: nat, seats: map<nat, Seat>, conversation: nat): nat {
    if conversation in seats
      then Min(REPORTED_CONVERSATION_MESSAGES_EXPORT_CAP, |Visible(table, user, conversation, seats[conversation])|)
        else 0
  }

  /** What the first `n` conversations would take together with no total ceiling. */
  function Demand(table: set<Row>, user: nat, seats: map<nat, Seat>, ids: seq<nat>, n: nat): nat
    requires n <= |ids|
  {
    if n == 0 then 0 else Demand(table, user, seats, ids, n - 1) + Share(table, user, seats, ids[n - 1])
  }

  /** The total ceiling, minus what came before. */
  function Left(demand: nat): nat {
    if demand < REPORTED_CONVERSATION_TOTAL_MESSAGES_EXPORT_CAP
      then REPORTED_CONVERSATION_TOTAL_MESSAGES_EXPORT_CAP - demand else 0
  }

  /** The entry conversation `i` must have: the newest rows its own cap and the total still allow. */
  function EntryFor(table: set<Row>, user: nat, seat: Seat, conversation: nat, left: nat): Entry
    requires KeyedById(table)
  {
    var visible := Visible(table, user, conversation, seat);
    var cap := Min(REPORTED_CONVERSATION_MESSAGES_EXPORT_CAP, left);
    Entry(conversation, NewestSuffix(visible, cap), |visible| > cap)
  }

  /** The list, by a closed form of the budget: each conversation is judged by the demand before it. */
  function Entries(table: set<Row>, user: nat, seats: map<nat, Seat>, ids: seq<nat>, n: nat): seq<Entry>
    requires KeyedById(table) && n <= |ids|
  {
    if n == 0 then []
    else
      var left := Left(Demand(table, user, seats, ids, n - 1));
      Entries(table, user, seats, ids, n - 1)
      + if ids[n - 1] in seats && left > 0 then [EntryFor(table, user, seats[ids[n - 1]], ids[n - 1], left)] else []
  }

  /** Conversation `i` was reached by the loop with nothing left to spend. */
  ghost predicate OutOfBudget(table: set<Row>, user: nat, seats: map<nat, Seat>, ids: seq<nat>, i: nat)
    requires i < |ids|
  {
    ids[i] in seats && Left(Demand(table, user, seats, ids, i)) == 0
  }

  function TotalRows(entries: seq<Entry>): nat {
    if entries == [] then 0 else TotalRows(entries[..|entries| - 1]) + |entries[|entries| - 1].rows|
  }

  lemma {:induction false} EntryRows(table: set<Row>, user: nat, seat: Seat, conversation: nat, left: nat)
    requires KeyedById(table)
    ensures var e := EntryFor(table, user, seat, conversation, left);
            && |e.rows| == Min(Min(REPORTED_CONVERSATION_MESSAGES_EXPORT_CAP, left),
               |Visible(table, user, conversation, seat)|)
            && (e.isTruncated <==> |Visible(table, user, conversation, seat)| > |e.rows|)
  {
    NewestSuffixIs(Visible(table, user, conversation, seat), Min(REPORTED_CONVERSATION_MESSAGES_EXPORT_CAP, left));
  }

  lemma {:induction false} TotalOneMore(entries: seq<Entry>, e: Entry)
    ensures TotalRows(entries + [e]) == TotalRows(entries) + |e.rows|
  {
    assert (entries + [e])[..|entries|] == entries;
  }

  /** Rows read and budget left always add up to the total ceiling. */
  lemma {:induction false} SpentPlusLeftIsConstant(
      table: set<Row>, user: nat, seats: map<nat, Seat>, ids: seq<nat>, n: nat)
    requires KeyedById(table) && n <= |ids|
    ensures TotalRows(Entries(table, user, seats, ids, n)) + Left(Demand(table, user, seats, ids, n))
        == REPORTED_CONVERSATION_TOTAL_MESSAGES_EXPORT_CAP
  {
    if n == 0 {
    } else {
      SpentPlusLeftIsConstant(table, user, seats, ids, n - 1);
      var before, left := Entries(table, user, seats, ids, n - 1), Left(Demand(table, user, seats, ids, n - 1));
      assert Demand(table, user, seats, ids, n)
          == Demand(table, user, seats, ids, n - 1) + Share(table, user, seats, ids[n - 1]);
      if ids[n - 1] in seats && left > 0 {
        EntryRows(table, user, seats[ids[n - 1]], ids[n - 1], left);
        TotalOneMore(before, EntryFor(table, user, seats[ids[n - 1]], ids[n - 1], left));
      } else {
        assert before + [] == before;
      }
    }
  }

  lemma {:induction false} DemandGrows(table: set<Row>, user: nat, seats: map<nat, Seat>, ids: seq<nat>, i: nat, j: nat)
    requires i <= j <= |ids|
    ensures Demand(table, user, seats, ids, i) <= Demand(table, user, seats, ids, j)
    decreases j
  {
    if i == j {
    } else {
      DemandGrows(table, user, seats, ids, i, j - 1);
    }
  }

  /** Past the point where the budget ran out the list gets no longer. */
  lemma {:induction false} NothingPastTheBudget(
      table: set<Row>, user: nat, seats: map<nat, Seat>, ids: seq<nat>, i: nat, n: nat)
    requires KeyedById(table) && i <= n <= |ids|
    requires Left(Demand(table, user, seats, ids, i)) == 0
    ensures Entries(table, user, seats, ids, n) == Entries(table, user, seats, ids, i)
    decreases n
  {
    if i == n {
    } else {
      NothingPastTheBudget(table, user, seats, ids, i, n - 1);
      DemandGrows(table, user, seats, ids, i, n - 1);
      assert Left(Demand(table, user, seats, ids, n - 1)) == 0;
    }
  }

  ghost predicate KeepsCeilings(table: set<Row>, user: nat, seats: map<nat, Seat>, e: Entry)
    requires KeyedById(table)
  {
    && e.conversation in seats
    && |e.rows| <= REPORTED_CONVERSATION_MESSAGES_EXPORT_CAP
    && var visible := Visible(table, user, e.conversation, seats[e.conversation]);
    && e.rows == NewestSuffix(visible, |e.rows|)
    && (e.isTruncated <==> |visible| > |e.rows|)
  }

  lemma {:induction false} EntryKeepsCeilings(
      table: set<Row>, user: nat, seats: map<nat, Seat>, conversation: nat, left: nat)
    requires KeyedById(table) && conversation in seats
    ensures KeepsCeilings(table, user, seats, EntryFor(table, user, seats[conversation], conversation, left))
  {
    EntryRows(table, user, seats[conversation], conversation, left);
    var visible, cap := Visible(table, user, conversation, seats[conversation]),
      Min(REPORTED_CONVERSATION_MESSAGES_EXPORT_CAP, left);
    SuffixOfItsLength(visible, cap);
  }

  lemma {:induction false} SuffixOfItsLength(rows: set<Row>, cap: nat)
    requires KeyedById(rows)
    ensures NewestSuffix(rows, cap) == NewestSuffix(rows, |NewestSuffix(rows, cap)|)
  {
    NewestSuffixIs(rows, cap);
  }

  /** Each entry is a newest suffix of what the member may see there, within every ceiling. */
  lemma {:induction false} EntriesKeepEveryCeiling(
      table: set<Row>, user: nat, seats: map<nat, Seat>, ids: seq<nat>, n: nat)
    requires KeyedById(table) && n <= |ids|
    ensures |Entries(table, user, seats, ids, n)| <= n
    ensures forall k | 0 <= k < |Entries(table, user, seats, ids, n)| ::
        KeepsCeilings(table, user, seats, Entries(table, user, seats, ids, n)[k])
  {
    if n == 0 {
    } else {
      EntriesKeepEveryCeiling(table, user, seats, ids, n - 1);
      var before, left := Entries(table, user, seats, ids, n - 1), Left(Demand(table, user, seats, ids, n - 1));
      if ids[n - 1] in seats && left > 0 {
        EntryKeepsCeilings(table, user, seats, ids[n - 1], left);
        OneMoreKeeps(table, user, seats, before, EntryFor(table, user, seats[ids[n - 1]], ids[n - 1], left));
      } else {
        assert before + [] == before;
      }
    }
  }

  lemma {:induction false} OneMoreKeeps(table: set<Row>, user: nat, seats: map<nat, Seat>, before: seq<Entry>, e: Entry)
    requires KeyedById(table) && KeepsCeilings(table, user, seats, e)
    requires forall k | 0 <= k < |before| :: KeepsCeilings(table, user, seats, before[k])
    ensures forall k | 0 <= k < |before + [e]| :: KeepsCeilings(table, user, seats, (before + [e])[k])
  {
    forall k | 0 <= k < |before + [e]| ensures KeepsCeilings(table, user, seats, (before + [e])[k]) {
      assert (before + [e])[k] == if k < |before| then before[k] else e;
    }
  }

  method ReadConversation(
      table: set<Row>, user: nat, seat: Seat, conversation: nat, remaining: nat) returns (entry: Entry)
    requires KeyedById(table)
    ensures entry == EntryFor(table, user, seat, conversation, remaining)
    ensures |entry.rows|
        == Min(Min(REPORTED_CONVERSATION_MESSAGES_EXPORT_CAP, remaining), |Visible(table, user, conversation, seat)|)
  {
    var perConversationCap := Min(REPORTED_CONVERSATION_MESSAGES_EXPORT_CAP, remaining);
    var rows, isTruncated := ReadNewestMessages(Visible(table, user, conversation, seat), perConversationCap,
      MESSAGE_EXPORT_PAGE_SIZE);
    EntryRows(table, user, seat, conversation, remaining);
    entry := Entry(conversation, rows, isTruncated);
  }

  /** The loop that spends the total budget; `ranOut` when it stopped at a conversation it could not pay for. */
  method SpendBudget(
      table: set<Row>, user: nat, seats: map<nat, Seat>, ids: seq<nat>) returns (entries: seq<Entry>, ranOut: bool)
    requires KeyedById(table)
    ensures entries == Entries(table, user, seats, ids, |ids|)
    ensures ranOut <==> exists i | 0 <= i < |ids| :: OutOfBudget(table, user, seats, ids, i)
  {
    entries, ranOut := [], false;
    var remainingMessageBudget: nat := REPORTED_CONVERSATION_TOTAL_MESSAGES_EXPORT_CAP;
    for i := 0 to |ids|
      invariant entries == Entries(table, user, seats, ids, i)
      invariant remainingMessageBudget == Left(Demand(table, user, seats, ids, i))
      invariant !ranOut && forall k | 0 <= k < i :: !OutOfBudget(table, user, seats, ids, k)
    {
      var conversationId := ids[i];
      if conversationId !in seats {
        assert entries + [] == entries;
        continue;
      }
      if remainingMessageBudget <= 0 {
        ranOut := true;
        NothingPastTheBudget(table, user, seats, ids, i, |ids|);
        assert OutOfBudget(table, user, seats, ids, i);
        return;
      }
      var entry := ReadConversation(table, user, seats[conversationId], conversationId, remainingMessageBudget);
      BudgetStep(table, user, seats, ids, i);
      remainingMessageBudget := remainingMessageBudget - |entry.rows|;
      entries := entries + [entry];
    }
  }

  lemma {:induction false} BudgetStep(table: set<Row>, user: nat, seats: map<nat, Seat>, ids: seq<nat>, i: nat)
    requires i < |ids| && ids[i] in seats
    ensures var left := Left(Demand(table, user, seats, ids, i));
            left > 0 ==>
              Left(Demand(table, user, seats, ids, i + 1))
                == left - Min(Min(REPORTED_CONVERSATION_MESSAGES_EXPORT_CAP, left),
                   |Visible(table, user, ids[i], seats[ids[i]])|)
  {
  }

  /**
   * The reader. `allIds` is what the id query returns, in its order. The list flag is set exactly when
   * ids were cut at the conversation cap, or the loop reached one of the member's conversations with no
   * budget left.
   */
  method BuildReportedConversations(table: set<Row>, user: nat, seats: map<nat, Seat>, allIds: seq<nat>)
    returns (entries: seq<Entry>, isListTruncated: bool)
    requires KeyedById(table)
    ensures var ids := allIds[..Min(REPORTED_CONVERSATIONS_EXPORT_CAP, |allIds|)];
            && entries == Entries(table, user, seats, ids, |ids|)
            && (isListTruncated <==>
                |allIds| > REPORTED_CONVERSATIONS_EXPORT_CAP || exists i | 0 <= i < |ids| ::
                  OutOfBudget(table, user, seats, ids, i))
  {
    if |allIds| == 0 {
      return [], false;
    }
    var conversationIds := allIds[..Min(REPORTED_CONVERSATIONS_EXPORT_CAP, |allIds|)];
    isListTruncated := |allIds| > |conversationIds|;
    var ranOut;
    entries, ranOut := SpendBudget(table, user, seats, conversationIds);
    isListTruncated := isListTruncated || ranOut;
  }

  /** All three ceilings at once. */
  lemma {:induction false} CeilingsHoldTogether(table: set<Row>, user: nat, seats: map<nat, Seat>, allIds: seq<nat>)
    requires KeyedById(table)
    ensures var ids := allIds[..Min(REPORTED_CONVERSATIONS_EXPORT_CAP, |allIds|)];
            var entries := Entries(table, user, seats, ids, |ids|);
            && |entries| <= REPORTED_CONVERSATIONS_EXPORT_CAP
            && TotalRows(entries)
               == Min(Demand(table, user, seats, ids, |ids|), REPORTED_CONVERSATION_TOTAL_MESSAGES_EXPORT_CAP)
            && forall k | 0 <= k < |entries| :: |entries[k].rows| <= REPORTED_CONVERSATION_MESSAGES_EXPORT_CAP
  {
    var ids := allIds[..Min(REPORTED_CONVERSATIONS_EXPORT_CAP, |allIds|)];
    EntriesKeepEveryCeiling(table, user, seats, ids, |ids|);
    SpentPlusLeftIsConstant(table, user, seats, ids, |ids|);
  }

  // ------------------------------------------------------------------------- what is shown

  /** What the member could read there: live, neither taken down nor hidden, since their clear and up to leaving. */
  predicate MayRead(r: Row, user: nat, conversation: nat, seat: Seat) {
    && r.conversation == conversation
    && !r.isDeleted && !r.isModerated && user !in r.hiddenFor
    && (match seat.clearedAt case None => true case Some(at) => at < r.createdAt)
    && (match seat.leftAt case None => true case Some(at) => r.createdAt <= at)
  }

  lemma {:induction false} VisibleIff(table: set<Row>, user: nat, conversation: nat, seat: Seat, r: Row)
    ensures r in Visible(table, user, conversation, seat) <==> r in table && MayRead(r, user, conversation, seat)
  {
  }

  /** An entry shows nothing else, and all of it unless it says that it was cut; then it leaves out the older rows. */
  lemma {:induction false} EntriesShow(
      table: set<Row>, user: nat, seats: map<nat, Seat>, ids: seq<nat>, n: nat, k: nat, r: Row)
    requires KeyedById(table) && n <= |ids| && k < |Entries(table, user, seats, ids, n)|
    ensures var e := Entries(table, user, seats, ids, n)[k];
            && e.conversation in seats
            && (r in e.rows ==> r in table && MayRead(r, user, e.conversation, seats[e.conversation]))
            && (r in table && MayRead(r, user, e.conversation, seats[e.conversation]) && r !in e.rows ==>
                  && e.isTruncated
                  && forall i | 0 <= i < |e.rows| :: r.createdAt <= e.rows[i].createdAt)
  {
    EntriesKeepEveryCeiling(table, user, seats, ids, n);
    var e := Entries(table, user, seats, ids, n)[k];
    assert KeepsCeilings(table, user, seats, e);
    var visible := Visible(table, user, e.conversation, seats[e.conversation]);
    VisibleIff(table, user, e.conversation, seats[e.conversation], r);
    NewestAreKept(visible, |e.rows|);
    if r in visible && r !in e.rows {
      MoreThanShown(visible, e.rows, r);
    }
  }

  lemma {:induction false} MoreThanShown(visible: set<Row>, rows: seq<Row>, r: Row)
    requires r in visible && r !in rows && (forall x | x in rows :: x in visible)
    requires forall i, j | 0 <= i < j < |rows| :: rows[i] != rows[j]
    ensures |visible| > |rows|
  {
    var shown := set x | x in rows;
    DistinctCount(rows);
    assert shown < visible;
    assert visible == shown + (visible - shown) && r in visible - shown;
  }

  lemma {:induction false} DistinctCount(rows: seq<Row>)
    requires forall i, j | 0 <= i < j < |rows| :: rows[i] != rows[j]
    ensures |set x | x in rows| == |rows|
  {
    if rows == [] {
    } else {
      var init, last := rows[..|rows| - 1], rows[|rows| - 1];
      DistinctCount(init);
      assert last !in init;
      assert (set x | x in rows) == (set x | x in init) + {last} by {
        assert rows == init + [last];
      }
    }
  }

  /** The ceilings as numbers. */
  lemma {:induction false} CeilingsAre(table: set<Row>, user: nat, seats: map<nat, Seat>, allIds: seq<nat>)
    requires KeyedById(table)
    ensures var ids := allIds[..Min(REPORTED_CONVERSATIONS_EXPORT_CAP, |allIds|)];
            var entries := Entries(table, user, seats, ids, |ids|);
            && |ids| == (if |allIds| <= 200 then |allIds| else 200)
            && |entries| <= 200 && TotalRows(entries) <= 20_000
            && (forall k | 0 <= k < |entries| :: |entries[k].rows| <= 5_000)
            && (Demand(table, user, seats, ids, |ids|) <= 20_000 ==>
                  TotalRows(entries) == Demand(table, user, seats, ids, |ids|))
  {
    CeilingsHoldTogether(table, user, seats, allIds);
  }
}
