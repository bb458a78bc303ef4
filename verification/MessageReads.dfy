/**
 * The bounded reads of the message export: newest rows by keyset pages (`readNewestMessages`), and the
 * reported conversations under three ceilings (`buildReportedConversationsExport`).
 */
module MessageReads {
  import opened Arithmetic
  import opened Wrappers

  datatype Row = Row(createdAt: int, id: nat, conversation: nat, isDeleted: bool, isModerated: bool,
    hiddenFor: set<nat>)

  /** `(a.created_at, a.id) > (b.created_at, b.id)`. */
  predicate Newer(a: Row, b: Row) { a.createdAt > b.createdAt || (a.createdAt == b.createdAt && a.id > b.id) }

  /** The id is the primary key. */
  ghost predicate KeyedById(rows: set<Row>) { forall a, b | a in rows && b in rows && a.id == b.id :: a == b }

  predicate IsNewest(rows: set<Row>, m: Row) { m in rows && forall r | r in rows && r != m :: Newer(m, r) }

  lemma {:induction false} NewestExists(rows: set<Row>)
    requires rows != {} && KeyedById(rows)
    ensures exists m :: IsNewest(rows, m)
  {
    var x :| x in rows;
    if rows == {x} {
      assert IsNewest(rows, x);
    } else {
      assert exists r :: r in rows - {x} by {
        assert rows - {x} != {};
      }
      NewestExists(rows - {x});
      var m :| IsNewest(rows - {x}, m);
      NewestOfOneMore(rows, x, m);
    }
  }

  lemma {:induction false} NewestOfOneMore(rows: set<Row>, x: Row, m: Row)
    requires KeyedById(rows) && x in rows && IsNewest(rows - {x}, m)
    ensures IsNewest(rows, if Newer(x, m) then x else m)
  {
    assert x.id != m.id;
    forall r | r in rows && r != x && r != m ensures Newer(m, r) {
      assert r in rows - {x};
    }
  }

  function Newest(rows: set<Row>): (m: Row)
    requires rows != {} && KeyedById(rows)
    ensures IsNewest(rows, m)
  {
    NewestExists(rows);
    var m :| m in rows && IsNewest(rows, m);
    m
  }

  /** `ORDER BY created_at DESC, id DESC`. */
  function NewestFirst(rows: set<Row>): (ordered: seq<Row>)
    requires KeyedById(rows)
    ensures |ordered| == |rows|
    ensures forall r :: r in ordered <==> r in rows
    decreases |rows|
  {
    if rows == {} then []
    else
      var m := Newest(rows);
      assert rows == {m} + (rows - {m});
      [m] + NewestFirst(rows - {m})
  }

  /** `ordered` lists exactly `rows`, newest first. */
  ghost predicate ListsNewestFirst(ordered: seq<Row>, rows: set<Row>) {
    && (forall r :: r in ordered <==> r in rows)
    && (forall i, j | 0 <= i < j < |ordered| :: Newer(ordered[i], ordered[j]))
  }

  lemma {:induction false} NewestFirstLists(rows: set<Row>)
    requires KeyedById(rows)
    ensures ListsNewestFirst(NewestFirst(rows), rows)
    decreases |rows|
  {
    if rows == {} {
    } else {
      var m := Newest(rows);
      NewestFirstLists(rows - {m});
      var rest := NewestFirst(rows - {m});
      assert NewestFirst(rows) == [m] + rest;
      forall j | 0 <= j < |rest| ensures Newer(m, rest[j]) {
        assert rest[j] in rest;
      }
    }
  }

  /** There is only one such list. */
  lemma {:induction false} ListUnique(a: seq<Row>, b: seq<Row>, rows: set<Row>)
    requires ListsNewestFirst(a, rows) && ListsNewestFirst(b, rows)
    ensures a == b
    decreases |a|
  {
    assert forall r :: r in a <==> r in b;
    assert |b| > 0 ==> b[0] in b;
    if a != [] {
      assert a[0] in a && a[0] in b;
      var i :| 0 <= i < |b| && b[i] == a[0];
      var j :| 0 <= j < |a| && a[j] == b[0];
      assert a[0] == b[0];
      TailLists(a, rows);
      TailLists(b, rows);
      ListUnique(a[1..], b[1..], rows - {a[0]});
    }
  }

  lemma {:induction false} TailLists(a: seq<Row>, rows: set<Row>)
    requires a != [] && ListsNewestFirst(a, rows)
    ensures ListsNewestFirst(a[1..], rows - {a[0]})
  {
    forall r ensures r in a[1..] <==> r in rows - {a[0]} {
      if r in rows - {a[0]} {
        var i :| 0 <= i < |a| && a[i] == r;
        assert a[1..][i - 1] == r;
      }
      if r in a[1..] {
        var i :| 0 <= i < |a[1..]| && a[1..][i] == r;
        assert a[i + 1] in a && Newer(a[0], a[i + 1]);
      }
    }
  }

  /** The rows a page query with this cursor matches. */
  function Past(rows: set<Row>, cursor: Option<Row>): set<Row> {
    set r | r in rows && (cursor.Some? ==> Newer(cursor.value, r))
  }

  /** Past the row at a position of the list lies exactly the rest of the list: nothing skipped or repeated. */
  lemma {:induction false} CursorContinues(rows: set<Row>, ordered: seq<Row>, k: nat)
    requires ListsNewestFirst(ordered, rows) && k < |ordered|
    ensures ListsNewestFirst(ordered[k + 1..], Past(rows, Some(ordered[k])))
  {
    var rest := ordered[k + 1..];
    forall r ensures r in rest <==> r in Past(rows, Some(ordered[k])) {
      if r in rest {
        var i :| 0 <= i < |rest| && rest[i] == r;
        assert ordered[k + 1 + i] in ordered;
      }
      if r in Past(rows, Some(ordered[k])) {
        var i :| 0 <= i < |ordered| && ordered[i] == r;
        assert i > k;
        assert rest[i - k - 1] == r;
      }
    }
  }

  function Reversed(rows: seq<Row>): seq<Row> { if rows == [] then [] else Reversed(rows[1..]) + [rows[0]] }

  lemma {:induction false} ReversedAt(rows: seq<Row>, k: nat)
    requires k < |rows|
    ensures |Reversed(rows)| == |rows| && Reversed(rows)[k] == rows[|rows| - 1 - k]
  {
    if |rows| <= 1 {
    } else {
      ReversedAt(rows[1..], if k < |rows| - 1 then k else 0);
    }
  }

  lemma {:induction false} ReversedLength(rows: seq<Row>)
    ensures |Reversed(rows)| == |rows|
  {
    if rows == [] {
    } else {
      ReversedLength(rows[1..]);
    }
  }

  /** What the simple, unpaged read returns. */
  function NewestSuffix(rows: set<Row>, cap: nat): seq<Row>
    requires KeyedById(rows)
  {
    var ordered := NewestFirst(rows);
    Reversed(ordered[..Min(cap, |ordered|)])
  }

  /** One page query. */
  method QueryPage(matching: set<Row>, cursor: Option<Row>, limit: nat) returns (page: seq<Row>)
    requires KeyedById(matching)
    ensures var left := NewestFirst(Past(matching, cursor)); page == left[..Min(limit, |left|)]
  {
    var left := NewestFirst(Past(matching, cursor));
    page := left[..Min(limit, |left|)];
  }

  /** The page after the rows read so far is the next stretch of the order. */
  method NextPage(
      matching: set<Row>, rows: seq<Row>, cursor: Option<Row>, pageSize: nat, ghost all: seq<Row>)
    returns (page: seq<Row>)
    requires KeyedById(matching) && all == NewestFirst(matching) && rows <= all
    requires cursor == if rows == [] then None else Some(rows[|rows| - 1])
    ensures rows + page <= all && |page| <= pageSize
    ensures |page| < pageSize ==> |rows + page| == |all|
  {
    PageIsNextSlice(matching, |rows|, cursor);
    page := QueryPage(matching, cursor, pageSize);
    AppendSlice(all, rows, page, pageSize);
  }

  /** The keyset loop: the first `wantedCount` rows of the order, page by page. */
  method ReadPages(matching: set<Row>, wantedCount: nat, maxPage: nat) returns (rows: seq<Row>)
    requires KeyedById(matching) && maxPage >= 1
    ensures var all := NewestFirst(matching); rows == all[..Min(wantedCount, |all|)]
  {
    ghost var all := NewestFirst(matching);
    rows := [];
    var cursor: Option<Row> := None;
    while |rows| < wantedCount
      invariant |rows| <= wantedCount && rows <= all
      invariant cursor == if rows == [] then None else Some(rows[|rows| - 1])
      decreases wantedCount - |rows|
    {
      var pageSize := Min(maxPage, wantedCount - |rows|);
      var page := NextPage(matching, rows, cursor, pageSize, all);
      rows := rows + page;
      if |page| < pageSize {
        break;
      }
      cursor := Some(page[|page| - 1]);
    }
    assert |rows| == Min(wantedCount, |all|);
  }

  /** `readNewestMessages` equals the simple read, for every page size and cap. */
  method ReadNewestMessages(matching: set<Row>, cap: nat, maxPage: nat) returns (newest: seq<Row>, isTruncated: bool)
    requires KeyedById(matching) && maxPage >= 1
    ensures newest == NewestSuffix(matching, cap)
    ensures isTruncated <==> |matching| > cap
  {
    var rows := ReadPages(matching, cap + 1, maxPage);
    PrefixOfPrefix(NewestFirst(matching), cap);
    newest := Reversed(rows[..Min(cap, |rows|)]);
    isTruncated := |rows| > cap;
  }

  lemma {:induction false} PrefixOfPrefix(all: seq<Row>, cap: nat)
    ensures var rows := all[..Min(cap + 1, |all|)]; rows[..Min(cap, |rows|)] == all[..Min(cap, |all|)]
  {
  }

  lemma {:induction false} AppendSlice(all: seq<Row>, rows: seq<Row>, page: seq<Row>, limit: nat)
    requires rows <= all
    requires page == all[|rows|..][..Min(limit, |all| - |rows|)]
    ensures rows + page <= all
    ensures |page| < limit ==> |rows + page| == |all|
  {
  }

  lemma {:induction false} PageIsNextSlice(matching: set<Row>, n: nat, cursor: Option<Row>)
    requires KeyedById(matching) && n <= |NewestFirst(matching)|
    requires cursor == if n == 0 then None else Some(NewestFirst(matching)[n - 1])
    ensures NewestFirst(Past(matching, cursor)) == NewestFirst(matching)[n..]
  {
    if n == 0 {
      NoCursorPassesAll(matching);
      assert NewestFirst(matching)[0..] == NewestFirst(matching);
    } else {
      PageAfterARow(matching, n - 1);
    }
  }

  lemma {:induction false} NoCursorPassesAll(matching: set<Row>)
    ensures Past(matching, None) == matching
  {
  }

  lemma {:induction false} PageAfterARow(matching: set<Row>, k: nat)
    requires KeyedById(matching) && k < |NewestFirst(matching)|
    ensures NewestFirst(Past(matching, Some(NewestFirst(matching)[k]))) == NewestFirst(matching)[k + 1..]
  {
    var all := NewestFirst(matching);
    var rest := Past(matching, Some(all[k]));
    NewestFirstLists(matching);
    CursorContinues(matching, all, k);
    NewestFirstLists(rest);
    ListUnique(NewestFirst(rest), all[k + 1..], rest);
  }

  lemma {:induction false} KeptAt(kept: seq<Row>, k: nat)
    requires k < |kept|
    ensures kept[k] in kept
  {
  }

  /** The result in its own terms: oldest first, and every row left out is older than every row kept. */
  lemma {:induction false} NewestSuffixIs(rows: set<Row>, cap: nat)
    requires KeyedById(rows)
    ensures var kept := NewestSuffix(rows, cap);
            && |kept| == Min(cap, |rows|)
            && (forall i, j | 0 <= i < j < |kept| :: Newer(kept[j], kept[i]))
            && (forall r | r in kept :: r in rows)
            && (forall r, i | r in rows && r !in kept && 0 <= i < |kept| :: Newer(kept[i], r))
  {
    var all, n := NewestFirst(rows), Min(cap, |rows|);
    var kept := NewestSuffix(rows, cap);
    NewestFirstLists(rows);
    ReversedLength(all[..n]);
    forall k | 0 <= k < n ensures kept[k] == all[n - 1 - k] {
      ReversedAt(all[..n], k);
    }
    forall i, j | 0 <= i < j < |kept| ensures Newer(kept[j], kept[i]) {
      assert Newer(all[n - 1 - j], all[n - 1 - i]);
    }
    forall r | r in kept ensures r in rows {
      var k :| 0 <= k < |kept| && kept[k] == r;
      assert all[n - 1 - k] in all;
    }
    forall r, i | r in rows && r !in kept && 0 <= i < |kept| ensures Newer(kept[i], r) {
      var a :| 0 <= a < |all| && all[a] == r;
      assert a >= n by {
        if a < n { KeptAt(kept, n - 1 - a); }
      }
      assert Newer(all[n - 1 - i], all[a]);
    }
  }

  /** By the fields of the rows: kept oldest first, and whatever is left out is no later than anything kept. */
  lemma {:induction false} NewestAreKept(rows: set<Row>, cap: nat)
    requires forall a, b | a in rows && b in rows && a != b :: a.id != b.id
    ensures var kept := NewestSuffix(rows, cap);
            && |kept| == (if cap < |rows| then cap else |rows|)
            && (forall r | r in kept :: r in rows)
            && (forall i, j | 0 <= i < j < |kept| ::
                  && kept[i].createdAt <= kept[j].createdAt
                  && (kept[i].createdAt == kept[j].createdAt ==> kept[i].id < kept[j].id))
            && (forall r, i | r in rows && r !in kept && 0 <= i < |kept| ::
                  && r.createdAt <= kept[i].createdAt
                  && (r.createdAt == kept[i].createdAt ==> r.id < kept[i].id))
  {
    NewestSuffixIs(rows, cap);
  }
}
