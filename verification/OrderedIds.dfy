/** `ORDER BY id ASC LIMIT n` over a finite set of ids, and the largest id of a returned page. */
module OrderedIds {

  lemma {:induction false} MinExists(ids: set<nat>)
    requires ids != {}
    ensures exists m :: m in ids && forall y | y in ids :: m <= y
  {
    var x :| x in ids;
    if ids != {x} {
      assert ids - {x} != {};
      MinExists(ids - {x});
      var m :| m in ids - {x} && forall y | y in ids - {x} :: m <= y;
      assert forall y | y in ids :: y == x || y in ids - {x};
      var least := if x < m then x else m;
      assert least in ids && forall y | y in ids :: least <= y;
    }
  }

  function Min(ids: set<nat>): (m: nat)
    requires ids != {}
    ensures m in ids
    ensures forall y | y in ids :: m <= y
  {
    MinExists(ids);
    var m :| m in ids && forall y | y in ids :: m <= y;
    m
  }

  /** The `limit` smallest ids, or all of them when there are fewer. */
  function Lowest(ids: set<nat>, limit: nat): (page: set<nat>)
    ensures page <= ids
    decreases limit
  {
    if limit == 0 || ids == {} then {}
    else {Min(ids)} + Lowest(ids - {Min(ids)}, limit - 1)
  }

  /** `page` is what a keyset page of `limit` rows over `ids` holds: full or everything, and the smallest. */
  ghost predicate IsPage(page: set<nat>, ids: set<nat>, limit: nat) {
    && page <= ids
    && |page| <= limit
    && (|page| < limit ==> page == ids)
    && forall x, y | x in page && y in ids && y !in page :: x < y
  }

  lemma {:induction false} ExtendPage(rest: set<nat>, ids: set<nat>, m: nat, limit: nat)
    requires m in ids && (forall y | y in ids :: m <= y)
    requires IsPage(rest, ids - {m}, limit)
    ensures IsPage({m} + rest, ids, limit + 1)
  {
    var page := {m} + rest;
    assert m !in rest;
    assert |page| == |rest| + 1;
    forall x, y | x in page && y in ids && y !in page ensures x < y {
      assert y in ids - {m} && y !in rest;
    }
    if |page| < limit + 1 {
      assert page == ids;
    }
  }

  lemma {:induction false} LowestIsPage(ids: set<nat>, limit: nat)
    ensures IsPage(Lowest(ids, limit), ids, limit)
    decreases limit
  {
    if limit == 0 || ids == {} {
    } else {
      LowestIsPage(ids - {Min(ids)}, limit - 1);
      ExtendPage(Lowest(ids - {Min(ids)}, limit - 1), ids, Min(ids), limit - 1);
    }
  }

  /** The ids of a keyset range scan: those past the cursor. */
  function After(ids: set<nat>, cursor: nat): (r: set<nat>)
    ensures forall x :: x in r <==> x in ids && cursor < x
  {
    set x | x in ids && cursor < x
  }

  /** A set in some order; `RETURNING` promises no particular one. */
  method InSomeOrder(ids: set<nat>) returns (rows: seq<nat>)
    ensures |rows| == |ids|
    ensures forall x :: x in rows <==> x in ids
  {
    rows := [];
    var left := ids;
    while left != {}
      invariant left <= ids
      invariant |rows| + |left| == |ids|
      invariant forall x :: x in rows <==> x in ids - left
      decreases |left|
    {
      var x :| x in left;
      left := left - {x};
      rows := rows + [x];
    }
  }
}
