/** `flatten` (src/account/export-csv.ts) and the insertion-ordered Map the cells are written to. */
module Flattening {
  import opened Text
  import opened Json
  import opened ColumnPaths

  // ------------------------------------------------------- the insertion-ordered Map

  type Cell = (string, string)

  /** `Map.set`: overwrite in place, or append. */
  function Put(cells: seq<Cell>, path: string, text: string): seq<Cell> {
    if cells == [] then [(path, text)]
    else if cells[0].0 == path then [(path, text)] + cells[1..]
    else [cells[0]] + Put(cells[1..], path, text)
  }

  function PutAll(cells: seq<Cell>, more: seq<Cell>): seq<Cell>
    decreases |more|
  {
    if more == [] then cells
    else Put(PutAll(cells, more[..|more| - 1]), more[|more| - 1].0, more[|more| - 1].1)
  }

  lemma {:induction false} PutAllInTwo(cells: seq<Cell>, first: seq<Cell>, second: seq<Cell>)
    ensures PutAll(PutAll(cells, first), second) == PutAll(cells, first + second)
    decreases |second|
  {
    if second == [] {
      assert first + second == first;
    } else {
      var front := second[..|second| - 1];
      PutAllInTwo(cells, first, front);
      assert (first + second)[..|first + second| - 1] == first + front;
    }
  }

  predicate DistinctPaths(cells: seq<Cell>) {
    forall i, j | 0 <= i < j < |cells| :: cells[i].0 != cells[j].0
  }

  lemma {:induction false} PutNewAppends(cells: seq<Cell>, path: string, text: string)
    requires forall i | 0 <= i < |cells| :: cells[i].0 != path
    ensures Put(cells, path, text) == cells + [(path, text)]
  {
    if cells == [] {
    } else {
      PutNewAppends(cells[1..], path, text);
      assert cells == [cells[0]] + cells[1..];
    }
  }

  /** Writing cells with distinct paths keeps every one of them, in order. */
  lemma {:induction false} PutAllDistinct(cells: seq<Cell>)
    requires DistinctPaths(cells)
    ensures PutAll([], cells) == cells
    decreases |cells|
  {
    if cells == [] {
    } else {
      var front := cells[..|cells| - 1];
      PutAllDistinct(front);
      PutNewAppends(front, cells[|cells| - 1].0, cells[|cells| - 1].1);
      assert cells == front + [cells[|cells| - 1]];
    }
  }

  ghost predicate HasPath(cells: seq<Cell>, path: string) { exists i | 0 <= i < |cells| :: cells[i].0 == path }

  lemma {:induction false} PutSize(cells: seq<Cell>, path: string, text: string, q: string)
    ensures |Put(cells, path, text)| == if HasPath(cells, path) then |cells| else |cells| + 1
    ensures HasPath(Put(cells, path, text), q) <==> HasPath(cells, q) || q == path
  {
    if cells == [] {
      assert Put(cells, path, text)[0].0 == path;
    } else {
      PutSize(cells[1..], path, text, q);
      HasPathInTwo(cells, path);
      HasPathInTwo(cells, q);
      HasPathInTwo(Put(cells, path, text), q);
      assert cells[0].0 != path ==> Put(cells, path, text)[1..] == Put(cells[1..], path, text);
      assert cells[0].0 == path ==> Put(cells, path, text)[1..] == cells[1..];
    }
  }

  lemma {:induction false} HasPathInTwo(cells: seq<Cell>, path: string)
    requires cells != []
    ensures HasPath(cells, path) <==> cells[0].0 == path || HasPath(cells[1..], path)
  {
    if HasPath(cells, path) && cells[0].0 != path {
      var i :| 0 <= i < |cells| && cells[i].0 == path;
      assert cells[1..][i - 1] == cells[i];
    }
    if HasPath(cells[1..], path) {
      var i :| 0 <= i < |cells[1..]| && cells[1..][i].0 == path;
      assert cells[i + 1] == cells[1..][i];
    }
  }

  /** The Map is shorter than what was written to it exactly when two cells had one path. */
  lemma {:induction false} PutAllSize(cells: seq<Cell>, q: string)
    ensures HasPath(PutAll([], cells), q) <==> HasPath(cells, q)
    ensures |PutAll([], cells)| <= |cells|
    ensures |PutAll([], cells)| == |cells| <==> DistinctPaths(cells)
    decreases |cells|
  {
    if cells == [] {
    } else {
      var front, last := cells[..|cells| - 1], cells[|cells| - 1];
      PutAllSize(front, q);
      PutAllSize(front, last.0);
      PutSize(PutAll([], front), last.0, last.1, q);
      HasPathLast(cells, q);
      DistinctLast(cells);
    }
  }

  lemma {:induction false} HasPathLast(cells: seq<Cell>, path: string)
    requires cells != []
    ensures HasPath(cells, path) <==> HasPath(cells[..|cells| - 1], path) || cells[|cells| - 1].0 == path
  {
    var front := cells[..|cells| - 1];
    if HasPath(cells, path) && cells[|cells| - 1].0 != path {
      var i :| 0 <= i < |cells| && cells[i].0 == path;
      assert front[i] == cells[i];
    }
    if HasPath(front, path) {
      var i :| 0 <= i < |front| && front[i].0 == path;
      assert cells[i] == front[i];
    }
  }

  lemma {:induction false} DistinctLast(cells: seq<Cell>)
    requires cells != []
    ensures DistinctPaths(cells) <==>
        DistinctPaths(cells[..|cells| - 1]) && !HasPath(cells[..|cells| - 1], cells[|cells| - 1].0)
  {
    var front, n := cells[..|cells| - 1], |cells| - 1;
    if HasPath(front, cells[n].0) {
      var i :| 0 <= i < |front| && front[i].0 == cells[n].0;
      assert cells[i] == front[i];
    }
    if DistinctPaths(front) && !HasPath(front, cells[n].0) {
      forall i, j | 0 <= i < j < |cells| ensures cells[i].0 != cells[j].0 {
        assert cells[i] == front[i];
      }
    }
  }

  function Rendered(path: string, leaves: seq<Leaf>): seq<Cell> {
    seq(|leaves|, i requires 0 <= i < |leaves| => (path + Render(leaves[i].at), leaves[i].text))
  }

  lemma {:induction false} RenderAfterStep(path: string, step: Step, at: seq<Step>)
    ensures path + Render([step] + at) == path + RenderStep(step) + Render(at)
  {
    assert ([step] + at)[1..] == at;
  }

  lemma {:induction false} RenderedUnder(path: string, step: Step, leaves: seq<Leaf>)
    ensures Rendered(path, Under(step, leaves)) == Rendered(path + RenderStep(step), leaves)
  {
    forall i | 0 <= i < |leaves|
      ensures Rendered(path, Under(step, leaves))[i] == Rendered(path + RenderStep(step), leaves)[i]
    {
      RenderAfterStep(path, step, leaves[i].at);
    }
  }

  lemma {:induction false} RenderedInTwo(path: string, first: seq<Leaf>, second: seq<Leaf>)
    ensures Rendered(path, first + second) == Rendered(path, first) + Rendered(path, second)
  {
  }

  class CellMap {
    var cells: seq<Cell>

    constructor ()
      ensures cells == []
    {
      cells := [];
    }

    method Set(path: string, text: string)
      modifies this
      ensures cells == Put(old(cells), path, text)
    {
      cells := Put(cells, path, text);
    }
  }

  /** One more array item, or record entry, below `path`. */
  lemma {:induction false} OneMoreItem(start: seq<Cell>, path: string, items: seq<Json>, n: nat)
    requires n < |items|
    ensures PutAll(PutAll(start, Rendered(path, ItemLeaves(items, n))),
        Rendered(path + RenderStep(Index(n)), Leaves(items[n])))
         == PutAll(start, Rendered(path, ItemLeaves(items, n + 1)))
  {
    RenderedUnder(path, Index(n), Leaves(items[n]));
    RenderedInTwo(path, ItemLeaves(items, n), Under(Index(n), Leaves(items[n])));
    PutAllInTwo(start, Rendered(path, ItemLeaves(items, n)), Rendered(path + RenderStep(Index(n)), Leaves(items[n])));
  }

  lemma {:induction false} OneMoreEntry(start: seq<Cell>, path: string, entries: seq<Entry>, n: nat)
    requires n < |entries|
    ensures PutAll(PutAll(start, Rendered(path, EntryLeaves(entries, n))),
        Rendered(path + RenderStep(Key(entries[n].key)), Leaves(entries[n].value)))
         == PutAll(start, Rendered(path, EntryLeaves(entries, n + 1)))
  {
    RenderedUnder(path, Key(entries[n].key), Leaves(entries[n].value));
    RenderedInTwo(path, EntryLeaves(entries, n), Under(Key(entries[n].key), Leaves(entries[n].value)));
    PutAllInTwo(start, Rendered(path, EntryLeaves(entries, n)),
      Rendered(path + RenderStep(Key(entries[n].key)), Leaves(entries[n].value)));
  }

  lemma {:induction false} OneLeaf(start: seq<Cell>, path: string, value: Json)
    requires IsLeaf(value)
    ensures PutAll(start, Rendered(path, Leaves(value))) == Put(start, path, LeafText(value))
  {
    var cells := Rendered(path, Leaves(value));
    assert cells == [(path + "", LeafText(value))] && path + "" == path;
    assert cells[..0] == [];
    assert PutAll(start, cells[..0]) == start;
  }

  lemma {:induction false} BelowItem(path: string, index: nat)
    ensures path + "[" + Decimal(index) + "]" == path + RenderStep(Index(index))
  {
  }

  lemma {:induction false} BelowEntry(path: string, key: string)
    ensures path + "." + key == path + RenderStep(Key(key))
  {
  }

  /** `flatten`: one `set` per leaf, at the leaf's path. */
  method Flatten(value: Json, path: string, map_: CellMap)
    modifies map_
    ensures map_.cells == PutAll(old(map_.cells), Rendered(path, Leaves(value)))
    decreases value, 2
  {
    if IsLeaf(value) {
      OneLeaf(map_.cells, path, value);
      map_.Set(path, LeafText(value));
      return;
    }
    match value
    case Arr(items) => FlattenItems(items, path, map_);
    case Obj(entries) => FlattenEntries(entries, path, map_);
  }

  method FlattenItems(items: seq<Json>, path: string, map_: CellMap)
    modifies map_
    ensures map_.cells == PutAll(old(map_.cells), Rendered(path, ItemLeaves(items, |items|)))
    decreases items, 1
  {
    for index := 0 to |items|
      invariant map_.cells == PutAll(old(map_.cells), Rendered(path, ItemLeaves(items, index)))
    {
      FlattenItem(items, index, path, map_, old(map_.cells));
    }
  }

  method FlattenItem(items: seq<Json>, index: nat, path: string, map_: CellMap, ghost start: seq<Cell>)
    requires index < |items| && map_.cells == PutAll(start, Rendered(path, ItemLeaves(items, index)))
    modifies map_
    ensures map_.cells == PutAll(start, Rendered(path, ItemLeaves(items, index + 1)))
    decreases items, 0
  {
    var below := path + "[" + Decimal(index) + "]";
    BelowItem(path, index);
    Flatten(items[index], below, map_);
    OneMoreItem(start, path, items, index);
  }

  method FlattenEntries(entries: seq<Entry>, path: string, map_: CellMap)
    modifies map_
    ensures map_.cells == PutAll(old(map_.cells), Rendered(path, EntryLeaves(entries, |entries|)))
    decreases entries, 1
  {
    for e := 0 to |entries|
      invariant map_.cells == PutAll(old(map_.cells), Rendered(path, EntryLeaves(entries, e)))
    {
      FlattenEntry(entries, e, path, map_, old(map_.cells));
    }
  }

  method FlattenEntry(entries: seq<Entry>, e: nat, path: string, map_: CellMap, ghost start: seq<Cell>)
    requires e < |entries| && map_.cells == PutAll(start, Rendered(path, EntryLeaves(entries, e)))
    modifies map_
    ensures map_.cells == PutAll(start, Rendered(path, EntryLeaves(entries, e + 1)))
    decreases entries, 0
  {
    var below := path + "." + entries[e].key;
    BelowEntry(path, entries[e].key);
    Flatten(entries[e].value, below, map_);
    OneMoreEntry(start, path, entries, e);
  }
}
