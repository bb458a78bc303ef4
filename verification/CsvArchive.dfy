/** One archive category as a CSV document (`toCsv`), and the round trip through the RFC 4180 parser. */
module CsvArchive {
  import opened Wrappers
  import opened Text
  import opened Json
  import opened ColumnPaths
  import opened Flattening
  import opened CsvCell

  const UTF8_BOM := "\U{FEFF}"

  type Row = seq<Entry>

  /** `normalizeRows`. */
  function NormalizeRows(value: Json): seq<Row> {
    match value
    case Null => []
    case Undefined => []
    case Arr(items) => seq(|items|, i requires 0 <= i < |items| => if items[i].Obj? then items[i].entries
      else [Entry("value", items[i])])
    case Obj(entries) => [entries]
    case _ => [[Entry("value", value)]]
  }

  // -------------------------------------------------------------------- one flattened row

  /** The leaf cells of the first `n` entries of a record. */
  function LeafCells(row: Row, n: nat): seq<Cell>
    requires n <= |row|
  {
    if n == 0 then [] else LeafCells(row, n - 1) + Rendered(row[n - 1].key, Leaves(row[n - 1].value))
  }

  /** The Map a record flattens to. */
  function RowCells(row: Row): seq<Cell> { PutAll([], LeafCells(row, |row|)) }

  ghost predicate SafeKeys(v: Json) {
    match v
    case Arr(items) => forall i | 0 <= i < |items| :: SafeKeys(items[i])
    case Obj(entries) => forall i | 0 <= i < |entries| :: SafeKey(entries[i].key) && SafeKeys(entries[i].value)
    case _ => true
  }

  lemma {:induction false} SafeKeysGiveSafeSteps(v: Json)
    requires SafeKeys(v)
    ensures forall i | 0 <= i < |Leaves(v)| :: SafeSteps(Leaves(v)[i].at)
    decreases v, 0
  {
    if IsLeaf(v) {
    } else {
      match v
      case Arr(items) => SafeItems(items, |items|);
      case Obj(entries) => SafeEntries(entries, |entries|);
    }
  }

  lemma {:induction false} UnderIsSafe(step: Step, leaves: seq<Leaf>)
    requires step.Key? ==> SafeKey(step.key)
    requires forall i | 0 <= i < |leaves| :: SafeSteps(leaves[i].at)
    ensures forall i | 0 <= i < |Under(step, leaves)| :: SafeSteps(Under(step, leaves)[i].at)
  {
  }

  lemma {:induction false} SafeItems(items: seq<Json>, n: nat)
    requires n <= |items| && forall i | 0 <= i < |items| :: SafeKeys(items[i])
    ensures forall i | 0 <= i < |ItemLeaves(items, n)| :: SafeSteps(ItemLeaves(items, n)[i].at)
    decreases items, n
  {
    if n == 0 {
    } else {
      SafeItems(items, n - 1);
      SafeKeysGiveSafeSteps(items[n - 1]);
      UnderIsSafe(Index(n - 1), Leaves(items[n - 1]));
    }
  }

  lemma {:induction false} SafeEntries(entries: seq<Entry>, n: nat)
    requires n <= |entries| && forall i | 0 <= i < |entries| :: SafeKey(entries[i].key) && SafeKeys(entries[i].value)
    ensures forall i | 0 <= i < |EntryLeaves(entries, n)| :: SafeSteps(EntryLeaves(entries, n)[i].at)
    decreases entries, n
  {
    if n == 0 {
    } else {
      SafeEntries(entries, n - 1);
      SafeKeysGiveSafeSteps(entries[n - 1].value);
      UnderIsSafe(Key(entries[n - 1].key), Leaves(entries[n - 1].value));
    }
  }

  ghost predicate SafeRow(row: Row) { forall i | 0 <= i < |row| :: SafeKey(row[i].key) && SafeKeys(row[i].value) }

  predicate WellFormedRow(row: Row) { DistinctKeys(row) && forall i | 0 <= i < |row| :: WellFormed(row[i].value) }

  /** A cell of the first `n` entries comes from one leaf of one of them. */
  lemma {:induction false} LeafCellSource(row: Row, n: nat, c: nat) returns (e: nat, l: nat)
    requires n <= |row| && c < |LeafCells(row, n)|
    ensures e < n && l < |Leaves(row[e].value)|
    ensures LeafCells(row, n)[c] == (ColumnPath(row[e].key, Leaves(row[e].value)[l].at), Leaves(row[e].value)[l].text)
  {
    var front := |LeafCells(row, n - 1)|;
    if c < front {
      LeafCellBefore(row, n, c);
      e, l := LeafCellSource(row, n - 1, c);
    } else {
      LeafCellOfLast(row, n, c);
      e, l := n - 1, c - front;
    }
  }

  lemma {:induction false} LeafCellsAreDistinct(row: Row, n: nat)
    requires n <= |row| && WellFormedRow(row) && SafeRow(row)
    ensures DistinctPaths(LeafCells(row, n))
  {
    if n == 0 {
    } else {
      LeafCellsAreDistinct(row, n - 1);
      forall i, j | 0 <= i < j < |LeafCells(row, n)| ensures LeafCells(row, n)[i].0 != LeafCells(row, n)[j].0 {
        if |LeafCells(row, n - 1)| <= j { LaterLeafCellDiffers(row, n, i, j); }
      }
    }
  }

  /** A leaf of the last entry against any leaf before it. */
  lemma {:induction false} LaterLeafCellDiffers(row: Row, n: nat, i: nat, j: nat)
    requires 0 < n <= |row| && WellFormedRow(row) && SafeRow(row)
    requires i < j < |LeafCells(row, n)| && |LeafCells(row, n - 1)| <= j
    ensures LeafCells(row, n)[i].0 != LeafCells(row, n)[j].0
  {
    if i < |LeafCells(row, n - 1)| {
      EarlierEntryDiffers(row, n, i, j);
    } else {
      var front := |LeafCells(row, n - 1)|;
      LeafCellOfLast(row, n, i);
      LeafCellOfLast(row, n, j);
      LeavesOfOneEntryDiffer(row[n - 1], i - front, j - front);
    }
  }

  lemma {:induction false} EarlierEntryDiffers(row: Row, n: nat, i: nat, j: nat)
    requires 0 < n <= |row| && DistinctKeys(row) && SafeRow(row)
    requires i < |LeafCells(row, n - 1)| <= j < |LeafCells(row, n)|
    ensures LeafCells(row, n)[i].0 != LeafCells(row, n)[j].0
  {
    var e, l := LeafCellSource(row, n - 1, i);
    LeafCellBefore(row, n, i);
    LeafCellOfLast(row, n, j);
    LeavesOfTwoEntriesDiffer(row[e], row[n - 1], l, j - |LeafCells(row, n - 1)|);
  }

  lemma {:induction false} LeafCellBefore(row: Row, n: nat, i: nat)
    requires 0 < n <= |row| && i < |LeafCells(row, n - 1)|
    ensures i < |LeafCells(row, n)| && LeafCells(row, n)[i] == LeafCells(row, n - 1)[i]
  {
  }

  lemma {:induction false} LeafCellOfLast(row: Row, n: nat, i: nat)
    requires 0 < n <= |row| && |LeafCells(row, n - 1)| <= i < |LeafCells(row, n)|
    ensures var leaves, k := Leaves(row[n - 1].value), i - |LeafCells(row, n - 1)|;
            k < |leaves| && LeafCells(row, n)[i] == (ColumnPath(row[n - 1].key, leaves[k].at), leaves[k].text)
  {
  }

  lemma {:induction false} LeavesOfTwoEntriesDiffer(a: Entry, b: Entry, k: nat, l: nat)
    requires SafeKey(a.key) && SafeKeys(a.value) && SafeKey(b.key) && SafeKeys(b.value) && a.key != b.key
    requires k < |Leaves(a.value)| && l < |Leaves(b.value)|
    ensures ColumnPath(a.key, Leaves(a.value)[k].at) != ColumnPath(b.key, Leaves(b.value)[l].at)
  {
    SafeKeysGiveSafeSteps(a.value);
    SafeKeysGiveSafeSteps(b.value);
    if ColumnPath(a.key, Leaves(a.value)[k].at) == ColumnPath(b.key, Leaves(b.value)[l].at) {
      ColumnPathInjective(a.key, b.key, Leaves(a.value)[k].at, Leaves(b.value)[l].at);
    }
  }

  lemma {:induction false} LeavesOfOneEntryDiffer(a: Entry, k: nat, l: nat)
    requires SafeKey(a.key) && SafeKeys(a.value) && WellFormed(a.value)
    requires k < l < |Leaves(a.value)|
    ensures ColumnPath(a.key, Leaves(a.value)[k].at) != ColumnPath(a.key, Leaves(a.value)[l].at)
  {
    SafeKeysGiveSafeSteps(a.value);
    LeavesAreDistinct(a.value);
    if ColumnPath(a.key, Leaves(a.value)[k].at) == ColumnPath(a.key, Leaves(a.value)[l].at) {
      ColumnPathInjective(a.key, a.key, Leaves(a.value)[k].at, Leaves(a.value)[l].at);
    }
  }

  /** No leaf of a record with safe keys loses its cell to another: the Map is the list of leaves. */
  lemma {:induction false} SafeRowLosesNothing(row: Row)
    requires WellFormedRow(row) && SafeRow(row)
    ensures RowCells(row) == LeafCells(row, |row|) && DistinctPaths(RowCells(row))
  {
    LeafCellsAreDistinct(row, |row|);
    PutAllDistinct(LeafCells(row, |row|));
  }

  // ------------------------------------------------------------- the exact class of keys

  function Padding(n: nat): seq<Json> { seq(n, _ => Obj([])) }

  /** A value with an empty object at one position. */
  function NestAt(at: seq<Step>): (v: Json)
    ensures IsContainer(v)
  {
    if at == [] then Obj([])
    else
      match at[0]
      case Key(key) => Obj([Entry(key, NestAt(at[1..]))])
      case Index(n) => Arr(Padding(n) + [NestAt(at[1..])])
  }

  lemma {:induction false} NestedIsFound(at: seq<Step>)
    requires SafeSteps(at)
    ensures WellFormed(NestAt(at)) && SafeKeys(NestAt(at)) && At(NestAt(at), at) == Some(Obj([]))
  {
    if at == [] {
    } else {
      NestedIsFound(at[1..]);
      match at[0]
      case Key(key) =>
        var entries := [Entry(key, NestAt(at[1..]))];
        assert entries[0].key == key;
        assert EntryOf(entries, key) == 0;
      case Index(n) =>
        var items := Padding(n) + [NestAt(at[1..])];
        assert items[n] == NestAt(at[1..]) && IsContainer(items[n]);
    }
  }

  lemma {:induction false} NestedHasALeaf(at: seq<Step>)
    requires SafeSteps(at)
    ensures WellFormed(NestAt(at)) && SafeKeys(NestAt(at)) && Leaf(at, "") in Leaves(NestAt(at))
  {
    NestedIsFound(at);
    LeavesAreTheLeafPositions(NestAt(at), Leaf(at, ""));
  }

  ghost predicate LosesALeaf(row: Row) { |RowCells(row)| < |LeafCells(row, |row|)| }

  /** Records that hold `key` first and have safe keys everywhere else. */
  ghost predicate OthersAreSafe(row: Row, key: string) {
    WellFormedRow(row) && row != [] && row[0].key == key && SafeKeys(row[0].value) && SafeRow(row[1..])
  }

  /** Beside an unsafe key some record with otherwise safe keys puts two leaves in one column. */
  lemma {:induction false} UnsafeKeyLosesALeaf(key: string) returns (row: Row)
    requires !SafeKey(key)
    ensures OthersAreSafe(row, key) && LosesALeaf(row)
  {
    var root, at := EveryPathIsSafe(key);
    RootIsAPath(root);
    PathGrows(root, at);
    NestedHasALeaf(at);
    row := [Entry(key, Str("1")), Entry(root, NestAt(at))];
    assert row[1..] == [Entry(root, NestAt(at))];
    TwoEntriesCollide(row, at);
  }

  lemma {:induction false} RootIsAPath(root: string)
    ensures ColumnPath(root, []) == root
  {
  }

  lemma {:induction false} PathGrows(root: string, at: seq<Step>)
    ensures at != [] ==> |ColumnPath(root, at)| > |root|
  {
  }

  lemma {:induction false} TwoEntriesCollide(row: Row, at: seq<Step>)
    requires |row| == 2 && row[0].value == Str("1") && Leaf(at, "") in Leaves(row[1].value)
    requires row[0].key == ColumnPath(row[1].key, at)
    ensures LosesALeaf(row)
  {
    var cells := LeafCells(row, 2);
    SingleLeafCell(row[0].key, row[0].value, [], "1");
    TwoCells(row);
    assert row[0].key + "" == row[0].key;
    assert cells[0].0 == row[0].key;
    var l :| 0 <= l < |Leaves(row[1].value)| && Leaves(row[1].value)[l] == Leaf(at, "");
    assert cells[1 + l].0 == ColumnPath(row[1].key, at);
    PutAllSize(cells, "");
  }

  lemma {:induction false} SingleLeafCell(root: string, value: Json, at: seq<Step>, text: string)
    requires Leaves(value) == [Leaf(at, text)]
    ensures Rendered(root, Leaves(value)) == [(ColumnPath(root, at), text)]
  {
  }

  lemma {:induction false} TwoCells(row: Row)
    requires |row| == 2
    ensures LeafCells(row, 2) == Rendered(row[0].key, Leaves(row[0].value)) + Rendered(row[1].key, Leaves(row[1].value))
  {
    assert LeafCells(row, 1) == LeafCells(row, 0) + Rendered(row[0].key, Leaves(row[0].value));
    assert LeafCells(row, 1) == Rendered(row[0].key, Leaves(row[0].value));
  }

  /** A key is safe exactly if no record with otherwise safe keys loses a leaf beside it. */
  lemma {:induction false} SafeKeyIff(key: string)
    ensures SafeKey(key) <==> forall row: Row | OthersAreSafe(row, key) :: !LosesALeaf(row)
  {
    if SafeKey(key) {
      forall row: Row | OthersAreSafe(row, key) ensures !LosesALeaf(row) {
        forall i | 0 <= i < |row| ensures SafeKey(row[i].key) && SafeKeys(row[i].value) {
          assert i > 0 ==> row[1..][i - 1] == row[i];
        }
        SafeRowLosesNothing(row);
      }
    } else {
      var row := UnsafeKeyLosesALeaf(key);
    }
  }

  // ------------------------------------------------------------------------------ columns

  /** Keep the first of each repeated path. */
  function FirstSeen(paths: seq<string>): (columns: seq<string>)
    ensures forall p :: p in columns <==> p in paths
    decreases |paths|
  {
    if paths == [] then []
    else
      var front := FirstSeen(paths[..|paths| - 1]);
      var last := paths[|paths| - 1];
      assert paths == paths[..|paths| - 1] + [last];
      if last in front then front else front + [last]
  }

  /** `p` occurs at `i` and not before. */
  predicate FirstAt(paths: seq<string>, p: string, i: nat) { i < |paths| && paths[i] == p && p !in paths[..i] }

  lemma {:induction false} FirstSeenHasNoRepeats(paths: seq<string>)
    ensures NoRepeats(FirstSeen(paths))
    decreases |paths|
  {
    if paths == [] {
    } else {
      FirstSeenHasNoRepeats(paths[..|paths| - 1]);
    }
  }

  lemma {:induction false} FirstAtPrefix(paths: seq<string>, n: nat, p: string, a: nat)
    requires n <= |paths| && FirstAt(paths, p, a)
    ensures a < n <==> p in paths[..n]
    ensures a < n ==> FirstAt(paths[..n], p, a)
  {
    if a < n {
      assert paths[..n][a] == p && paths[..n][..a] == paths[..a];
    } else {
      assert paths[..n] == paths[..a][..n];
    }
  }

  lemma {:induction false} FirstSeenInOrder(paths: seq<string>, i: nat, j: nat, a: nat, b: nat)
    requires i < j < |FirstSeen(paths)|
    requires FirstAt(paths, FirstSeen(paths)[i], a) && FirstAt(paths, FirstSeen(paths)[j], b)
    ensures a < b
    decreases |paths|
  {
    var n := |paths| - 1;
    var front := FirstSeen(paths[..n]);
    FirstAtPrefix(paths, n, FirstSeen(paths)[i], a);
    FirstAtPrefix(paths, n, FirstSeen(paths)[j], b);
    if j < |front| {
      FirstSeenInOrder(paths[..n], i, j, a, b);
    } else {
      assert FirstSeen(paths)[i] == front[i];
    }
  }

  /** The columns are the union of the rows' paths without repeats, in first-seen order. */
  lemma {:induction false} ColumnsAreTheUnionInFirstSeenOrder(paths: seq<string>)
    ensures NoRepeats(FirstSeen(paths))
    ensures forall i: nat, j: nat, a, b | i < j < |FirstSeen(paths)| && FirstAt(paths, FirstSeen(paths)[i], a)
              && FirstAt(paths, FirstSeen(paths)[j], b) :: a < b
  {
    FirstSeenHasNoRepeats(paths);
    forall i: nat, j: nat, a, b | i < j < |FirstSeen(paths)| && FirstAt(paths, FirstSeen(paths)[i], a)
      && FirstAt(paths, FirstSeen(paths)[j], b)
      ensures a < b
    {
      FirstSeenInOrder(paths, i, j, a, b);
    }
  }

  /** Whatever is seen after a later column was seen before an earlier one. */
  lemma {:induction false} EarlierColumnIsSeenEarlier(paths: seq<string>, i: nat, j: nat, b: nat) returns (a: nat)
    requires i < j < |FirstSeen(paths)| && b < |paths| && paths[b] == FirstSeen(paths)[j]
    ensures a < b && paths[a] == FirstSeen(paths)[i]
  {
    a := FirstPlace(paths, FirstSeen(paths)[i]);
    var first := FirstPlace(paths, FirstSeen(paths)[j]);
    FirstSeenInOrder(paths, i, j, a, first);
    assert forall k | 0 <= k < first :: paths[k] == paths[..first][k];
  }

  lemma {:induction false} FirstPlace(paths: seq<string>, p: string) returns (i: nat)
    requires p in paths
    ensures FirstAt(paths, p, i)
  {
    i :| 0 <= i < |paths| && paths[i] == p;
    if p in paths[..i] {
      var earlier := paths[..i];
      i := FirstPlace(earlier, p);
      assert earlier[..i] == paths[..i];
    }
  }

  function Paths(cells: seq<Cell>): seq<string> {
    seq(|cells|, i requires 0 <= i < |cells| => cells[i].0)
  }

  function AllPaths(flattened: seq<seq<Cell>>, n: nat): seq<string>
    requires n <= |flattened|
  {
    if n == 0 then [] else AllPaths(flattened, n - 1) + Paths(flattened[n - 1])
  }

  lemma {:induction false} FirstSeenInTwo(first: seq<string>, second: seq<string>, p: string)
    ensures second != [] && p == second[|second| - 1] ==>
              FirstSeen(first + second) == var front := FirstSeen(first + second[..|second| - 1]);
                                           if p in front then front else front + [p]
  {
    if second != [] {
      assert (first + second)[..|first + second| - 1] == first + second[..|second| - 1];
    }
  }

  // ------------------------------------------------------------------------ the document

  /** `cells.get(path) ?? ''`. */
  function CellOf(cells: seq<Cell>, path: string): string {
    if cells == [] then "" else if cells[0].0 == path then cells[0].1 else CellOf(cells[1..], path)
  }

  function CellsOf(columns: seq<string>, cells: seq<Cell>): Record {
    seq(|columns|, i requires 0 <= i < |columns| => CellOf(cells, columns[i]))
  }

  function EscapeAll(record: Record): Record {
    Mapped(EscapeCell, record)
  }

  function NeutralizeAll(record: Record): Record {
    Mapped(NeutralizeFormula, record)
  }

  function Line(record: Record): string { Join(EscapeAll(record), ",") }

  function Lines(records: seq<Record>): seq<string> {
    seq(|records|, i requires 0 <= i < |records| => Line(records[i]))
  }

  /** The table a category prints: the header, then one record per row. */
  function Table(flattened: seq<seq<Cell>>): seq<Record> {
    var columns := FirstSeen(AllPaths(flattened, |flattened|));
    if columns == [] then []
    else [columns] + seq(|flattened|, i requires 0 <= i < |flattened| => CellsOf(columns, flattened[i]))
  }

  function Flattened(value: Json): seq<seq<Cell>> {
    var rows := NormalizeRows(value);
    seq(|rows|, i requires 0 <= i < |rows| => RowCells(rows[i]))
  }

  function Document(records: seq<Record>): string {
    if records == [] then UTF8_BOM else UTF8_BOM + Join(Lines(records), "\r\n") + "\r\n"
  }

  // -------------------------------------------------------------------------------- toCsv

  method FlattenRow(row: Row) returns (cells: seq<Cell>)
    ensures cells == RowCells(row)
  {
    var map_ := new CellMap();
    assert PutAll([], LeafCells(row, 0)) == [];
    for e := 0 to |row|
      invariant fresh(map_)
      invariant map_.cells == PutAll([], LeafCells(row, e))
    {
      Flatten(row[e].value, row[e].key, map_);
      PutAllInTwo([], LeafCells(row, e), Rendered(row[e].key, Leaves(row[e].value)));
    }
    cells := map_.cells;
  }

  /** The inner loop over `cells.keys()`. */
  method AddColumns(cells: seq<Cell>, columns: seq<string>, seen: set<string>, ghost earlier: seq<string>)
    returns (columns': seq<string>, seen': set<string>)
    requires columns == FirstSeen(earlier) && forall p :: p in seen <==> p in columns
    ensures columns' == FirstSeen(earlier + Paths(cells)) && forall p :: p in seen' <==> p in columns'
  {
    columns', seen' := columns, seen;
    assert earlier + Paths(cells)[..0] == earlier;
    for i := 0 to |cells|
      invariant columns' == FirstSeen(earlier + Paths(cells)[..i])
      invariant forall p :: p in seen' <==> p in columns'
    {
      FirstSeenInTwo(earlier, Paths(cells)[..i + 1], cells[i].0);
      assert Paths(cells)[..i + 1][..i] == Paths(cells)[..i];
      if cells[i].0 !in seen' {
        seen' := seen' + {cells[i].0};
        columns' := columns' + [cells[i].0];
      }
    }
    assert Paths(cells)[..|cells|] == Paths(cells);
  }

  lemma {:induction false} AllPathsOfPrefix(first: seq<seq<Cell>>, last: seq<Cell>, n: nat)
    requires n <= |first|
    ensures AllPaths(first + [last], n) == AllPaths(first, n)
  {
    if n == 0 {
    } else {
      AllPathsOfPrefix(first, last, n - 1);
    }
  }

  /** The pass that flattens every row and collects the columns. */
  method CollectColumns(rows: seq<Row>) returns (columns: seq<string>, flattened: seq<seq<Cell>>)
    ensures |flattened| == |rows| && forall i | 0 <= i < |rows| :: flattened[i] == RowCells(rows[i])
    ensures columns == FirstSeen(AllPaths(flattened, |flattened|))
  {
    columns, flattened := [], [];
    var seen: set<string> := {};
    for r := 0 to |rows|
      invariant |flattened| == r && forall i | 0 <= i < r :: flattened[i] == RowCells(rows[i])
      invariant columns == FirstSeen(AllPaths(flattened, r)) && forall p :: p in seen <==> p in columns
    {
      var cells := FlattenRow(rows[r]);
      columns, seen := AddColumns(cells, columns, seen, AllPaths(flattened, r));
      AllPathsOfPrefix(flattened, cells, r);
      flattened := flattened + [cells];
    }
  }

  method ToCsv(value: Json) returns (text: string)
    ensures text == Document(Table(Flattened(value)))
  {
    var columns, flattened := CollectColumns(NormalizeRows(value));
    assert flattened == Flattened(value);
    if |columns| == 0 {
      return UTF8_BOM;
    }
    text := Print(columns, flattened);
  }

  method PrintLines(
      columns: seq<string>, flattened: seq<seq<Cell>>, ghost table: seq<Record>) returns (lines: seq<string>)
    requires |table| == |flattened| + 1 && table[0] == columns
    requires forall i | 0 <= i < |flattened| :: table[i + 1] == CellsOf(columns, flattened[i])
    ensures lines == Lines(table)
  {
    lines := [];
    for r := 0 to |flattened| + 1
      invariant lines == Lines(table[..r])
    {
      var line := if r == 0 then Line(columns) else Line(CellsOf(columns, flattened[r - 1]));
      LinesOneMore(table, r);
      lines := lines + [line];
    }
    assert table[..|table|] == table;
  }

  lemma {:induction false} LinesOneMore(table: seq<Record>, r: nat)
    requires r < |table|
    ensures Lines(table[..r + 1]) == Lines(table[..r]) + [Line(table[r])]
  {
  }

  method Print(columns: seq<string>, flattened: seq<seq<Cell>>) returns (text: string)
    requires columns == FirstSeen(AllPaths(flattened, |flattened|)) && columns != []
    ensures text == Document(Table(flattened))
  {
    var lines := PrintLines(columns, flattened, Table(flattened));
    text := UTF8_BOM + Join(lines, "\r\n") + "\r\n";
  }

  // --------------------------------------------------------------------------- round trip

  lemma {:induction false} LineOfOne(cells: Record, rest: string)
    requires |cells| == 1
    ensures Line(cells) + "\r\n" + rest == EscapeCell(cells[0]) + ("\r\n" + rest)
  {
    assert EscapeAll(cells)[0] == EscapeCell(cells[0]);
  }

  lemma {:induction false} EscapeAllInTwo(cells: Record)
    requires |cells| > 1
    ensures |EscapeAll(cells)| == |cells|
    ensures EscapeAll(cells)[0] == EscapeCell(cells[0]) && EscapeAll(cells)[1..] == EscapeAll(cells[1..])
  {
    MappedInTwo(EscapeCell, cells);
  }

  lemma {:induction false} LineInTwo(cells: Record)
    requires |cells| > 1
    ensures Line(cells) == EscapeCell(cells[0]) + "," + Line(cells[1..])
  {
    EscapeAllInTwo(cells);
    JoinInTwo(EscapeAll(cells), ",");
  }

  lemma {:induction false} LineThenRest(cells: Record, rest: string)
    requires |cells| > 1
    ensures Line(cells) + "\r\n" + rest == EscapeCell(cells[0]) + ("," + (Line(cells[1..]) + "\r\n" + rest))
  {
    LineInTwo(cells);
  }

  lemma {:induction false} NeutralizeOne(cells: Record)
    requires |cells| == 1
    ensures NeutralizeAll(cells) == [NeutralizeFormula(cells[0])]
  {
    MappedInTwo(NeutralizeFormula, cells);
  }

  lemma {:induction false} NeutralizeInTwo(cells: Record, record: Record)
    requires |cells| > 1
    ensures record + [NeutralizeFormula(cells[0])] + NeutralizeAll(cells[1..]) == record + NeutralizeAll(cells)
  {
    MappedInTwo(NeutralizeFormula, cells);
    var all := NeutralizeAll(cells);
    assert all == [all[0]] + all[1..];
    assert record + [all[0]] + all[1..] == record + ([all[0]] + all[1..]);
  }

  lemma {:induction false} ParseLine(cells: Record, rest: string, record: Record, records: seq<Record>)
    requires cells != []
    ensures Parse(Line(cells) + "\r\n" + rest, Start, "", record, records)
         == Parse(rest, Start, "", [], records + [record + NeutralizeAll(cells)])
    decreases |cells|
  {
    if |cells| == 1 {
      LineOfOne(cells, rest);
      ParseCellThenEnd(cells[0], rest, record, records);
      NeutralizeOne(cells);
    } else {
      var more := cells[1..];
      var tail := Line(more) + "\r\n" + rest;
      LineThenRest(cells, rest);
      ParseCellThenComma(cells[0], tail, record, records);
      ParseLine(more, rest, record + [NeutralizeFormula(cells[0])], records);
      NeutralizeInTwo(cells, record);
    }
  }

  function NeutralizeTable(records: seq<Record>): seq<Record> {
    seq(|records|, i requires 0 <= i < |records| => NeutralizeAll(records[i]))
  }

  function Terminated(lines: seq<Record>): string {
    if lines == [] then "" else Line(lines[0]) + "\r\n" + Terminated(lines[1..])
  }

  lemma {:induction false} TerminatedIsJoined(lines: seq<Record>)
    requires lines != []
    ensures Join(Lines(lines), "\r\n") + "\r\n" == Terminated(lines)
    decreases |lines|
  {
    assert Lines(lines)[1..] == Lines(lines[1..]);
    if |lines| > 1 {
      TerminatedIsJoined(lines[1..]);
    }
  }

  lemma {:induction false} ParseLines(lines: seq<Record>, records: seq<Record>)
    requires forall i | 0 <= i < |lines| :: lines[i] != []
    ensures Parse(Terminated(lines), Start, "", [], records) == Some(records + NeutralizeTable(lines))
    decreases |lines|
  {
    if lines == [] {
      assert records + NeutralizeTable(lines) == records;
    } else {
      var first := NeutralizeAll(lines[0]);
      ParseLine(lines[0], Terminated(lines[1..]), [], records);
      assert [] + first == first;
      ParseLines(lines[1..], records + [first]);
      assert NeutralizeTable(lines) == [first] + NeutralizeTable(lines[1..]);
      assert records + [first] + NeutralizeTable(lines[1..]) == records + NeutralizeTable(lines);
    }
  }

  lemma {:induction false} DocumentRoundTrip(table: seq<Record>)
    requires forall i | 0 <= i < |table| :: table[i] != []
    ensures UTF8_BOM <= Document(table)
    ensures ParseDocument(Document(table)[|UTF8_BOM|..]) == Some(NeutralizeTable(table))
  {
    if table == [] {
      assert Document(table)[|UTF8_BOM|..] == "";
    } else {
      var body := Join(Lines(table), "\r\n") + "\r\n";
      ParseLines(table, []);
      TerminatedIsJoined(table);
      assert [] + NeutralizeTable(table) == NeutralizeTable(table);
      assert Document(table) == UTF8_BOM + body;
      assert Document(table)[|UTF8_BOM|..] == body;
    }
  }

  /**
   * Reading back what was printed: after the BOM the document parses to the header and one record per
   * row, each cell the neutralised text of the flattened value.
   */
  lemma {:induction false} CsvRoundTrip(value: Json)
    ensures var text := Document(Table(Flattened(value)));
            && UTF8_BOM <= text
            && ParseDocument(text[|UTF8_BOM|..]) == Some(NeutralizeTable(Table(Flattened(value))))
  {
    TableIsRectangular(Flattened(value));
    DocumentRoundTrip(Table(Flattened(value)));
  }

  lemma {:induction false} TableIsRectangular(flattened: seq<seq<Cell>>)
    ensures forall i | 0 <= i < |Table(flattened)| :: |Table(flattened)[i]| == |Table(flattened)[0]| > 0
    ensures Table(flattened) != [] ==> |Table(flattened)| == |flattened| + 1
  {
  }

  /** The shape of the table: as wide as its header everywhere, and each cell the row's leaf or empty. */
  lemma {:induction false} TableCells(value: Json, r: nat, c: nat)
    requires var table := Table(Flattened(value)); table != [] && r < |Flattened(value)| && c < |table[0]|
    ensures var table, cells := Table(Flattened(value)), Flattened(value)[r];
            && |table| == |Flattened(value)| + 1
            && |table[r + 1]| == |table[0]|
            && (forall i | 0 <= i < |cells| && cells[i].0 == table[0][c] && table[0][c] !in Paths(cells)[..i] ::
                table[r + 1][c] == cells[i].1)
            && (table[0][c] !in Paths(cells) ==> table[r + 1][c] == "")
  {
    TableEntry(Flattened(value), r, c);
    CellOfIs(Flattened(value)[r], Table(Flattened(value))[0][c]);
  }

  lemma {:induction false} TableEntry(flattened: seq<seq<Cell>>, r: nat, c: nat)
    requires var table := Table(flattened); table != [] && r < |flattened| && c < |table[0]|
    ensures var table := Table(flattened);
            && |table| == |flattened| + 1 && |table[r + 1]| == |table[0]|
            && table[0] == FirstSeen(AllPaths(flattened, |flattened|))
            && table[r + 1][c] == CellOf(flattened[r], table[0][c])
  {
    var columns := FirstSeen(AllPaths(flattened, |flattened|));
    assert Table(flattened)[r + 1] == CellsOf(columns, flattened[r]);
  }

  lemma {:induction false} CellOfIs(cells: seq<Cell>, path: string)
    ensures forall i | 0 <= i < |cells| && cells[i].0 == path && path !in Paths(cells)[..i] ::
        CellOf(cells, path) == cells[i].1
    ensures path !in Paths(cells) ==> CellOf(cells, path) == ""
  {
    if cells == [] {
    } else {
      CellOfIs(cells[1..], path);
      assert Paths(cells)[1..] == Paths(cells[1..]);
      assert Paths(cells) == [cells[0].0] + Paths(cells[1..]);
      forall i | 0 < i < |cells| && cells[i].0 == path && path !in Paths(cells)[..i]
        ensures CellOf(cells, path) == cells[i].1
      {
        assert Paths(cells)[..i][0] == cells[0].0;
        assert Paths(cells)[..i] == [cells[0].0] + Paths(cells[1..])[..i - 1];
        assert cells[1..][i - 1] == cells[i];
      }
      if cells[0].0 == path {
        assert Paths(cells)[0] == path;
      }
    }
  }

  lemma {:induction false} LeafHasACell(row: Row, n: nat, e: nat, l: nat)
    requires e < n <= |row| && l < |Leaves(row[e].value)|
    ensures (ColumnPath(row[e].key, Leaves(row[e].value)[l].at), Leaves(row[e].value)[l].text) in LeafCells(row, n)
  {
    if e < n - 1 {
      LeafHasACell(row, n - 1, e, l);
    } else {
      assert LeafCells(row, n)[|LeafCells(row, n - 1)| + l]
          == (ColumnPath(row[e].key, Leaves(row[e].value)[l].at), Leaves(row[e].value)[l].text);
    }
  }

  lemma {:induction false} PathOfRowIsSeen(flattened: seq<seq<Cell>>, r: nat, c: nat, n: nat)
    requires r < n <= |flattened| && c < |flattened[r]|
    ensures flattened[r][c].0 in AllPaths(flattened, n)
  {
    if r < n - 1 {
      PathOfRowIsSeen(flattened, r, c, n - 1);
    } else {
      assert AllPaths(flattened, n)[|AllPaths(flattened, n - 1)| + c] == Paths(flattened[r])[c];
    }
  }

  /** Every leaf of a record with safe keys is delivered: its row holds its text under a column with its path. */
  lemma {:induction false} EveryLeafIsDelivered(value: Json, r: nat, e: nat, l: nat)
    requires r < |NormalizeRows(value)|
    requires var row := NormalizeRows(value)[r];
             WellFormedRow(row) && SafeRow(row) && e < |row| && l < |Leaves(row[e].value)|
    ensures var row, table := NormalizeRows(value)[r], Table(Flattened(value));
            && |table| == |NormalizeRows(value)| + 1
            && exists c | 0 <= c < |table[0]| ::
                 && table[0][c] == ColumnPath(row[e].key, Leaves(row[e].value)[l].at)
                 && |table[r + 1]| == |table[0]|
                 && table[r + 1][c] == Leaves(row[e].value)[l].text
  {
    var row, flattened := NormalizeRows(value)[r], Flattened(value);
    var cells := flattened[r];
    SafeRowLosesNothing(row);
    LeafHasACell(row, |row|, e, l);
    var i :| 0 <= i < |cells|
      && cells[i] == (ColumnPath(row[e].key, Leaves(row[e].value)[l].at), Leaves(row[e].value)[l].text);
    DistinctPathDelivers(flattened, r, i);
  }

  /** A cell whose path its row does not repeat is in the table. */
  lemma {:induction false} DistinctPathDelivers(flattened: seq<seq<Cell>>, r: nat, i: nat)
    requires r < |flattened| && i < |flattened[r]| && DistinctPaths(flattened[r])
    ensures var table := Table(flattened);
            && |table| == |flattened| + 1
            && exists c | 0 <= c < |table[0]| ::
               table[0][c] == flattened[r][i].0 && |table[r + 1]| == |table[0]| && table[r + 1][c] == flattened[r][i].1
  {
    var cells, columns := flattened[r], FirstSeen(AllPaths(flattened, |flattened|));
    PathOfRowIsSeen(flattened, r, i, |flattened|);
    var c :| 0 <= c < |columns| && columns[c] == cells[i].0;
    TableEntry(flattened, r, c);
    CellOfIs(cells, columns[c]);
    assert columns[c] !in Paths(cells)[..i];
  }
}
