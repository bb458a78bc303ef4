/**
 * The values an archive category can hold, and the flattening of one record to path/text cells
 * (`flatten`, src/account/export-csv.ts).
 */
module Json {
  import opened Wrappers
  import opened Text

  /** A number carries the text `String(value)` prints; object entries come in `Object.entries` order. */
  datatype Json =
    | Null
    | Undefined
    | Bool(b: bool)
    | Number(printed: string)
    | NotFinite
    | DateTime(iso: string)
    | Str(text: string)
    | Unprintable
    | Arr(items: seq<Json>)
    | Obj(entries: seq<Entry>)

  datatype Entry = Entry(key: string, value: Json)

  predicate IsContainer(v: Json) { v.Arr? || v.Obj? }

  function ScalarToString(v: Json): string {
    match v
    case Bool(b) => if b then "true" else "false"
    case Number(printed) => printed
    case DateTime(iso) => iso
    case Str(text) => text
    case _ => ""
  }

  const SCALAR_ARRAY_JOIN := "; "

  predicate HasContainer(items: seq<Json>) { exists i | 0 <= i < |items| :: IsContainer(items[i]) }

  /** The recursion stops here: a scalar, an empty container, or an array of scalars only. */
  predicate IsLeaf(v: Json) {
    match v
    case Arr(items) => !HasContainer(items)
    case Obj(entries) => entries == []
    case _ => true
  }

  function LeafText(v: Json): string
    requires IsLeaf(v)
  {
    match v
    case Arr(items) => Join(seq(|items|, i requires 0 <= i < |items| => ScalarToString(items[i])), SCALAR_ARRAY_JOIN)
    case Obj(entries) => ""
    case _ => ScalarToString(v)
  }

  /** JavaScript objects cannot repeat a key. */
  predicate DistinctKeys(entries: seq<Entry>) {
    forall i, j | 0 <= i < j < |entries| :: entries[i].key != entries[j].key
  }

  predicate WellFormed(v: Json) {
    match v
    case Arr(items) => forall i | 0 <= i < |items| :: WellFormed(items[i])
    case Obj(entries) => DistinctKeys(entries) && forall i | 0 <= i < |entries| :: WellFormed(entries[i].value)
    case _ => true
  }

  // ---------------------------------------------------------- leaf positions

  datatype Step = Key(key: string) | Index(index: nat)

  datatype Leaf = Leaf(at: seq<Step>, text: string)

  /** The value at a position; a leaf has nothing below it. */
  function At(v: Json, position: seq<Step>): Option<Json>
    decreases |position|
  {
    if position == [] then Some(v)
    else if IsLeaf(v) then None
    else
      match (v, position[0])
      case (Arr(items), Index(i)) => if i < |items| then At(items[i], position[1..]) else None
      case (Obj(entries), Key(k)) =>
        if exists e | 0 <= e < |entries| ::
          entries[e].key == k then At(entries[EntryOf(entries, k)].value, position[1..]) else None
      case _ => None
  }

  function EntryOf(entries: seq<Entry>, key: string): (e: nat)
    requires exists e | 0 <= e < |entries| :: entries[e].key == key
    ensures e < |entries| && entries[e].key == key
  {
    if entries[0].key == key then 0
    else
      assert exists e | 0 <= e < |entries[1..]| :: entries[1..][e].key == key by {
        var e :| 0 <= e < |entries| && entries[e].key == key;
        assert entries[1..][e - 1].key == key;
      }
      1 + EntryOf(entries[1..], key)
  }

  function Under(step: Step, leaves: seq<Leaf>): seq<Leaf> {
    seq(|leaves|, i requires 0 <= i < |leaves| => Leaf([step] + leaves[i].at, leaves[i].text))
  }

  /** The leaves of a value in the order `flatten` visits them. */
  function Leaves(v: Json): seq<Leaf>
    decreases v, 0
  {
    if IsLeaf(v) then [Leaf([], LeafText(v))]
    else
      match v
      case Arr(items) => ItemLeaves(items, |items|)
      case Obj(entries) => EntryLeaves(entries, |entries|)
  }

  function ItemLeaves(items: seq<Json>, n: nat): seq<Leaf>
    requires n <= |items|
    decreases items, n
  {
    if n == 0 then [] else ItemLeaves(items, n - 1) + Under(Index(n - 1), Leaves(items[n - 1]))
  }

  function EntryLeaves(entries: seq<Entry>, n: nat): seq<Leaf>
    requires n <= |entries|
    decreases entries, n
  {
    if n == 0 then [] else EntryLeaves(entries, n - 1) + Under(Key(entries[n - 1].key), Leaves(entries[n - 1].value))
  }

  /** Exactly the positions that hold a leaf are visited, with that leaf's text. */
  lemma {:induction false} LeavesAreTheLeafPositions(v: Json, leaf: Leaf)
    requires WellFormed(v)
    ensures leaf in Leaves(v)
       <==> var found := At(v, leaf.at); found.Some? && IsLeaf(found.value) && leaf.text == LeafText(found.value)
    decreases v, 0
  {
    if IsLeaf(v) {
    } else {
      match v
      case Arr(items) =>
        ItemLeavesArePositions(items, |items|, leaf);
      case Obj(entries) =>
        EntryLeavesArePositions(entries, |entries|, leaf);
        if leaf.at != [] && leaf.at[0].Key? && exists e | 0 <= e < |entries| :: entries[e].key == leaf.at[0].key {
          var e :| 0 <= e < |entries| && entries[e].key == leaf.at[0].key;
          assert e == EntryOf(entries, leaf.at[0].key);
        }
    }
  }

  ghost predicate LeafBelow(v: Json, leaf: Leaf) {
    var found := At(v, leaf.at);
    found.Some? && IsLeaf(found.value) && leaf.text == LeafText(found.value)
  }

  lemma {:induction false} InUnder(step: Step, leaves: seq<Leaf>, leaf: Leaf)
    ensures leaf in Under(step, leaves)
       <==> leaf.at != [] && leaf.at[0] == step && Leaf(leaf.at[1..], leaf.text) in leaves
  {
    if leaf.at != [] && leaf.at[0] == step && Leaf(leaf.at[1..], leaf.text) in leaves {
      var i :| 0 <= i < |leaves| && leaves[i] == Leaf(leaf.at[1..], leaf.text);
      assert Under(step, leaves)[i] == Leaf([step] + leaf.at[1..], leaf.text) == leaf;
    }
    if leaf in Under(step, leaves) {
      var i :| 0 <= i < |leaves| && Under(step, leaves)[i] == leaf;
      assert leaf.at[1..] == leaves[i].at;
      assert leaves[i] == Leaf(leaf.at[1..], leaf.text);
    }
  }

  lemma {:induction false} ItemLeavesArePositions(items: seq<Json>, n: nat, leaf: Leaf)
    requires n <= |items| && (forall i | 0 <= i < |items| :: WellFormed(items[i]))
    ensures leaf in ItemLeaves(items, n)
       <==> leaf.at != [] && leaf.at[0].Index? && leaf.at[0].index < n
            && LeafBelow(items[leaf.at[0].index], Leaf(leaf.at[1..], leaf.text))
    decreases items, n
  {
    if n == 0 {
    } else {
      ItemLeavesArePositions(items, n - 1, leaf);
      InUnder(Index(n - 1), Leaves(items[n - 1]), leaf);
      if leaf.at != [] {
        LeavesAreTheLeafPositions(items[n - 1], Leaf(leaf.at[1..], leaf.text));
      }
    }
  }

  lemma {:induction false} EntryLeavesArePositions(entries: seq<Entry>, n: nat, leaf: Leaf)
    requires n <= |entries| && DistinctKeys(entries) && (forall i | 0 <= i < |entries| :: WellFormed(entries[i].value))
    ensures leaf in EntryLeaves(entries, n)
       <==> leaf.at != [] && leaf.at[0].Key? && exists e | 0 <= e < n ::
            entries[e].key == leaf.at[0].key && LeafBelow(entries[e].value, Leaf(leaf.at[1..], leaf.text))
    decreases entries, n
  {
    if n == 0 {
    } else {
      EntryLeavesArePositions(entries, n - 1, leaf);
      InUnder(Key(entries[n - 1].key), Leaves(entries[n - 1].value), leaf);
      if leaf.at != [] {
        LeavesAreTheLeafPositions(entries[n - 1].value, Leaf(leaf.at[1..], leaf.text));
      }
    }
  }

  ghost predicate DistinctPositions(leaves: seq<Leaf>) {
    forall i, j | 0 <= i < j < |leaves| :: leaves[i].at != leaves[j].at
  }

  lemma {:induction false} LeavesAreDistinct(v: Json)
    requires WellFormed(v)
    ensures DistinctPositions(Leaves(v))
    decreases v, 0
  {
    if IsLeaf(v) {
    } else {
      match v
      case Arr(items) => ItemLeavesAreDistinct(items, |items|);
      case Obj(entries) => EntryLeavesAreDistinct(entries, |entries|);
    }
  }

  lemma {:induction false} UnderIsDistinct(step: Step, leaves: seq<Leaf>)
    requires DistinctPositions(leaves)
    ensures DistinctPositions(Under(step, leaves))
  {
    var under := Under(step, leaves);
    forall i, j | 0 <= i < j < |under| ensures under[i].at != under[j].at {
      assert under[i].at[1..] == leaves[i].at && under[j].at[1..] == leaves[j].at;
    }
  }

  lemma {:induction false} ItemLeavesAreDistinct(items: seq<Json>, n: nat)
    requires n <= |items| && (forall i | 0 <= i < |items| :: WellFormed(items[i]))
    ensures DistinctPositions(ItemLeaves(items, n))
    ensures forall i | 0 <= i < |ItemLeaves(items, n)| ::
              var at := ItemLeaves(items, n)[i].at; at != [] && at[0].Index? && at[0].index < n
    decreases items, n
  {
    if n == 0 {
    } else {
      ItemLeavesAreDistinct(items, n - 1);
      LeavesAreDistinct(items[n - 1]);
      UnderIsDistinct(Index(n - 1), Leaves(items[n - 1]));
    }
  }

  lemma {:induction false} EntryLeavesAreDistinct(entries: seq<Entry>, n: nat)
    requires n <= |entries| && DistinctKeys(entries) && (forall i | 0 <= i < |entries| :: WellFormed(entries[i].value))
    ensures DistinctPositions(EntryLeaves(entries, n))
    ensures forall i | 0 <= i < |EntryLeaves(entries, n)| ::
              var at := EntryLeaves(entries, n)[i].at;
              at != [] && at[0].Key? && exists e | 0 <= e < n :: entries[e].key == at[0].key
    decreases entries, n
  {
    if n == 0 {
    } else {
      EntryLeavesAreDistinct(entries, n - 1);
      LeavesAreDistinct(entries[n - 1].value);
      UnderIsDistinct(Key(entries[n - 1].key), Leaves(entries[n - 1].value));
    }
  }
}
