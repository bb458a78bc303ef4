/**
 * Column paths: the text `flatten` builds for a leaf position (src/account/export-csv.ts), and the keys under
 * which it names the position uniquely. Every text is the path of exactly one position with safe keys.
 */
module ColumnPaths {
  import opened Text
  import opened Json

  function RenderStep(step: Step): string {
    match step
    case Key(key) => "." + key
    case Index(index) => "[" + Decimal(index) + "]"
  }

  function Render(at: seq<Step>): string {
    if at == [] then "" else RenderStep(at[0]) + Render(at[1..])
  }

  /** The column of a leaf: the record's own key, then the steps below it. */
  function ColumnPath(root: string, at: seq<Step>): string { root + Render(at) }

  ghost predicate EndsInIndex(key: string) {
    exists before: string, index: nat :: key == before + ("[" + Decimal(index) + "]")
  }

  /** No dot, and no array index at its end. A bracket anywhere else does no harm. */
  ghost predicate SafeKey(key: string) { '.' !in key && !EndsInIndex(key) }

  ghost predicate SafeSteps(at: seq<Step>) { forall i | 0 <= i < |at| && at[i].Key? :: SafeKey(at[i].key) }

  ghost predicate SafePosition(root: string, at: seq<Step>) { SafeKey(root) && SafeSteps(at) }

  // ------------------------------------------------------------------------ the last step

  lemma {:induction false} RenderLast(at: seq<Step>, step: Step)
    ensures Render(at + [step]) == Render(at) + RenderStep(step)
  {
    if at == [] {
      RenderOne(step);
      assert at + [step] == [step];
    } else {
      RenderLast(at[1..], step);
      RenderFirst(at[0], at[1..] + [step]);
      assert at + [step] == [at[0]] + (at[1..] + [step]);
      Regroup(RenderStep(at[0]), Render(at[1..]), RenderStep(step));
    }
  }

  lemma {:induction false} RenderOne(step: Step)
    ensures Render([step]) == "" + RenderStep(step)
  {
    assert [step][1..] == [];
  }

  lemma {:induction false} RenderFirst(step: Step, at: seq<Step>)
    ensures Render([step] + at) == RenderStep(step) + Render(at)
  {
    assert ([step] + at)[1..] == at;
  }

  lemma {:induction false} Regroup(a: string, b: string, c: string)
    ensures a + (b + c) == a + b + c
  {
  }

  lemma {:induction false} PathLast(root: string, at: seq<Step>)
    requires at != []
    ensures ColumnPath(root, at) == ColumnPath(root, at[..|at| - 1]) + RenderStep(at[|at| - 1])
  {
    var init, last := at[..|at| - 1], at[|at| - 1];
    assert at == init + [last];
    RenderLast(init, last);
    Regroup(root, Render(init), RenderStep(last));
  }

  lemma {:induction false} IndexHasNoDot(index: nat)
    ensures '.' !in RenderStep(Index(index)) && '[' !in Decimal(index) + "]"
  {
  }

  /** After an index the last step reads back as that index. */
  lemma {:induction false} IndexReadsBack(p: string, m: nat, q: string, n: nat)
    requires p + RenderStep(Index(m)) == q + RenderStep(Index(n))
    ensures p == q && m == n
  {
    IndexHasNoDot(m);
    IndexHasNoDot(n);
    assert p + RenderStep(Index(m)) == p + ['['] + (Decimal(m) + "]");
    assert q + RenderStep(Index(n)) == q + ['['] + (Decimal(n) + "]");
    SplitAtLast(p, q, '[', Decimal(m) + "]", Decimal(n) + "]");
    assert (Decimal(m) + "]")[..|Decimal(m)|] == Decimal(m);
    assert (Decimal(n) + "]")[..|Decimal(n)|] == Decimal(n);
    DecimalInjective(m, n);
  }

  lemma {:induction false} KeyReadsBack(p: string, k: string, q: string, l: string)
    requires '.' !in k && '.' !in l && p + RenderStep(Key(k)) == q + RenderStep(Key(l))
    ensures p == q && k == l
  {
    assert p + RenderStep(Key(k)) == p + ['.'] + k;
    assert q + RenderStep(Key(l)) == q + ['.'] + l;
    SplitAtLast(p, q, '.', k, l);
  }

  lemma {:induction false} DotComesBefore(p: string, tail: string, q: string, k: string)
    requires p + tail == q + ("." + k) && '.' !in tail
    ensures |q| < |p| && k == p[|q| + 1..] + tail
  {
    if |p| <= |q| {
      DotOccurs(p, tail, q, k);
    } else {
      assert (q + ("." + k))[|q| + 1..] == k;
      assert (p + tail)[|q| + 1..] == p[|q| + 1..] + tail;
    }
  }

  lemma {:induction false} DotOccurs(p: string, tail: string, q: string, k: string)
    requires p + tail == q + ("." + k) && |p| <= |q|
    ensures '.' in tail
  {
    assert (q + ("." + k))[|q|] == '.';
    assert (p + tail)[|q|] == tail[|q| - |p|];
  }

  lemma {:induction false} IndexIsNoKey(p: string, n: nat, q: string, k: string)
    requires p + RenderStep(Index(n)) == q + RenderStep(Key(k)) && '.' !in k
    ensures EndsInIndex(k)
  {
    IndexHasNoDot(n);
    DotComesBefore(p, RenderStep(Index(n)), q, k);
    assert k == p[|q| + 1..] + ("[" + Decimal(n) + "]");
  }

  /** A safe record key is the path of no deeper position. */
  lemma {:induction false} SafeKeyIsNoPath(key: string, p: string, step: Step)
    requires SafeKey(key)
    ensures key != p + RenderStep(step)
  {
    match step
    case Key(k) => assert (p + RenderStep(step))[|p|] == '.';
    case Index(n) =>
  }

  lemma {:induction false} LastStepReadsBack(p: string, a: Step, q: string, b: Step)
    requires (a.Key? ==> SafeKey(a.key)) && (b.Key? ==> SafeKey(b.key))
    requires p + RenderStep(a) == q + RenderStep(b)
    ensures p == q && a == b
  {
    match (a, b)
    case (Key(k), Key(l)) => KeyReadsBack(p, k, q, l);
    case (Index(m), Index(n)) => IndexReadsBack(p, m, q, n);
    case (Index(n), Key(k)) => IndexIsNoKey(p, n, q, k);
    case (Key(k), Index(n)) => IndexIsNoKey(q, n, p, k);
  }

  // --------------------------------------------------------------------------- uniqueness

  /** Two safe positions with one path are one position. */
  lemma {:induction false} ColumnPathInjective(root: string, root': string, at: seq<Step>, at': seq<Step>)
    requires SafePosition(root, at) && SafePosition(root', at')
    requires ColumnPath(root, at) == ColumnPath(root', at')
    ensures root == root' && at == at'
    decreases |at|
  {
    if at == [] && at' == [] {
      assert root + "" == root && root' + "" == root';
    } else if at == [] {
      assert root + "" == root;
      PathLast(root', at');
      SafeKeyIsNoPath(root, ColumnPath(root', at'[..|at'| - 1]), at'[|at'| - 1]);
    } else if at' == [] {
      assert root' + "" == root';
      PathLast(root, at);
      SafeKeyIsNoPath(root', ColumnPath(root, at[..|at| - 1]), at[|at| - 1]);
    } else {
      var init, init' := at[..|at| - 1], at'[..|at'| - 1];
      PathLast(root, at);
      PathLast(root', at');
      LastStepReadsBack(ColumnPath(root, init), at[|at| - 1], ColumnPath(root', init'), at'[|at'| - 1]);
      ColumnPathInjective(root, root', init, init');
      assert at == init + [at[|at| - 1]] && at' == init' + [at'[|at'| - 1]];
    }
  }

  // ---------------------------------------------------------------------------- existence

  /** Any key with a dot inside has the path of a nested key. */
  lemma {:induction false} DottedKeyMerges(before: string, after: string)
    ensures ColumnPath(before + "." + after, []) == ColumnPath(before, [Key(after)])
  {
    assert Render([Key(after)]) == "." + after + Render([]);
    assert before + "." + after + "" == before + ("." + after + "");
  }

  /** And any key that ends like an array index has that of an array item. */
  lemma {:induction false} IndexedKeyMerges(before: string, index: nat)
    ensures ColumnPath(before + "[" + Decimal(index) + "]", []) == ColumnPath(before, [Index(index)])
  {
    assert Render([Index(index)]) == "[" + Decimal(index) + "]" + Render([]);
    assert before + "[" + Decimal(index) + "]" + "" == before + ("[" + Decimal(index) + "]" + "");
  }

  lemma {:induction false} LastDot(path: string) returns (i: nat)
    requires '.' in path
    ensures i < |path| && path[i] == '.' && '.' !in path[i + 1..]
  {
    var n := |path| - 1;
    if path[n] == '.' {
      i := n;
    } else {
      assert path == path[..n] + [path[n]];
      i := LastDot(path[..n]);
      assert path[i + 1..] == path[..n][i + 1..] + [path[n]];
    }
  }

  lemma {:induction false} TailEndsInIndex(head: string, tail: string)
    requires EndsInIndex(tail)
    ensures EndsInIndex(head + tail)
  {
    var before: string, index: nat :| tail == before + ("[" + Decimal(index) + "]");
    assert head + tail == (head + before) + ("[" + Decimal(index) + "]");
  }

  lemma {:induction false} SafeStepsOneMore(at: seq<Step>, step: Step)
    requires SafeSteps(at) && (step.Key? ==> SafeKey(step.key))
    ensures SafeSteps(at + [step])
  {
  }

  /** Every text is the path of a safe position. */
  lemma {:induction false} EveryPathIsSafe(path: string) returns (root: string, at: seq<Step>)
    ensures SafePosition(root, at) && ColumnPath(root, at) == path
    decreases |path|
  {
    if EndsInIndex(path) {
      var before: string, index: nat :| path == before + ("[" + Decimal(index) + "]");
      var init;
      root, init := EveryPathIsSafe(before);
      at := init + [Index(index)];
      SafeStepsOneMore(init, Index(index));
      PathLast(root, at);
      assert at[..|init|] == init;
    } else if '.' in path {
      var i := LastDot(path);
      var key := path[i + 1..];
      assert path == path[..i + 1] + key && path == path[..i] + ("." + key);
      if EndsInIndex(key) {
        TailEndsInIndex(path[..i + 1], key);
      }
      var init;
      root, init := EveryPathIsSafe(path[..i]);
      at := init + [Key(key)];
      SafeStepsOneMore(init, Key(key));
      PathLast(root, at);
      assert at[..|init|] == init;
    } else {
      root, at := path, [];
      assert path + "" == path;
    }
  }

  // ------------------------------------------------------------------------ the exact class

  /** Another position, one with safe keys only, has the same column. */
  ghost predicate HasSafeTwin(root: string, at: seq<Step>) {
    exists root', at' ::
      SafePosition(root', at') && ColumnPath(root', at') == ColumnPath(root, at) && (root' != root || at' != at)
  }

  /** No two safe positions share a column, and every unsafe one shares its column with a safe one. */
  lemma {:induction false} HasSafeTwinIffUnsafe(root: string, at: seq<Step>)
    ensures HasSafeTwin(root, at) <==> !SafePosition(root, at)
  {
    if SafePosition(root, at) && HasSafeTwin(root, at) {
      var root', at' :| SafePosition(root', at') && ColumnPath(root', at') == ColumnPath(root, at)
                        && (root' != root || at' != at);
      ColumnPathInjective(root, root', at, at');
    }
    if !SafePosition(root, at) {
      var root', at' := EveryPathIsSafe(ColumnPath(root, at));
      assert root' != root || at' != at;
    }
  }
}
