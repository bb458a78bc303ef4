/** The `<` of JavaScript strings, character by character, and a stable sort by a strict total order. */
module TextOrder {

  predicate Less(a: string, b: string) {
    b != "" && (a == "" || a[0] < b[0] || (a[0] == b[0] && Less(a[1..], b[1..])))
  }

  lemma {:induction false} LessIrreflexive(a: string)
    ensures !Less(a, a)
  {
    if a == "" {
    } else {
      LessIrreflexive(a[1..]);
    }
  }

  lemma {:induction false} LessTransitive(a: string, b: string, c: string)
    requires Less(a, b) && Less(b, c)
    ensures Less(a, c)
  {
    if a != "" && a[0] == b[0] && b[0] == c[0] {
      LessTransitive(a[1..], b[1..], c[1..]);
    }
  }

  lemma {:induction false} LessTotal(a: string, b: string)
    ensures a == b || Less(a, b) || Less(b, a)
  {
    if a != "" && b != "" && a[0] == b[0] {
      LessTotal(a[1..], b[1..]);
      assert a == [a[0]] + a[1..] && b == [b[0]] + b[1..];
    }
  }

  /** `a` and `b` agree up to `n`, and there `a` ends or has the smaller character. */
  predicate PartsAt(a: string, b: string, n: nat) {
    n <= |a| && n < |b| && a[..n] == b[..n] && (n == |a| || a[n] < b[n])
  }

  /** The order is decided at the first place where the two texts differ. */
  lemma {:induction false} LessIff(a: string, b: string)
    ensures Less(a, b) <==> exists n :: PartsAt(a, b, n)
  {
    if a != "" && b != "" && a[0] == b[0] {
      LessIff(a[1..], b[1..]);
      if n: nat :| PartsAt(a[1..], b[1..], n) {
        assert n + 1 <= |a| && n + 1 < |b|;
        assert a[..n + 1] == [a[0]] + a[1..][..n] && b[..n + 1] == [b[0]] + b[1..][..n];
        assert PartsAt(a, b, n + 1);
      }
      if n: nat :| PartsAt(a, b, n) {
        assert a[1..][..n - 1] == a[..n][1..] && b[1..][..n - 1] == b[..n][1..];
        assert PartsAt(a[1..], b[1..], n - 1);
      }
    } else if Less(a, b) {
      assert PartsAt(a, b, 0);
    } else if a != "" && b != "" {
      forall n: nat | PartsAt(a, b, n) ensures n == 0 {
        assert forall i | 0 <= i < n :: a[..n][i] == a[i] && b[..n][i] == b[i];
      }
    }
  }
}
