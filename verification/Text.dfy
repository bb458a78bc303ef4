/** Decimal text, lists of texts, and where a delimiter splits a string. */
module Text {

  predicate IsDigit(c: char) { '0' <= c <= '9' }

  function DigitChar(d: nat): (c: char)
    requires d < 10
    ensures IsDigit(c)
  {
    ('0' as int + d) as char
  }

  /** A JavaScript template rendering of a natural number. */
  function Decimal(n: nat): (s: string)
    ensures |s| > 0
    ensures forall c | c in s :: IsDigit(c)
  {
    if n < 10 then [DigitChar(n)] else Decimal(n / 10) + [DigitChar(n % 10)]
  }

  function DecimalValue(s: string): int {
    if s == "" then 0 else 10 * DecimalValue(s[..|s| - 1]) + (s[|s| - 1] as int - '0' as int)
  }

  lemma {:induction false} DecimalRoundTrip(n: nat)
    ensures DecimalValue(Decimal(n)) == n
  {
    if n >= 10 {
      DecimalRoundTrip(n / 10);
      assert Decimal(n)[..|Decimal(n)| - 1] == Decimal(n / 10);
    } else {
      assert Decimal(n)[..0] == "";
    }
  }

  lemma {:induction false} DecimalInjective(a: nat, b: nat)
    requires Decimal(a) == Decimal(b)
    ensures a == b
  {
    DecimalRoundTrip(a);
    DecimalRoundTrip(b);
  }

  predicate NoRepeats(texts: seq<string>) { forall i, j | 0 <= i < j < |texts| :: texts[i] != texts[j] }

  function Join(parts: seq<string>, separator: string): string {
    if parts == [] then ""
    else if |parts| == 1 then parts[0]
    else parts[0] + separator + Join(parts[1..], separator)
  }

  function Mapped(f: string -> string, parts: seq<string>): seq<string> {
    seq(|parts|, i requires 0 <= i < |parts| => f(parts[i]))
  }

  lemma {:induction false} MappedInTwo(f: string -> string, parts: seq<string>)
    requires |parts| > 0
    ensures |Mapped(f, parts)| == |parts| && Mapped(f, parts)[0] == f(parts[0])
        && Mapped(f, parts)[1..] == Mapped(f, parts[1..])
  {
  }

  lemma {:induction false} JoinInTwo(parts: seq<string>, separator: string)
    requires |parts| > 1
    ensures Join(parts, separator) == parts[0] + separator + Join(parts[1..], separator)
  {
  }

  lemma {:induction false} OccursInTheTail(x: string, y: string, c: char, a: string, b: string)
    requires x + [c] + a == y + [c] + b && |x| < |y|
    ensures c in a
  {
    assert (y + [c] + b)[|y|] == c;
    assert (x + [c] + a)[|y|] == a[|y| - |x| - 1];
  }

  /** A string splits in one way only at its last `c`. */
  lemma {:induction false} SplitAtLast(x: string, y: string, c: char, a: string, b: string)
    requires x + [c] + a == y + [c] + b && c !in a && c !in b
    ensures x == y && a == b
  {
    if |x| < |y| {
      OccursInTheTail(x, y, c, a, b);
    } else if |y| < |x| {
      OccursInTheTail(y, x, c, b, a);
    } else {
      assert (x + [c] + a)[..|x|] == x && (x + [c] + a)[|x| + 1..] == a;
      assert (y + [c] + b)[..|y|] == y && (y + [c] + b)[|y| + 1..] == b;
    }
  }
}
