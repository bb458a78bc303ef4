/**
 * One cell of an RFC 4180 document: formula neutralising, quoting, and a parser for the grammar of
 * section 2 of RFC 4180 that reads it back.
 */
module CsvCell {
  import opened Wrappers
  import opened Text

  // ------------------------------------------------------------------ formula neutralising

  predicate FormulaLead(value: string) {
    value != "" && value[0] in {'=', '+', '-', '@', '\t', '\r'}
  }

  predicate AllDigits(s: string) { forall c | c in s :: IsDigit(c) }

  /** The length of the longest run of digits at the start. */
  function DigitRun(s: string): (n: nat)
    ensures n <= |s| && AllDigits(s[..n]) && (n < |s| ==> !IsDigit(s[n]))
  {
    if s == "" || !IsDigit(s[0]) then 0
    else
      var n := 1 + DigitRun(s[1..]);
      assert s[..n] == [s[0]] + s[1..][..n - 1];
      n
  }

  /** `\d+\.?\d*` or `\.\d+`, as the regular expression writes it. */
  ghost predicate Mantissa(s: string) {
    || (s != "" && AllDigits(s))
    || (exists i | 0 < i < |s| :: s[i] == '.' && AllDigits(s[..i]) && AllDigits(s[i + 1..]))
    || (|s| > 1 && s[0] == '.' && AllDigits(s[1..]))
  }

  /** `(?:[eE][+-]?\d+)?`. */
  predicate Exponent(s: string) {
    || s == ""
    || (s[0] in {'e', 'E'} && |s| > 1
        && (AllDigits(s[1..]) || (s[1] in {'+', '-'} && |s| > 2 && AllDigits(s[2..]))))
  }

  function Unsigned(s: string): string { if s != "" && s[0] == '-' then s[1..] else s }

  /** The regular expression: a sign, then some split into a mantissa and an exponent. */
  ghost predicate NumericPattern(s: string) {
    var u := Unsigned(s);
    exists i | 0 <= i <= |u| :: Mantissa(u[..i]) && Exponent(u[i..])
  }

  /** Where the scan of a mantissa stops, or 0 when there is none. */
  function MantissaEnd(u: string): (n: nat)
    ensures n <= |u|
  {
    var whole := DigitRun(u);
    if whole > 0 then
      if whole < |u| && u[whole] == '.' then whole + 1 + DigitRun(u[whole + 1..]) else whole
    else if u != "" && u[0] == '.' && DigitRun(u[1..]) > 0 then 1 + DigitRun(u[1..])
    else 0
  }

  /** NUMERIC, scanned left to right. */
  predicate IsNumeric(s: string) {
    var n := MantissaEnd(Unsigned(s));
    n > 0 && Exponent(Unsigned(s)[n..])
  }

  lemma {:induction false} DigitRunIs(s: string, n: nat)
    requires n <= |s| && AllDigits(s[..n]) && (n < |s| ==> !IsDigit(s[n]))
    ensures DigitRun(s) == n
    decreases n
  {
    if n == 0 {
    } else {
      assert s[..n][0] == s[0];
      assert forall c | c in s[1..][..n - 1] :: c in s[..n];
      DigitRunIs(s[1..], n - 1);
    }
  }

  lemma {:induction false} MantissaEndIsMantissa(u: string)
    ensures MantissaEnd(u) > 0 ==> Mantissa(u[..MantissaEnd(u)])
  {
    var n, whole := MantissaEnd(u), DigitRun(u);
    if whole > 0 && whole < |u| && u[whole] == '.' {
      var m := u[..n];
      assert m[whole] == '.' && m[..whole] == u[..whole] && m[whole + 1..] == u[whole + 1..][..n - whole - 1];
      if n == whole + 1 { assert m[whole + 1..] == ""; }
    } else if whole == 0 && n > 0 {
      assert u[..n][1..] == u[1..][..n - 1];
    }
  }

  /** Whatever split the pattern finds, the scan stops at the same place. */
  lemma {:induction false} MantissaEndIs(u: string, i: nat)
    requires i <= |u| && Mantissa(u[..i]) && Exponent(u[i..])
    ensures MantissaEnd(u) == i
  {
    var m := u[..i];
    assert i < |u| ==> u[i..][0] == u[i];
    if m != "" && AllDigits(m) {
      DigitRunIs(u, i);
    } else if d :| 0 < d < |m| && m[d] == '.' && AllDigits(m[..d]) && AllDigits(m[d + 1..]) {
      assert m[..d] == u[..d] && u[d] == '.';
      DigitRunIs(u, d);
      assert u[d + 1..][..i - d - 1] == m[d + 1..];
      assert i < |u| ==> u[d + 1..][i - d - 1] == u[i];
      DigitRunIs(u[d + 1..], i - d - 1);
    } else {
      assert m[0] == '.' && u[0] == '.';
      DigitRunIs(u, 0);
      assert u[1..][..i - 1] == m[1..];
      assert i < |u| ==> u[1..][i - 1] == u[i];
      DigitRunIs(u[1..], i - 1);
    }
  }

  lemma {:induction false} NumericScanIsPattern(s: string)
    ensures IsNumeric(s) <==> NumericPattern(s)
  {
    var u := Unsigned(s);
    if IsNumeric(s) {
      MantissaEndIsMantissa(u);
      assert Mantissa(u[..MantissaEnd(u)]) && Exponent(u[MantissaEnd(u)..]);
    }
    if i :| 0 <= i <= |u| && Mantissa(u[..i]) && Exponent(u[i..]) {
      MantissaEndIs(u, i);
      assert i > 0;
    }
  }

  function NeutralizeFormula(value: string): string {
    if !FormulaLead(value) || IsNumeric(value) then value else "'" + value
  }

  /** No delivered cell starts like a formula, unless the whole cell is a negative number. */
  lemma {:induction false} NeutralizedIsInert(value: string)
    ensures FormulaLead(NeutralizeFormula(value)) ==> NumericPattern(NeutralizeFormula(value)) && value[0] == '-'
  {
    NumericScanIsPattern(value);
    assert FormulaLead(value) && value[0] != '-' ==> MantissaEnd(Unsigned(value)) == 0;
  }

  /** What neutralising can confuse: a value, and the same value with an apostrophe written before it. */
  lemma {:induction false} NeutralizeConfusesExactly(a: string, b: string)
    requires a != b
    ensures NeutralizeFormula(a) == NeutralizeFormula(b)
       <==> (NeutralizeFormula(a) != a && b == "'" + a) || (NeutralizeFormula(b) != b && a == "'" + b)
  {
    assert ("'" + a)[1..] == a && ("'" + b)[1..] == b;
    assert !FormulaLead("'" + a) && !FormulaLead("'" + b);
  }

  // --------------------------------------------------------------------------- quoting

  /** The characters `String.prototype.trim` removes. */
  predicate IsJsSpace(c: char) {
    c in {'\t', '\n', '\U{0B}', '\U{0C}', '\r', ' ', '\U{A0}', '\U{1680}', '\U{2028}', '\U{2029}', '\U{202F}',
      '\U{205F}', '\U{3000}', '\U{FEFF}'}
    || '\U{2000}' <= c <= '\U{200A}'
  }

  predicate HasSpecial(value: string) { exists c | c in value :: c in {'"', ',', '\r', '\n'} }

  predicate HasOuterSpace(value: string)
    requires value != ""
  {
    IsJsSpace(value[0]) || IsJsSpace(value[|value| - 1])
  }

  function DoubleQuotes(value: string): string {
    if value == "" then ""
    else (if value[0] == '"' then "\"\"" else [value[0]]) + DoubleQuotes(value[1..])
  }

  function EscapeCell(raw: string): string {
    var value := NeutralizeFormula(raw);
    if value == "" then ""
    else if HasSpecial(value) || HasOuterSpace(value) then "\"" + DoubleQuotes(value) + "\""
    else value
  }

  // ------------------------------------------------------------------ the RFC 4180 grammar

  /** Start: a field begins. Bare and Quoted: inside it. Closing: a quote was read inside a quoted field. */
  datatype Mode = Start | Bare | Quoted | Closing

  type Record = seq<string>

  /**
   * Section 2 of RFC 4180: records separated by CRLF with an optional last one, fields separated by
   * commas, a quoted field doubling its quotes; quotes, CR and LF are errors in a bare field.
   */
  function Parse(s: string, mode: Mode, field: string, record: Record, records: seq<Record>): Option<seq<Record>>
    decreases |s|
  {
    if s == "" then
      if mode == Quoted then None
      else if mode == Start && record == [] then Some(records)
      else Some(records + [record + [field]])
    else if mode == Quoted then
      if s[0] == '"' then Parse(s[1..], Closing, field, record, records)
      else Parse(s[1..], Quoted, field + [s[0]], record, records)
    else if s[0] == ',' then Parse(s[1..], Start, "", record + [field], records)
    else if s[0] == '\r' then
      if |s| > 1 && s[1] == '\n' then Parse(s[2..], Start, "", [], records + [record + [field]]) else None
    else if s[0] == '\n' then None
    else if s[0] == '"' then
      match mode
      case Start => Parse(s[1..], Quoted, field, record, records)
      case Bare => None
      case Closing => Parse(s[1..], Quoted, field + "\"", record, records)
    else if mode == Closing then None
    else Parse(s[1..], Bare, field + [s[0]], record, records)
  }

  function ParseDocument(s: string): Option<seq<Record>> { Parse(s, Start, "", [], []) }

  // ---------------------------------------------------------------- reading one cell back

  lemma {:induction false} ParseBare(
      value: string, rest: string, mode: Mode, field: string, record: Record, records: seq<Record>)
    requires !HasSpecial(value)
    requires mode == Bare || (mode == Start && value != "")
    ensures Parse(value + rest, mode, field, record, records) == Parse(rest, Bare, field + value, record, records)
    decreases |value|
  {
    if value == "" {
      assert value + rest == rest && field + value == field;
    } else {
      assert value[0] in value;
      assert (value + rest)[0] == value[0] && (value + rest)[1..] == value[1..] + rest;
      assert field + [value[0]] + value[1..] == field + value;
      assert forall c | c in value[1..] :: c in value;
      ParseBare(value[1..], rest, Bare, field + [value[0]], record, records);
    }
  }

  lemma {:induction false} ParseQuoted(value: string, rest: string, field: string, record: Record, records: seq<Record>)
    ensures Parse(DoubleQuotes(value) + "\"" + rest, Quoted, field, record, records)
         == Parse(rest, Closing, field + value, record, records)
    decreases |value|
  {
    if value == "" {
      assert DoubleQuotes(value) + "\"" + rest == "\"" + rest;
      assert ("\"" + rest)[1..] == rest && field + value == field;
    } else {
      var tail := DoubleQuotes(value[1..]) + "\"" + rest;
      assert field + [value[0]] + value[1..] == field + value;
      if value[0] == '"' {
        assert DoubleQuotes(value) + "\"" + rest == "\"\"" + tail;
        assert ("\"\"" + tail)[1..] == "\"" + tail && ("\"" + tail)[1..] == tail;
      } else {
        assert DoubleQuotes(value) + "\"" + rest == [value[0]] + tail;
        assert ([value[0]] + tail)[1..] == tail;
      }
      ParseQuoted(value[1..], rest, field + [value[0]], record, records);
    }
  }

  /** The mode in which the parser stands after an escaped cell. */
  function ModeAfter(raw: string): Mode {
    var value := NeutralizeFormula(raw);
    if value == "" then Start else if HasSpecial(value) || HasOuterSpace(value) then Closing else Bare
  }

  lemma {:induction false} ParseQuotedCell(value: string, rest: string, record: Record, records: seq<Record>)
    ensures Parse("\"" + DoubleQuotes(value) + "\"" + rest, Start, "", record, records)
         == Parse(rest, Closing, value, record, records)
  {
    var tail := DoubleQuotes(value) + "\"" + rest;
    assert "\"" + DoubleQuotes(value) + "\"" + rest == "\"" + tail;
    assert ("\"" + tail)[1..] == tail;
    ParseQuoted(value, rest, "", record, records);
    assert "" + value == value;
  }

  lemma {:induction false} ParseEscaped(raw: string, rest: string, record: Record, records: seq<Record>)
    ensures Parse(EscapeCell(raw) + rest, Start, "", record, records)
         == Parse(rest, ModeAfter(raw), NeutralizeFormula(raw), record, records)
  {
    var value := NeutralizeFormula(raw);
    if ModeAfter(raw) == Start {
      assert EscapeCell(raw) + rest == rest;
    } else if ModeAfter(raw) == Closing {
      ParseQuotedCell(value, rest, record, records);
    } else {
      ParseBare(value, rest, Start, "", record, records);
      assert "" + value == value;
    }
  }

  lemma {:induction false} ParseComma(rest: string, mode: Mode, field: string, record: Record, records: seq<Record>)
    requires mode != Quoted
    ensures Parse("," + rest, mode, field, record, records) == Parse(rest, Start, "", record + [field], records)
  {
    assert ("," + rest)[1..] == rest;
  }

  lemma {:induction false} ParseCrLf(rest: string, mode: Mode, field: string, record: Record, records: seq<Record>)
    requires mode != Quoted
    ensures Parse("\r\n" + rest, mode, field, record, records)
        == Parse(rest, Start, "", [], records + [record + [field]])
  {
    assert ("\r\n" + rest)[2..] == rest;
  }

  lemma {:induction false} NeverLeftOpen(raw: string)
    ensures ModeAfter(raw) != Quoted
  {
  }

  lemma {:induction false} ParseCellThenComma(raw: string, rest: string, record: Record, records: seq<Record>)
    ensures Parse(EscapeCell(raw) + ("," + rest), Start, "", record, records)
         == Parse(rest, Start, "", record + [NeutralizeFormula(raw)], records)
  {
    var value, mode := NeutralizeFormula(raw), ModeAfter(raw);
    ParseEscaped(raw, "," + rest, record, records);
    NeverLeftOpen(raw);
    ParseComma(rest, mode, value, record, records);
  }

  lemma {:induction false} ParseCellThenEnd(raw: string, rest: string, record: Record, records: seq<Record>)
    ensures Parse(EscapeCell(raw) + ("\r\n" + rest), Start, "", record, records)
         == Parse(rest, Start, "", [], records + [record + [NeutralizeFormula(raw)]])
  {
    var value, mode := NeutralizeFormula(raw), ModeAfter(raw);
    ParseEscaped(raw, "\r\n" + rest, record, records);
    NeverLeftOpen(raw);
    ParseCrLf(rest, mode, value, record, records);
  }

  /** The parser is no more lenient than the grammar. */
  lemma {:induction false} ParserIsStrict(c: char, rest: string, field: string, record: Record, records: seq<Record>)
    ensures Parse("\n" + rest, Bare, field, record, records) == None
    ensures Parse("\"" + rest, Bare, field, record, records) == None
    ensures rest == "" || rest[0] != '\n' ==> Parse("\r" + rest, Bare, field, record, records) == None
    ensures c !in {'"', ',', '\r', '\n'} ==> Parse([c] + rest, Closing, field, record, records) == None
    ensures Parse("", Quoted, field, record, records) == None
    ensures Parse("", Bare, field, record, records) == Some(records + [record + [field]])
    ensures record != [] ==> Parse("", Start, field, record, records) == Some(records + [record + [field]])
  {
    assert ("\r" + rest)[1..] == rest;
  }
}
