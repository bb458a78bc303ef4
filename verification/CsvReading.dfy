/**
 * What the reader of an archive file finds in it: which characters a field may start with, when a field is
 * quoted, and which record and column hold which value, from the payload to the parsed document.
 */
module CsvReading {
  import opened Wrappers
  import opened Text
  import opened Json
  import opened ColumnPaths
  import opened CsvCell
  import opened CsvArchive

  // --------------------------------------------------------------------- numbers as written

  predicate Digits(s: string) { forall i | 0 <= i < |s| :: '0' <= s[i] <= '9' }

  predicate IsExponent(exponent: string, digits: string) {
    && digits != "" && Digits(digits)
    && exponent in {"e" + digits, "E" + digits, "e+" + digits, "e-" + digits, "E+" + digits, "E-" + digits}
  }

  /** Digits with at most one point and at least one digit, and an optional exponent. */
  ghost predicate IsUnsigned(whole: string, point: string, fraction: string, exponent: string) {
    && Digits(whole) && point in {"", "."} && Digits(fraction)
    && (point == "" ==> fraction == "") && whole + fraction != ""
    && (exponent == "" || exists digits :: IsExponent(exponent, digits))
  }

  lemma {:induction false} DigitsAreDigits(s: string)
    ensures AllDigits(s) <==> Digits(s)
  {
    if AllDigits(s) {
      forall i | 0 <= i < |s| ensures '0' <= s[i] <= '9' {
        assert s[i] in s;
      }
    }
  }

  lemma {:induction false} MantissaIs(whole: string, point: string, fraction: string)
    requires Digits(whole) && point in {"", "."} && Digits(fraction)
    requires (point == "" ==> fraction == "") && whole + fraction != ""
    ensures Mantissa(whole + point + fraction)
  {
    var m := whole + point + fraction;
    DigitsAreDigits(whole);
    DigitsAreDigits(fraction);
    if point == "" {
      assert m == whole;
    } else if whole != "" {
      assert m[|whole|] == '.' && m[..|whole|] == whole && m[|whole| + 1..] == fraction;
    } else {
      assert m[0] == '.' && m[1..] == fraction;
    }
  }

  lemma {:induction false} MantissaParts(m: string) returns (whole: string, point: string, fraction: string)
    requires Mantissa(m)
    ensures m == whole + point + fraction && Digits(whole) && point in {"", "."} && Digits(fraction)
    ensures (point == "" ==> fraction == "") && whole + fraction != ""
  {
    DigitsAreDigits(m);
    if m != "" && AllDigits(m) {
      whole, point, fraction := m, "", "";
    } else if i :| 0 < i < |m| && m[i] == '.' && AllDigits(m[..i]) && AllDigits(m[i + 1..]) {
      whole, point, fraction := m[..i], ".", m[i + 1..];
      DigitsAreDigits(whole);
      DigitsAreDigits(fraction);
      assert m == m[..i] + [m[i]] + m[i + 1..];
    } else {
      whole, point, fraction := "", ".", m[1..];
      DigitsAreDigits(fraction);
      assert m == [m[0]] + m[1..];
    }
  }

  lemma {:induction false} ExponentIff(s: string)
    ensures Exponent(s) <==> s == "" || exists digits :: IsExponent(s, digits)
  {
    if s != "" && Exponent(s) {
      assert s == [s[0]] + s[1..];
      if AllDigits(s[1..]) {
        DigitsAreDigits(s[1..]);
        assert IsExponent(s, s[1..]);
      } else {
        assert s == [s[0], s[1]] + s[2..];
        assert [s[0], s[1]] in {"e+", "e-", "E+", "E-"};
        DigitsAreDigits(s[2..]);
        assert IsExponent(s, s[2..]);
      }
    }
    if digits :| IsExponent(s, digits) {
      DigitsAreDigits(digits);
      if s == "e" + digits || s == "E" + digits {
        assert s[1..] == digits;
      } else {
        assert s[2..] == digits && s[1] in {'+', '-'};
      }
    }
  }

  /** The regular expression matches what is written so, and nothing else. */
  lemma {:induction false} NumberIsNumeric(
      sign: string, whole: string, point: string, fraction: string, exponent: string)
    requires sign in {"", "-"} && IsUnsigned(whole, point, fraction, exponent)
    ensures NumericPattern(sign + (whole + point + fraction + exponent))
  {
    var mantissa := whole + point + fraction;
    var u := mantissa + exponent;
    MantissaIs(whole, point, fraction);
    ExponentIff(exponent);
    assert u[..|mantissa|] == mantissa && u[|mantissa|..] == exponent;
    if sign == "-" {
      assert (sign + u)[1..] == u;
    } else {
      assert u[0] != '-' by {
        assert u[0] == mantissa[0];
      }
      assert sign + u == u;
    }
    assert Unsigned(sign + u) == u;
  }

  lemma {:induction false} NumericIsNumber(s: string)
    returns (sign: string, whole: string, point: string, fraction: string, exponent: string)
    requires NumericPattern(s)
    ensures sign in {"", "-"} && IsUnsigned(whole, point, fraction, exponent)
    ensures s == sign + (whole + point + fraction + exponent)
  {
    var u := Unsigned(s);
    var i :| 0 <= i <= |u| && Mantissa(u[..i]) && Exponent(u[i..]);
    sign := if s != "" && s[0] == '-' then "-" else "";
    assert s == sign + u;
    whole, point, fraction := MantissaParts(u[..i]);
    exponent := u[i..];
    ExponentIff(exponent);
    assert u == u[..i] + u[i..];
  }

  // ------------------------------------------------------------------------- how a cell starts

  /** A value is printed as it is, or behind one apostrophe: exactly when it has such a lead and is no number. */
  lemma {:induction false} PrintedIs(value: string)
    ensures NeutralizeFormula(value)
         == if value != "" && value[0] in {'=', '+', '-', '@', '\t', '\r'} && !NumericPattern(value)
            then "'" + value else value
  {
    NumericScanIsPattern(value);
  }

  /** What starts a printed cell: none of the six, or the sign of a negative number. */
  lemma {:induction false} PrintedStarts(value: string)
    ensures var printed := NeutralizeFormula(value);
            && (printed != "" ==> printed[0] !in {'=', '+', '@', '\t', '\r'})
            && (printed != "" && printed[0] == '-' ==> NumericPattern(printed) && printed == value)
  {
    PrintedIs(value);
    if value != "" && NumericPattern(value) {
      var sign, whole, point, fraction, exponent := NumericIsNumber(value);
      assert value[0] == (if sign == "-" then '-' else (whole + point + fraction)[0]);
    }
  }

  // ------------------------------------------------------------------------------- quoting

  /** The white space `trim` removes, code point by code point. */
  predicate IsBlank(c: char) {
    || '\U{9}' <= c <= '\U{D}' || c == '\U{20}' || c == '\U{A0}' || c == '\U{1680}' || '\U{2000}' <= c <= '\U{200A}'
    || c == '\U{2028}' || c == '\U{2029}' || c == '\U{202F}' || c == '\U{205F}' || c == '\U{3000}' || c == '\U{FEFF}'
  }

  predicate HasMark(s: string) { exists i | 0 <= i < |s| :: s[i] in {'"', ',', '\r', '\n'} }

  lemma {:induction false} BlankIff(c: char)
    ensures IsJsSpace(c) <==> IsBlank(c)
  {
  }

  lemma {:induction false} SpecialIff(s: string)
    ensures HasSpecial(s) <==> HasMark(s)
  {
    if HasSpecial(s) {
      var c :| c in s && c in {'"', ',', '\r', '\n'};
      var i :| 0 <= i < |s| && s[i] == c;
      assert s[i] in {'"', ',', '\r', '\n'};
    }
    if i :| 0 <= i < |s| && s[i] in {'"', ',', '\r', '\n'} {
      assert s[i] in s;
    }
  }

  /** A cell is quoted exactly when the bare text would not survive a reader that splits or trims. */
  lemma {:induction false} QuotedIff(value: string)
    ensures var s := NeutralizeFormula(value);
            && (s == "" ==> EscapeCell(value) == "")
            && (s != "" && !HasMark(s) && !IsBlank(s[0]) && !IsBlank(s[|s| - 1]) ==> EscapeCell(value) == s)
            && (s != "" && (HasMark(s) || IsBlank(s[0]) || IsBlank(s[|s| - 1])) ==>
                  EscapeCell(value) == "\"" + DoubleQuotes(s) + "\"")
  {
    var s := NeutralizeFormula(value);
    SpecialIff(s);
    if s != "" {
      BlankIff(s[0]);
      BlankIff(s[|s| - 1]);
    }
  }

  // ----------------------------------------------------------------------- what a cell holds

  predicate IsScalar(v: Json) { !v.Arr? && !v.Obj? }

  /** The text of a scalar: nothing for what is absent, not finite or not printable. */
  function Shown(v: Json): string {
    if v == Bool(true) then "true"
    else if v == Bool(false) then "false"
    else if v.Str? then v.text
    else if v.Number? then v.printed
    else if v.DateTime? then v.iso
    else ""
  }

  /** The values that are one cell, and what it shows. */
  ghost predicate Shows(v: Json, text: string) {
    || (IsScalar(v) && text == Shown(v))
    || (v == Obj([]) && text == "")
    || (&& v.Arr?
        && (forall i | 0 <= i < |v.items| :: IsScalar(v.items[i]))
        && text == Join(seq(|v.items|, i requires 0 <= i < |v.items| => Shown(v.items[i])), "; "))
  }

  lemma {:induction false} ShownIs(v: Json)
    ensures ScalarToString(v) == Shown(v)
  {
  }

  lemma {:induction false} LeafShows(v: Json, text: string)
    ensures IsLeaf(v) && LeafText(v) == text <==> Shows(v, text)
  {
    if v.Arr? {
      forall i | 0 <= i < |v.items| ensures ScalarToString(v.items[i]) == Shown(v.items[i]) {
        ShownIs(v.items[i]);
      }
      assert seq(|v.items|, i requires 0 <= i < |v.items| => ScalarToString(v.items[i]))
          == seq(|v.items|, i requires 0 <= i < |v.items| => Shown(v.items[i]));
      assert HasContainer(v.items) <==> exists i | 0 <= i < |v.items| :: !IsScalar(v.items[i]);
    } else {
      ShownIs(v);
    }
  }

  // ----------------------------------------------------------------------- what a record is

  /** Record `r` of a category: an item of its array, else its only object, else the value under one column. */
  ghost predicate IsRecord(value: Json, r: nat, row: Row) {
    match value
    case Null => false
    case Undefined => false
    case Arr(items) => r < |items| && row == (if items[r].Obj? then items[r].entries else [Entry("value", items[r])])
    case Obj(entries) => r == 0 && row == entries
    case _ => r == 0 && row == [Entry("value", value)]
  }

  lemma {:induction false} RecordsAre(value: Json, r: nat, row: Row)
    ensures IsRecord(value, r, row) <==> r < |NormalizeRows(value)| && NormalizeRows(value)[r] == row
  {
  }

  // ----------------------------------------------------------------- from payload to document

  function FileOf(value: Json): string { Document(Table(Flattened(value))) }

  /** After the byte-order mark an archive file is a CSV document, and no field of it starts a formula. */
  lemma {:induction false} FieldsAreInert(value: Json)
    ensures FileOf(value) != "" && FileOf(value)[0] == '\U{FEFF}'
    ensures var parsed := ParseDocument(FileOf(value)[1..]);
            && parsed.Some?
            && forall r, c | 0 <= r < |parsed.value| && 0 <= c < |parsed.value[r]| && parsed.value[r][c] != "" ::
                 && parsed.value[r][c][0] !in {'=', '+', '@', '\t', '\r'}
                 && (parsed.value[r][c][0] == '-' ==> NumericPattern(parsed.value[r][c]))
  {
    CsvRoundTrip(value);
    var table := Table(Flattened(value));
    forall r, c | 0 <= r < |table| && 0 <= c < |table[r]|
      ensures NeutralizeTable(table)[r][c] == NeutralizeFormula(table[r][c])
    {
      assert NeutralizeTable(table)[r] == NeutralizeAll(table[r]);
    }
    forall r, c | 0 <= r < |table| && 0 <= c < |table[r]| && NeutralizeTable(table)[r][c] != ""
      ensures NeutralizeTable(table)[r][c][0] !in {'=', '+', '@', '\t', '\r'}
      ensures NeutralizeTable(table)[r][c][0] == '-' ==> NumericPattern(NeutralizeTable(table)[r][c])
    {
      PrintedStarts(table[r][c]);
    }
  }

  lemma {:induction false} LeafIsListed(v: Json, at: seq<Step>, found: Json, text: string) returns (l: nat)
    requires WellFormed(v) && At(v, at) == Some(found) && Shows(found, text)
    ensures l < |Leaves(v)| && Leaves(v)[l] == Leaf(at, text)
  {
    LeafShows(found, text);
    LeavesAreTheLeafPositions(v, Leaf(at, text));
    l :| 0 <= l < |Leaves(v)| && Leaves(v)[l] == Leaf(at, text);
  }

  /** Every value of a record with safe keys is read back in its record, under the column of its position. */
  lemma {:induction false} ValueReadsBack(
      value: Json, r: nat, row: Row, e: nat, at: seq<Step>, found: Json, text: string) returns (c: nat)
    requires IsRecord(value, r, row) && WellFormedRow(row) && SafeRow(row) && e < |row|
    requires At(row[e].value, at) == Some(found) && Shows(found, text)
    ensures FileOf(value) != "" && ParseDocument(FileOf(value)[1..]).Some?
    ensures var parsed := ParseDocument(FileOf(value)[1..]).value;
            && r + 1 < |parsed| && c < |parsed[0]| == |parsed[r + 1]|
            && parsed[0][c] == NeutralizeFormula(ColumnPath(row[e].key, at))
            && parsed[r + 1][c] == NeutralizeFormula(text)
  {
    RecordsAre(value, r, row);
    var l := LeafIsListed(row[e].value, at, found, text);
    EveryLeafIsDelivered(value, r, e, l);
    CsvRoundTrip(value);
    var table := Table(Flattened(value));
    c :| 0 <= c < |table[0]| && table[0][c] == ColumnPath(row[e].key, Leaves(row[e].value)[l].at)
         && |table[r + 1]| == |table[0]| && table[r + 1][c] == Leaves(row[e].value)[l].text;
    NeutralizedAt(table, 0, c);
    NeutralizedAt(table, r + 1, c);
  }

  lemma {:induction false} NeutralizedAt(table: seq<Record>, r: nat, c: nat)
    requires r < |table| && c < |table[r]|
    ensures |NeutralizeTable(table)| == |table| && |NeutralizeTable(table)[r]| == |table[r]|
    ensures NeutralizeTable(table)[r][c] == NeutralizeFormula(table[r][c])
  {
    assert NeutralizeTable(table)[r] == NeutralizeAll(table[r]);
  }

  function RecordCount(value: Json): nat {
    if value.Arr? then |value.items| else if value.Null? || value.Undefined? then 0 else 1
  }

  /** A file without columns is the byte-order mark alone; any other has its header and every record, no more. */
  lemma {:induction false} RecordsAreAllThere(value: Json)
    ensures FileOf(value) != "" && ParseDocument(FileOf(value)[1..]).Some?
    ensures var parsed := ParseDocument(FileOf(value)[1..]).value;
            if parsed == [] then FileOf(value) == "\U{FEFF}" else |parsed| == RecordCount(value) + 1
  {
    CsvRoundTrip(value);
    TableIsRectangular(Flattened(value));
  }
}
