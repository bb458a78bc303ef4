/** Storage keys of uploads (src/storage/storage-key.ts, src/storage/bare-key.ts). */
module StorageKeys {
  const FILES_PREFIX := "/files/"

  /** A stored reference is the key itself or a `/files/` URL of it. */
  function ToBareKey(value: string): string { if FILES_PREFIX <= value then value[|FILES_PREFIX|..] else value }

  function Split(s: string, separator: char): (parts: seq<string>)
    ensures |parts| > 0
  {
    if s == "" then [""]
    else
      var rest := Split(s[1..], separator);
      if s[0] == separator then [""] + rest else [[s[0]] + rest[0]] + rest[1..]
  }

  predicate IsHex(c: char) { '0' <= c <= '9' || 'a' <= c <= 'f' || 'A' <= c <= 'F' }

  predicate IsUuidSegment(s: string) {
    |s| == 36 && forall i | 0 <= i < 36 :: if i in {8, 13, 18, 23} then s[i] == '-' else IsHex(s[i])
  }

  const PERSONA_SCOPED_PREFIX := "persona"
  const IMAGE_EXTENSIONS := [".jpg", ".png", ".webp", ".gif"]

  /** `persona/<uuid>/<uuid><image extension>`. */
  predicate IsPersonaScopedKey(key: string) {
    var parts := Split(key, '/');
    && |parts| == 3
    && parts[0] == PERSONA_SCOPED_PREFIX
    && IsUuidSegment(parts[1])
    && |parts[2]| > 36
    && IsUuidSegment(parts[2][..36])
    && parts[2][36..] in IMAGE_EXTENSIONS
  }

  // -------------------------------------------------------------------------------- shapes

  lemma {:induction false} SplitWithout(s: string, separator: char)
    requires separator !in s
    ensures Split(s, separator) == [s]
  {
    if s == "" {
    } else {
      SplitWithout(s[1..], separator);
      assert s == [s[0]] + s[1..];
    }
  }

  lemma {:induction false} SplitInTwo(head: string, separator: char, tail: string)
    requires separator !in head
    ensures Split(head + [separator] + tail, separator) == [head] + Split(tail, separator)
  {
    var s := head + [separator] + tail;
    if head == "" {
      assert s[0] == separator && s[1..] == tail;
    } else {
      SplitInTwo(head[1..], separator, tail);
      assert s[0] == head[0] && s[1..] == head[1..] + [separator] + tail;
      assert head == [head[0]] + head[1..];
    }
  }

  predicate AllHex(s: string) {
    forall i | 0 <= i < |s| :: s[i] in "0123456789abcdefABCDEF"
  }

  /** Groups of eight, four, four, four and twelve hexadecimal digits. */
  predicate IsUuid(s: string) {
    && |s| == 36
    && AllHex(s[..8]) && s[8] == '-' && AllHex(s[9..13]) && s[13] == '-' && AllHex(s[14..18]) && s[18] == '-'
    && AllHex(s[19..23]) && s[23] == '-' && AllHex(s[24..])
  }

  lemma {:induction false} HexIff(c: char)
    ensures IsHex(c) <==> c in "0123456789abcdefABCDEF"
  {
  }

  lemma {:induction false} UuidIff(s: string)
    ensures IsUuidSegment(s) <==> IsUuid(s)
  {
    forall i | 0 <= i < |s| ensures IsHex(s[i]) <==> s[i] in "0123456789abcdefABCDEF" {
      HexIff(s[i]);
    }
  }

  lemma {:induction false} SplitInThree(a: string, b: string, c: string)
    requires '/' !in a && '/' !in b && '/' !in c
    ensures Split(a + "/" + b + "/" + c, '/') == [a, b, c]
  {
    assert a + "/" + b + "/" + c == a + ['/'] + (b + ['/'] + c);
    SplitInTwo(a, '/', b + ['/'] + c);
    SplitInTwo(b, '/', c);
    SplitWithout(c, '/');
  }

  /** The keys of persona images among those of three segments, and there are no others. */
  lemma {:induction false} PersonaKeyIff(a: string, b: string, c: string)
    requires '/' !in a && '/' !in b && '/' !in c
    ensures IsPersonaScopedKey(a + "/" + b + "/" + c)
       <==> && a == "persona" && IsUuid(b) && |c| > 36 && IsUuid(c[..36])
            && c[36..] in {".jpg", ".png", ".webp", ".gif"}
  {
    SplitInThree(a, b, c);
    UuidIff(b);
    if |c| > 36 {
      UuidIff(c[..36]);
    }
  }

  /** A stored reference names a key by itself or by its address under `/files/`. */
  lemma {:induction false} BareKeyIs(key: string)
    ensures ToBareKey("/files/" + key) == key
    ensures (key == "" || key[0] != '/') ==> ToBareKey(key) == key
  {
    assert ("/files/" + key)[|FILES_PREFIX|..] == key;
  }
}
