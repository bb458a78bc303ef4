/**
 * Which of a member's uploads go into the archive, under which names (`planExportMedia`,
 * src/account/export-media.ts).
 */
module MediaPlan {
  import opened Wrappers
  import opened StorageKeys
  import opened Text
  import opened TextOrder

  const MEDIA_EXPORT_MAX_TOTAL_BYTES: nat := 256 * 1024 * 1024

  datatype StoredObject = StoredObject(key: string, size: nat, lastModified: Option<string>, uploadKind: Option<string>)

  datatype MediaFile = MediaFile(
    name: string,
    storageKey: string,
    uploadKind: Option<string>,
    sizeBytes: nat,
    lastModifiedAt: Option<string>,
    /** Absent on anything but a message upload, where it may be null. */
    messageId: Option<Option<string>>
  )

  datatype Contribution = Contribution(
    objectCount: nat,
    totalBytes: nat,
    includedBytes: nat,
    capBytes: nat,
    files: seq<MediaFile>,
    skippedOverCap: seq<MediaFile>,
    listingError: Option<string>
  )

  // ------------------------------------------------------------------------------ order

  /** The comparator returns a negative number: oldest first, the key breaking ties. */
  predicate Before(x: StoredObject, y: StoredObject) {
    var left, right := x.lastModified.GetOr(""), y.lastModified.GetOr("");
    if left != right then Less(left, right) else Less(x.key, y.key)
  }

  lemma {:induction false} BeforeIsStrictOrder(x: StoredObject, y: StoredObject, z: StoredObject)
    ensures !Before(x, x)
    ensures Before(x, y) && Before(y, z) ==> Before(x, z)
    ensures x.key != y.key ==> Before(x, y) || Before(y, x)
    ensures Before(x, y) ==> !Before(y, x)
  {
    var a, b, c := x.lastModified.GetOr(""), y.lastModified.GetOr(""), z.lastModified.GetOr("");
    LessIrreflexive(x.key);
    LessTotal(x.key, y.key);
    LessTotal(a, b);
    if Before(x, y) && Before(y, z) {
      if a != b && b != c {
        LessTransitive(a, b, c);
        LessIrreflexive(a);
      } else if a == b && b == c {
        LessTransitive(x.key, y.key, z.key);
      }
    }
    if Before(x, y) && Before(y, x) {
      if a != b {
        LessTransitive(a, b, a);
        LessIrreflexive(a);
      } else {
        LessTransitive(x.key, y.key, x.key);
      }
    }
  }

  function Insert(x: StoredObject, sorted: seq<StoredObject>): (r: seq<StoredObject>)
    ensures multiset(r) == multiset(sorted) + multiset{x}
  {
    if sorted == [] then [x]
    else if Before(sorted[0], x) then
      assert sorted == [sorted[0]] + sorted[1..];
      [sorted[0]] + Insert(x, sorted[1..])
    else [x] + sorted
  }

  /** A stable sort: the later of two equal objects is inserted first. */
  function Sorted(objects: seq<StoredObject>): (r: seq<StoredObject>)
    ensures multiset(r) == multiset(objects)
    ensures |r| == |objects|
  {
    if objects == [] then []
    else
      assert objects == [objects[0]] + objects[1..];
      var r := Insert(objects[0], Sorted(objects[1..]));
      assert |multiset(r)| == |multiset(objects)|;
      r
  }

  ghost predicate DistinctKeys(objects: seq<StoredObject>) {
    forall i, j | 0 <= i < j < |objects| :: objects[i].key != objects[j].key
  }

  ghost predicate Ascending(objects: seq<StoredObject>) {
    forall i, j | 0 <= i < j < |objects| :: Before(objects[i], objects[j])
  }

  lemma {:induction false} InsertAscending(x: StoredObject, sorted: seq<StoredObject>)
    requires Ascending(sorted) && forall i | 0 <= i < |sorted| :: sorted[i].key != x.key
    ensures Ascending(Insert(x, sorted))
  {
    if sorted == [] {
    } else {
      forall y, z { BeforeIsStrictOrder(x, y, z); }
      if Before(sorted[0], x) {
        InsertAscending(x, sorted[1..]);
        var rest := Insert(x, sorted[1..]);
        forall i | 0 <= i < |rest| ensures Before(sorted[0], rest[i]) {
          assert rest[i] in multiset(rest);
          assert rest[i] == x || rest[i] in sorted[1..];
        }
      } else {
        forall i | 0 <= i < |sorted| ensures Before(x, sorted[i]) {
          BeforeIsStrictOrder(x, sorted[0], sorted[i]);
        }
      }
    }
  }

  lemma {:induction false} SortedAscending(objects: seq<StoredObject>)
    requires DistinctKeys(objects)
    ensures Ascending(Sorted(objects))
  {
    if objects == [] {
    } else {
      SortedAscending(objects[1..]);
      var sorted := Sorted(objects[1..]);
      forall i | 0 <= i < |sorted| ensures sorted[i].key != objects[0].key {
        assert sorted[i] in multiset(sorted);
        assert sorted[i] in objects[1..];
      }
      InsertAscending(objects[0], sorted);
    }
  }

  /** An ascending arrangement is determined by what it arranges. */
  lemma {:induction false} TailMultiset(a: seq<StoredObject>)
    requires a != []
    ensures multiset(a[1..]) == multiset(a) - multiset{a[0]} && a == [a[0]] + a[1..]
  {
    assert a == [a[0]] + a[1..];
  }

  lemma {:induction false} AscendingUnique(a: seq<StoredObject>, b: seq<StoredObject>)
    requires Ascending(a) && Ascending(b) && multiset(a) == multiset(b)
    ensures a == b
  {
    if a == [] {
      assert |multiset(b)| == 0;
    } else {
      assert |multiset(a)| == |multiset(b)| && b != [];
      assert a[0] in multiset(b) && b[0] in multiset(a);
      if a[0] != b[0] {
        BeforeIsStrictOrder(a[0], b[0], a[0]);
        assert false;
      }
      TailMultiset(a);
      TailMultiset(b);
      AscendingUnique(a[1..], b[1..]);
    }
  }

  // ------------------------------------------------------------------------------ names

  function NonEmpty(parts: seq<string>): seq<string> {
    if parts == [] then [] else (if parts[0] == "" then [] else [parts[0]]) + NonEmpty(parts[1..])
  }

  function MediaEntryNameForKey(key: string): string {
    var segments := NonEmpty(Split(key, '/'));
    if IsPersonaScopedKey(key)
      then PERSONA_SCOPED_PREFIX + "-images/" + (if segments == [] then "file" else segments[|segments| - 1])
    else if segments == [] then "file"
    else if |segments| == 1 then segments[0]
    else segments[0] + "/" + segments[|segments| - 1]
  }

  /** `lastIndexOf('.')`, -1 when absent. */
  function LastDot(s: string): (i: int)
    ensures -1 <= i < |s|
  {
    if s == "" then -1 else if s[|s| - 1] == '.' then |s| - 1 else LastDot(s[..|s| - 1])
  }

  function Stem(name: string): string { if LastDot(name) > 0 then name[..LastDot(name)] else name }

  function Extension(name: string): string { if LastDot(name) > 0 then name[LastDot(name)..] else "" }

  function Candidate(name: string, suffix: nat): string { Stem(name) + "-" + Decimal(suffix) + Extension(name) }

  lemma {:induction false} CandidateInjective(name: string, a: nat, b: nat)
    requires Candidate(name, a) == Candidate(name, b)
    ensures a == b
  {
    var head, tail := Stem(name) + "-", Extension(name);
    var x, y := Decimal(a), Decimal(b);
    assert Candidate(name, a) == head + x + tail && Candidate(name, b) == head + y + tail;
    assert |x| == |y|;
    assert (head + x + tail)[|head|..|head| + |x|] == x;
    assert (head + y + tail)[|head|..|head| + |y|] == y;
    DecimalInjective(a, b);
  }

  /** The suffix the search stops at: the first from `from` on whose name is free. `left` is what it may still meet. */
  function FirstFree(name: string, from: nat, left: set<string>): (suffix: nat)
    ensures from <= suffix
    ensures forall k | from <= k < suffix :: Candidate(name, k) in left
    decreases |left|
  {
    if Candidate(name, from) !in left then from else FirstFree(name, from + 1, left - {Candidate(name, from)})
  }

  lemma {:induction false} FirstFreeIsFree(name: string, from: nat, left: set<string>)
    ensures Candidate(name, FirstFree(name, from, left)) !in left
    decreases |left|
  {
    var probed := Candidate(name, from);
    if probed in left {
      FirstFreeIsFree(name, from + 1, left - {probed});
      var found := FirstFree(name, from + 1, left - {probed});
      if Candidate(name, found) == probed { CandidateInjective(name, found, from); }
    }
  }

  function FreshName(name: string, used: set<string>): string {
    if name !in used then name else Candidate(name, FirstFree(name, 2, used))
  }

  lemma {:induction false} FreshNameIsFresh(name: string, used: set<string>)
    ensures FreshName(name, used) !in used
  {
    FirstFreeIsFree(name, 2, used);
  }

  /** The suffix loop; it ends because the used names are finitely many and the candidates all differ. */
  method UniqueName(name: string, used: set<string>) returns (unique: string)
    ensures unique == FreshName(name, used)
  {
    if name !in used { return name; }
    var suffix := 2;
    ghost var left := used;
    while Candidate(name, suffix) in used
      invariant suffix >= 2
      invariant left <= used && FirstFree(name, 2, used) == FirstFree(name, suffix, left)
      invariant forall k | suffix <= k && Candidate(name, k) in used :: Candidate(name, k) in left
      decreases |left|
    {
      var probed := Candidate(name, suffix);
      forall k | suffix + 1 <= k && Candidate(name, k) in used
        ensures Candidate(name, k) in left - {probed}
      {
        if Candidate(name, k) == probed { CandidateInjective(name, k, suffix); }
      }
      left := left - {probed};
      suffix := suffix + 1;
    }
    unique := Candidate(name, suffix);
  }

  // ------------------------------------------------------------------------------- plan

  /** The upload kind behind each key prefix, and the message that carries each bare key. */
  datatype Lookups = Lookups(kindByPrefix: map<string, string>, messageIds: map<string, string>)

  function UploadKindForStorageKey(key: string, kindByPrefix: map<string, string>): Option<string> {
    var prefix := Split(key, '/')[0];
    if prefix in kindByPrefix then Some(kindByPrefix[prefix]) else None
  }

  function FileFor(upload: StoredObject, name: string, lookups: Lookups): MediaFile {
    var kind := if upload.uploadKind.Some? then upload.uploadKind
      else UploadKindForStorageKey(upload.key, lookups.kindByPrefix);
    var bare := ToBareKey(upload.key);
    var messageId := if kind == Some("message-image") || kind == Some("message-document")
                     then Some(if bare in lookups.messageIds then Some(lookups.messageIds[bare]) else None)
                     else None;
    MediaFile(name, upload.key, kind, upload.size, upload.lastModified, messageId)
  }

  /** The variables of the loop. */
  datatype Progress = Progress(used: set<string>, files: seq<MediaFile>, skipped: seq<MediaFile>, total: nat,
    included: nat)

  /** The file of the next object, named apart from every name in use. */
  function NextFile(used: set<string>, upload: StoredObject, lookups: Lookups): (file: MediaFile)
    ensures file.storageKey == upload.key && file.sizeBytes == upload.size && file.lastModifiedAt == upload.lastModified
    ensures file.name !in used
  {
    var name := FreshName(MediaEntryNameForKey(upload.key), used);
    FreshNameIsFresh(MediaEntryNameForKey(upload.key), used);
    FileFor(upload, name, lookups)
  }

  function Take(p: Progress, file: MediaFile): Progress {
    if p.included + file.sizeBytes > MEDIA_EXPORT_MAX_TOTAL_BYTES
    then Progress(p.used + {file.name}, p.files, p.skipped + [file], p.total + file.sizeBytes, p.included)
    else Progress(p.used + {file.name}, p.files + [file], p.skipped, p.total + file.sizeBytes,
      p.included + file.sizeBytes)
  }

  /** After the first `n` objects. */
  function Walk(sorted: seq<StoredObject>, lookups: Lookups, n: nat): Progress
    requires n <= |sorted|
  {
    if n == 0 then Progress({}, [], [], 0, 0)
    else
      var p := Walk(sorted, lookups, n - 1);
      Take(p, NextFile(p.used, sorted[n - 1], lookups))
  }

  function Plan(objects: seq<StoredObject>, lookups: Lookups): Contribution {
    var p := Walk(Sorted(objects), lookups, |objects|);
    Contribution(|objects|, p.total, p.included, MEDIA_EXPORT_MAX_TOTAL_BYTES, p.files, p.skipped, None)
  }

  method NameAndDescribe(upload: StoredObject, used: set<string>, lookups: Lookups) returns (file: MediaFile)
    ensures file == NextFile(used, upload, lookups)
  {
    var name := UniqueName(MediaEntryNameForKey(upload.key), used);
    file := FileFor(upload, name, lookups);
  }

  /** One turn of the loop: every object is named and counted, and taken only while it fits. */
  method PlaceNext(p: Progress, upload: StoredObject, lookups: Lookups) returns (p': Progress)
    ensures p' == Take(p, NextFile(p.used, upload, lookups))
  {
    var file := NameAndDescribe(upload, p.used, lookups);
    p' := p.(used := p.used + {file.name}, total := p.total + upload.size);
    if p'.included + upload.size > MEDIA_EXPORT_MAX_TOTAL_BYTES {
      p' := p'.(skipped := p'.skipped + [file]);
    } else {
      p' := p'.(included := p'.included + upload.size, files := p'.files + [file]);
    }
  }

  method PlaceAll(sorted: seq<StoredObject>, lookups: Lookups) returns (p: Progress)
    ensures p == Walk(sorted, lookups, |sorted|)
  {
    p := Progress({}, [], [], 0, 0);
    for i := 0 to |sorted|
      invariant p == Walk(sorted, lookups, i)
    {
      p := PlaceNext(p, sorted[i], lookups);
    }
  }

  method PlanExportMedia(objects: seq<StoredObject>, lookups: Lookups) returns (r: Contribution)
    ensures r == Plan(objects, lookups)
  {
    var p := PlaceAll(Sorted(objects), lookups);
    r := Contribution(|objects|, p.total, p.included, MEDIA_EXPORT_MAX_TOTAL_BYTES, p.files, p.skipped, None);
  }

  // ------------------------------------------------------------------------- properties

  /** The listing order of the bucket never shows: the plan is a function of the set of objects. */
  lemma {:induction false} PlanIgnoresListingOrder(
      objects: seq<StoredObject>, listedOtherwise: seq<StoredObject>, lookups: Lookups)
    requires DistinctKeys(objects) && multiset(objects) == multiset(listedOtherwise)
    ensures Plan(objects, lookups) == Plan(listedOtherwise, lookups)
  {
    DistinctKeysOfRearranged(objects, listedOtherwise);
    SortedAscending(objects);
    SortedAscending(listedOtherwise);
    AscendingUnique(Sorted(objects), Sorted(listedOtherwise));
    assert |multiset(objects)| == |multiset(listedOtherwise)|;
  }

  lemma {:induction false} ListedOnce(objects: seq<StoredObject>, x: StoredObject)
    requires DistinctKeys(objects)
    ensures multiset(objects)[x] <= 1
  {
    if objects == [] {
    } else {
      ListedOnce(objects[1..], x);
      assert objects == [objects[0]] + objects[1..];
      assert x == objects[0] ==> x !in objects[1..];
    }
  }

  lemma {:induction false} ListedTwice(objects: seq<StoredObject>, i: nat, j: nat)
    requires i < j < |objects| && objects[i] == objects[j]
    ensures multiset(objects)[objects[i]] >= 2
  {
    assert objects == objects[..j] + [objects[j]] + objects[j + 1..];
    assert objects[..j][i] == objects[i];
  }

  lemma {:induction false} DistinctKeysOfRearranged(objects: seq<StoredObject>, other: seq<StoredObject>)
    requires DistinctKeys(objects) && multiset(objects) == multiset(other)
    ensures DistinctKeys(other)
  {
    forall i, j | 0 <= i < j < |other| ensures other[i].key != other[j].key {
      assert other[i] in multiset(objects) && other[j] in multiset(objects);
      assert other[i].key == other[j].key ==> other[i] == other[j];
      ListedOnce(objects, other[i]);
      if other[i] == other[j] { ListedTwice(other, i, j); }
    }
  }

  function Names(files: seq<MediaFile>): (names: set<string>) { set i | 0 <= i < |files| :: files[i].name }

  predicate NamesDiffer(a: seq<MediaFile>, b: seq<MediaFile>) {
    && (forall i, j | 0 <= i < j < |a| :: a[i].name != a[j].name)
    && (forall i, j | 0 <= i < j < |b| :: b[i].name != b[j].name)
    && (forall i, j | 0 <= i < |a| && 0 <= j < |b| :: a[i].name != b[j].name)
  }

  /** The states the loop passes through, with the file it made in each turn. */
  ghost predicate IsWalk(sorted: seq<StoredObject>, states: seq<Progress>, files: seq<MediaFile>) {
    && |states| == |files| + 1 && |files| <= |sorted|
    && states[0] == Progress({}, [], [], 0, 0)
    && forall i | 0 <= i < |files| ::
         && files[i].storageKey == sorted[i].key && files[i].sizeBytes == sorted[i].size
         && files[i].name !in states[i].used
         && states[i + 1] == Take(states[i], files[i])
  }

  lemma {:induction false} WalkStates(
      sorted: seq<StoredObject>, lookups: Lookups, n: nat) returns (states: seq<Progress>, files: seq<MediaFile>)
    requires n <= |sorted|
    ensures IsWalk(sorted, states, files) && |files| == n && states[n] == Walk(sorted, lookups, n)
  {
    if n == 0 {
      states, files := [Progress({}, [], [], 0, 0)], [];
    } else {
      states, files := WalkStates(sorted, lookups, n - 1);
      files := files + [NextFile(states[n - 1].used, sorted[n - 1], lookups)];
      states := states + [Take(states[n - 1], files[n - 1])];
    }
  }

  /** No two files of the plan share a name, whether included or skipped. */
  lemma {:induction false} PlannedNamesDiffer(
      sorted: seq<StoredObject>, states: seq<Progress>, files: seq<MediaFile>, n: nat)
    requires IsWalk(sorted, states, files) && n < |states|
    ensures NamesKept(states[n])
  {
    if n == 0 {
    } else {
      PlannedNamesDiffer(sorted, states, files, n - 1);
      TakeKeepsNames(states[n - 1], files[n - 1]);
    }
  }

  ghost predicate NamesKept(p: Progress) {
    NamesDiffer(p.files, p.skipped) && Names(p.files) + Names(p.skipped) == p.used
  }

  lemma {:induction false} TakeKeepsNames(p: Progress, file: MediaFile)
    requires NamesKept(p) && file.name !in p.used
    ensures NamesKept(Take(p, file))
  {
    NamesOneMore(p.files, file);
    NamesOneMore(p.skipped, file);
    NamesDifferOneMore(p.files, p.skipped, file);
  }

  lemma {:induction false} NamesDifferOneMore(a: seq<MediaFile>, b: seq<MediaFile>, file: MediaFile)
    requires NamesDiffer(a, b) && file.name !in Names(a) && file.name !in Names(b)
    ensures NamesDiffer(a + [file], b) && NamesDiffer(a, b + [file])
  {
    assert forall i | 0 <= i < |a| :: a[i].name in Names(a);
    assert forall i | 0 <= i < |b| :: b[i].name in Names(b);
  }

  lemma {:induction false} NamesOneMore(files: seq<MediaFile>, file: MediaFile)
    ensures Names(files + [file]) == Names(files) + {file.name}
  {
    var more := files + [file];
    assert more[|files|] == file;
    assert forall i | 0 <= i < |files| :: more[i] == files[i];
    forall name | name in Names(files) + {file.name} ensures name in Names(more) {
      if name in Names(files) {
        var i :| 0 <= i < |files| && files[i].name == name;
        assert more[i].name == name;
      }
    }
  }

  // -- which objects are taken

  /** The bytes of the taken objects among the first `n`. */
  function TakenBytes(sizes: seq<nat>, taken: seq<bool>, n: nat): nat
    requires n <= |sizes| && n <= |taken|
  {
    if n == 0 then 0 else TakenBytes(sizes, taken, n - 1) + if taken[n - 1] then sizes[n - 1] else 0
  }

  /** Taken exactly when it still fits on top of what was taken before it. */
  predicate TakenIfItFits(sizes: seq<nat>, taken: seq<bool>, cap: nat, i: nat)
    requires i < |sizes| == |taken|
  {
    taken[i] <==> TakenBytes(sizes, taken, i) + sizes[i] <= cap
  }

  /** For every object, wherever that leaves gaps. */
  ghost predicate TakesWhatFits(sizes: seq<nat>, taken: seq<bool>, cap: nat) {
    |taken| == |sizes| && forall i | 0 <= i < |sizes| :: TakenIfItFits(sizes, taken, cap, i)
  }

  /** There is one such choice. */
  lemma {:induction false} TakesWhatFitsUnique(sizes: seq<nat>, a: seq<bool>, b: seq<bool>, cap: nat, n: nat)
    requires TakesWhatFits(sizes, a, cap) && TakesWhatFits(sizes, b, cap) && n <= |sizes|
    ensures forall i | 0 <= i < n :: a[i] == b[i]
    ensures TakenBytes(sizes, a, n) == TakenBytes(sizes, b, n)
  {
    if n == 0 {
    } else {
      TakesWhatFitsUnique(sizes, a, b, cap, n - 1);
      assert TakenIfItFits(sizes, a, cap, n - 1) && TakenIfItFits(sizes, b, cap, n - 1);
    }
  }

  /** What the running total of the loop takes. */
  function Running(sizes: seq<nat>, cap: nat, n: nat): nat
    requires n <= |sizes|
  {
    if n == 0 then 0
    else
      var before := Running(sizes, cap, n - 1);
      if before + sizes[n - 1] > cap then before else before + sizes[n - 1]
  }

  function Flags(sizes: seq<nat>, cap: nat): seq<bool> {
    seq(|sizes|, i requires 0 <= i < |sizes| => Running(sizes, cap, i) + sizes[i] <= cap)
  }

  lemma {:induction false} RunningIsTaken(sizes: seq<nat>, cap: nat, n: nat)
    requires n <= |sizes|
    ensures TakenBytes(sizes, Flags(sizes, cap), n) == Running(sizes, cap, n) <= cap
  {
    if n == 0 {
    } else {
      RunningIsTaken(sizes, cap, n - 1);
    }
  }

  lemma {:induction false} FlagsTakeWhatFits(sizes: seq<nat>, cap: nat)
    ensures TakesWhatFits(sizes, Flags(sizes, cap), cap)
  {
    forall i | 0 <= i < |sizes| ensures TakenIfItFits(sizes, Flags(sizes, cap), cap, i) {
      RunningIsTaken(sizes, cap, i);
    }
  }

  /** The keys, among the first `n`, of the objects with the given flag. */
  function Select(keys: seq<string>, taken: seq<bool>, which: bool, n: nat): seq<string>
    requires n <= |keys| == |taken|
  {
    if n == 0 then [] else Select(keys, taken, which, n - 1) + if taken[n - 1] == which then [keys[n - 1]] else []
  }

  function Keys(objects: seq<StoredObject>): seq<string> {
    seq(|objects|, i requires 0 <= i < |objects| => objects[i].key)
  }
  function Sizes(objects: seq<StoredObject>): seq<nat> {
    seq(|objects|, i requires 0 <= i < |objects| => objects[i].size)
  }
  function FileKeys(files: seq<MediaFile>): seq<string> {
    seq(|files|, i requires 0 <= i < |files| => files[i].storageKey)
  }

  function FileBytes(files: seq<MediaFile>): nat {
    if files == [] then 0 else FileBytes(files[..|files| - 1]) + files[|files| - 1].sizeBytes
  }

  function Total(sizes: seq<nat>, n: nat): nat
    requires n <= |sizes|
  {
    if n == 0 then 0 else Total(sizes, n - 1) + sizes[n - 1]
  }

  /** The variables of the loop after `n` objects, in terms of the flags. */
  ghost predicate Accounts(keys: seq<string>, sizes: seq<nat>, p: Progress, n: nat)
    requires n <= |keys| == |sizes|
  {
    var taken := Flags(sizes, MEDIA_EXPORT_MAX_TOTAL_BYTES);
    && FileKeys(p.files) == Select(keys, taken, true, n)
    && FileKeys(p.skipped) == Select(keys, taken, false, n)
    && p.included == Running(sizes, MEDIA_EXPORT_MAX_TOTAL_BYTES, n) == FileBytes(p.files)
    && p.total == Total(sizes, n)
    && |p.files| + |p.skipped| == n
  }

  lemma {:induction false} FilesOneMore(files: seq<MediaFile>, file: MediaFile)
    ensures FileKeys(files + [file]) == FileKeys(files) + [file.storageKey]
    ensures FileBytes(files + [file]) == FileBytes(files) + file.sizeBytes
  {
    assert (files + [file])[..|files|] == files;
  }

  lemma {:induction false} AccountsOneMore(
      keys: seq<string>, sizes: seq<nat>, p: Progress, n: nat, file: MediaFile, p': Progress)
    requires n < |keys| == |sizes| && Accounts(keys, sizes, p, n)
    requires file.storageKey == keys[n] && file.sizeBytes == sizes[n]
    requires p'.total == p.total + sizes[n]
    requires if p.included + sizes[n] > MEDIA_EXPORT_MAX_TOTAL_BYTES
             then p'.files == p.files && p'.skipped == p.skipped + [file] && p'.included == p.included
             else p'.files == p.files + [file] && p'.skipped == p.skipped && p'.included == p.included + sizes[n]
    ensures Accounts(keys, sizes, p', n + 1)
  {
    FilesOneMore(p.files, file);
    FilesOneMore(p.skipped, file);
  }

  lemma {:induction false} WalkAccounts(sorted: seq<StoredObject>, states: seq<Progress>, files: seq<MediaFile>, n: nat)
    requires IsWalk(sorted, states, files) && n < |states|
    ensures Accounts(Keys(sorted), Sizes(sorted), states[n], n)
  {
    if n == 0 {
    } else {
      WalkAccounts(sorted, states, files, n - 1);
      AccountsOneMore(Keys(sorted), Sizes(sorted), states[n - 1], n - 1, files[n - 1], states[n]);
    }
  }

  /**
   * The plan, oldest first: the two lists split the listing by one rule, fitting under the cap on top of
   * what is already in; byte counts are the sums they claim to be.
   */
  lemma {:induction false} PlanSplitsTheListing(objects: seq<StoredObject>, lookups: Lookups) returns (taken: seq<bool>)
    ensures var sorted, plan := Sorted(objects), Plan(objects, lookups);
            && TakesWhatFits(Sizes(sorted), taken, plan.capBytes)
            && FileKeys(plan.files) == Select(Keys(sorted), taken, true, |sorted|)
            && FileKeys(plan.skippedOverCap) == Select(Keys(sorted), taken, false, |sorted|)
            && plan.includedBytes == FileBytes(plan.files) <= plan.capBytes
            && plan.totalBytes == Total(Sizes(sorted), |sorted|)
            && plan.objectCount == |objects| == |plan.files| + |plan.skippedOverCap|
            && NamesDiffer(plan.files, plan.skippedOverCap)
  {
    var sorted := Sorted(objects);
    taken := Flags(Sizes(sorted), MEDIA_EXPORT_MAX_TOTAL_BYTES);
    var states, files := WalkStates(sorted, lookups, |sorted|);
    WalkAccounts(sorted, states, files, |sorted|);
    FlagsTakeWhatFits(Sizes(sorted), MEDIA_EXPORT_MAX_TOTAL_BYTES);
    RunningIsTaken(Sizes(sorted), MEDIA_EXPORT_MAX_TOTAL_BYTES, |sorted|);
    PlannedNamesDiffer(sorted, states, files, |sorted|);
  }

  // --------------------------------------------------------------------- which come first

  function ModifiedText(upload: StoredObject): string {
    match upload.lastModified
    case None => ""
    case Some(text) => text
  }

  /**
   * The objects are walked oldest first: of two of them the one walked earlier has the smaller date at the first
   * place where the dates differ, an absent date being empty, or the smaller key on equal dates.
   */
  lemma {:induction false} WalkedOldestFirst(objects: seq<StoredObject>, i: nat, j: nat)
    requires forall a, b | 0 <= a < b < |objects| :: objects[a].key != objects[b].key
    requires i < j < |objects|
    ensures var x, y := Sorted(objects)[i], Sorted(objects)[j];
            if ModifiedText(x) == ModifiedText(y) then exists n :: PartsAt(x.key, y.key, n)
            else exists n :: PartsAt(ModifiedText(x), ModifiedText(y), n)
  {
    SortedAscending(objects);
    var x, y := Sorted(objects)[i], Sorted(objects)[j];
    assert Before(x, y);
    LessIff(x.key, y.key);
    LessIff(ModifiedText(x), ModifiedText(y));
  }

  // ---------------------------------------------------------------------- what a file is called

  /** An upload is filed by its kind under its own name, without its owner; persona images have a folder. */
  lemma {:induction false} UploadIsNamed(kind: string, owner: string, file: string)
    requires kind != "" && owner != "" && file != "" && '/' !in kind && '/' !in owner && '/' !in file
    ensures var key := kind + "/" + owner + "/" + file;
            MediaEntryNameForKey(key)
              == (if IsPersonaScopedKey(key) then "persona-images" else kind) + "/" + file
  {
    SplitInThree(kind, owner, file);
    ThreeSegments(kind, owner, file);
  }

  lemma {:induction false} ThreeSegments(a: string, b: string, c: string)
    requires a != "" && b != "" && c != ""
    ensures NonEmpty([a, b, c]) == [a, b, c]
  {
    assert [a, b, c][1..] == [b, c] && [b, c][1..] == [c];
    assert NonEmpty([c]) == [c];
  }

  lemma {:induction false} LastDotIs(s: string, i: int)
    requires -1 <= i < |s| && (i >= 0 ==> s[i] == '.') && forall k | i < k < |s| :: s[k] != '.'
    ensures LastDot(s) == i
  {
    if s == "" || i == |s| - 1 {
    } else {
      LastDotIs(s[..|s| - 1], i);
    }
  }

  /** A name in use gets the first number from 2 that makes it free, before its extension if it has one. */
  lemma {:induction false} RepeatedName(stem: string, extension: string, used: set<string>) returns (k: nat)
    requires stem != "" && '.' !in extension && stem + "." + extension in used
    ensures k >= 2 && FreshName(stem + "." + extension, used) == stem + "-" + Decimal(k) + "." + extension
    ensures stem + "-" + Decimal(k) + "." + extension !in used
    ensures forall i | 2 <= i < k :: stem + "-" + Decimal(i) + "." + extension in used
  {
    var name := stem + "." + extension;
    LastDotIs(name, |stem|);
    assert Stem(name) == stem && Extension(name) == "." + extension;
    forall i: nat ensures Candidate(name, i) == stem + "-" + Decimal(i) + "." + extension {
      assert stem + "-" + Decimal(i) + ("." + extension) == stem + "-" + Decimal(i) + "." + extension;
    }
    k := FirstFree(name, 2, used);
    FirstFreeIsFree(name, 2, used);
  }

  /** What a file says of its upload: its kind, given or by the folder of its key, and the message it is in. */
  lemma {:induction false} FileSays(folder: string, rest: string, upload: StoredObject, name: string, lookups: Lookups)
    requires '/' !in folder && upload.key == folder + "/" + rest
    ensures var file := FileFor(upload, name, lookups);
            && file.name == name && file.storageKey == upload.key && file.sizeBytes == upload.size
            && file.lastModifiedAt == upload.lastModified
            && file.uploadKind == (if upload.uploadKind.Some? then upload.uploadKind
                                   else if folder in lookups.kindByPrefix then Some(lookups.kindByPrefix[folder])
                                   else None)
            && (file.messageId.Some? <==> file.uploadKind in {Some("message-image"), Some("message-document")})
            && (file.messageId.Some? && folder != "" ==>
                  file.messageId.value == if upload.key in lookups.messageIds then Some(lookups.messageIds[upload.key])
                                          else None)
  {
    assert upload.key == folder + ['/'] + rest;
    SplitInTwo(folder, '/', rest);
    assert folder != "" ==> upload.key[0] != '/' && FILES_PREFIX[0] == '/';
  }

  /** Segments between slashes count only if there is something in them. */
  lemma {:induction false} SegmentsAre(parts: seq<string>)
    ensures |NonEmpty(parts)| <= |parts|
    ensures forall part :: part in NonEmpty(parts) <==> part in parts && part != ""
  {
    if parts == [] {
    } else {
      SegmentsAre(parts[1..]);
      assert parts == [parts[0]] + parts[1..];
    }
  }

  /** Without an extension, and a name that only starts with a dot has none, the number comes last. */
  lemma {:induction false} RepeatedBareName(name: string, used: set<string>) returns (k: nat)
    requires name != "" && '.' !in name[1..] && name in used
    ensures k >= 2 && FreshName(name, used) == name + "-" + Decimal(k)
    ensures name + "-" + Decimal(k) !in used && forall i | 2 <= i < k :: name + "-" + Decimal(i) in used
  {
    forall j | 0 < j < |name| ensures name[j] != '.' {
      assert name[j] == name[1..][j - 1];
    }
    LastDotIs(name, if name[0] == '.' then 0 else -1);
    forall i: nat ensures Candidate(name, i) == name + "-" + Decimal(i) {
    }
    k := FirstFree(name, 2, used);
    FirstFreeIsFree(name, 2, used);
  }

  /** No two files of a plan have one name, whichever of the two lists they are in. */
  lemma {:induction false} PlannedNamesAreApart(objects: seq<StoredObject>, lookups: Lookups, i: nat, j: nat)
    requires var all := Plan(objects, lookups).files + Plan(objects, lookups).skippedOverCap;
             i < |all| && j < |all| && i != j
    ensures var all := Plan(objects, lookups).files + Plan(objects, lookups).skippedOverCap;
            all[i].name != all[j].name
  {
    var taken := PlanSplitsTheListing(objects, lookups);
  }

  /** The ceiling of an archive is 256 MiB of files. */
  lemma {:induction false} CeilingIs(objects: seq<StoredObject>, lookups: Lookups)
    ensures var plan := Plan(objects, lookups);
            plan.includedBytes <= plan.capBytes == 268_435_456 && plan.listingError.None?
  {
    var taken := PlanSplitsTheListing(objects, lookups);
  }

  lemma {:induction false} NoSegments(parts: seq<string>)
    requires forall i | 0 <= i < |parts| :: parts[i] == ""
    ensures NonEmpty(parts) == []
  {
    if parts == [] {
    } else {
      NoSegments(parts[1..]);
    }
  }

  /** A key without a segment still has a name. */
  lemma {:induction false} NamelessIs(key: string)
    requires forall i | 0 <= i < |Split(key, '/')| :: Split(key, '/')[i] == ""
    ensures MediaEntryNameForKey(key) == "file"
  {
    NoSegments(Split(key, '/'));
  }
}
