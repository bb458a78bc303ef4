/**
 * The names inside one zip. `waitForEntry` (src/account/account.controller.ts) knows an entry by its name alone,
 * so here is when they differ: exactly, for any job, and for a job whose media the export planned.
 */
module ArchiveNames {
  import opened Wrappers
  import opened Text
  import opened StorageKeys
  import Json
  import opened MediaPlan
  import opened MediaDelivery

  const MANIFEST := "manifest.json"
  const MEDIA_MANIFEST := "media/manifest.json"
  const EXPORT_BASE := "queerpulse-export-"

  function NamesOf(entries: seq<Entry>): seq<string> {
    seq(|entries|, i requires 0 <= i < |entries| => entries[i].name)
  }

  /** The entries appended and, after them, the media manifest. */
  function ZipNames(entries: seq<Entry>, media: Option<Contribution>): seq<string> {
    NamesOf(entries) + if media.Some? then [MEDIA_MANIFEST] else []
  }

  // ------------------------------------------------------------------------- the five parts

  /** The categories the payload holds. */
  function Present(categories: seq<string>, data: map<string, Json.Json>, n: nat): seq<string>
    requires n <= |categories|
  {
    if n == 0 then []
    else Present(categories, data, n - 1) + if categories[n - 1] in data then [categories[n - 1]] else []
  }

  function CsvNames(present: seq<string>): seq<string> {
    seq(|present|, i requires 0 <= i < |present| => present[i] + ".csv")
  }

  function MediaNames(files: seq<MediaFile>): seq<string> {
    seq(|files|, i requires 0 <= i < |files| => "media/" + files[i].name)
  }

  function OnlyIf(c: bool, name: string): seq<string> { if c then [name] else [] }

  lemma {:induction false} NamesOfTwo(a: seq<Entry>, b: seq<Entry>)
    ensures NamesOf(a + b) == NamesOf(a) + NamesOf(b)
  {
  }

  lemma {:induction false} CsvNamesOneMore(entries: seq<Entry>, present: seq<string>, entry: Entry, category: string)
    requires NamesOf(entries) == CsvNames(present) && entry.name == category + ".csv"
    ensures NamesOf(entries + [entry]) == CsvNames(present + [category])
  {
    assert NamesOf([entry]) == [category + ".csv"];
    NamesOfTwo(entries, [entry]);
    assert CsvNames(present + [category]) == CsvNames(present) + [category + ".csv"];
  }

  lemma {:induction false} CsvEntryIsNamed(category: string, value: Json.Json)
    ensures CsvEntry(category, value).name == category + ".csv"
  {
  }

  lemma {:induction false} CsvEntriesAreNamed(categories: seq<string>, data: map<string, Json.Json>, n: nat)
    requires n <= |categories|
    ensures NamesOf(CsvEntries(categories, data, n)) == CsvNames(Present(categories, data, n))
  {
    if n == 0 {
    } else {
      CsvEntriesAreNamed(categories, data, n - 1);
      var category, entries, present := categories[n - 1], CsvEntries(categories, data, n - 1),
                                        Present(categories, data, n - 1);
      assert NamesOf(entries) == CsvNames(present);
      if category in data {
        CsvEntryIsNamed(category, data[category]);
        CsvNamesOneMore(entries, present, CsvEntry(category, data[category]), category);
      } else {
        assert CsvEntries(categories, data, n) == entries && Present(categories, data, n) == present;
      }
    }
  }

  lemma {:induction false} ZipNamesAre(job: Job, categories: seq<string>, manifest: string, json: string)
    ensures ZipNames(TextEntries(job, categories, manifest, json) + StoredEntries(Files(job.media)), job.media)
         == OnlyIf("manifest" in job.data, MANIFEST)
            + CsvNames(Present(categories, job.data, |categories|))
            + OnlyIf(job.format == Both, job.base + ".json")
            + MediaNames(Files(job.media))
            + OnlyIf(job.media.Some?, MEDIA_MANIFEST)
  {
    var csv, stored := CsvEntries(categories, job.data, |categories|), StoredEntries(Files(job.media));
    var first := if "manifest" in job.data then [TextEntry(MANIFEST, manifest)] else [];
    var last := if job.format == Both then [TextEntry(job.base + ".json", json)] else [];
    assert TextEntries(job, categories, manifest, json) == first + csv + last;
    CsvEntriesAreNamed(categories, job.data, |categories|);
    NamesOfTwo(first, csv);
    NamesOfTwo(first + csv, last);
    NamesOfTwo(first + csv + last, stored);
    assert NamesOf(first) == OnlyIf("manifest" in job.data, MANIFEST);
    assert NamesOf(last) == OnlyIf(job.format == Both, job.base + ".json");
    assert NamesOf(stored) == MediaNames(Files(job.media));
  }

  // ----------------------------------------------------------------------- when they differ

  predicate Apart(a: seq<string>, b: seq<string>) { forall i, j | 0 <= i < |a| && 0 <= j < |b| :: a[i] != b[j] }

  lemma {:induction false} NoRepeatsInTwo(a: seq<string>, b: seq<string>)
    ensures NoRepeats(a + b) <==> NoRepeats(a) && NoRepeats(b) && Apart(a, b)
  {
    if NoRepeats(a + b) {
      assert forall i | 0 <= i < |a| :: (a + b)[i] == a[i];
      assert forall j | 0 <= j < |b| :: (a + b)[|a| + j] == b[j];
    }
  }

  lemma {:induction false} ApartInTwo(a: seq<string>, b: seq<string>, c: seq<string>)
    ensures Apart(a + b, c) <==> Apart(a, c) && Apart(b, c)
  {
    if Apart(a + b, c) {
      assert forall i | 0 <= i < |a| :: (a + b)[i] == a[i];
      assert forall i | 0 <= i < |b| :: (a + b)[|a| + i] == b[i];
    }
  }

  lemma {:induction false} SameTail(a: string, b: string, tail: string)
    ensures a + tail == b + tail <==> a == b
  {
    if a + tail == b + tail {
      assert (a + tail)[..|a|] == a && (b + tail)[..|b|] == b;
    }
  }

  lemma {:induction false} SameHead(head: string, a: string, b: string)
    ensures head + a == head + b <==> a == b
  {
    if head + a == head + b {
      assert (head + a)[|head|..] == a && (head + b)[|head|..] == b;
    }
  }

  lemma {:induction false} CsvIsNotJson(a: string, b: string)
    ensures a + ".csv" != b + ".json"
  {
    assert (a + ".csv")[|a + ".csv"| - 1] == 'v' && (b + ".json")[|b + ".json"| - 1] == 'n';
  }

  lemma {:induction false} CsvNamesDiffer(present: seq<string>)
    ensures NoRepeats(CsvNames(present)) <==> NoRepeats(present)
  {
    forall i, j | 0 <= i < j < |present|
      ensures CsvNames(present)[i] == CsvNames(present)[j] <==> present[i] == present[j]
    {
      SameTail(present[i], present[j], ".csv");
    }
  }

  predicate FileNamesDiffer(files: seq<MediaFile>) {
    forall i, j | 0 <= i < j < |files| :: files[i].name != files[j].name
  }

  lemma {:induction false} MediaNamesDiffer(files: seq<MediaFile>)
    ensures NoRepeats(MediaNames(files)) <==> FileNamesDiffer(files)
  {
    forall i, j | 0 <= i < j < |files|
      ensures MediaNames(files)[i] == MediaNames(files)[j] <==> files[i].name == files[j].name
    {
      SameHead("media/", files[i].name, files[j].name);
    }
  }

  predicate IsNamed(files: seq<MediaFile>, name: string) { exists i | 0 <= i < |files| :: files[i].name == name }

  lemma {:induction false} MediaNamesAvoid(files: seq<MediaFile>, name: string)
    ensures Apart(MediaNames(files), ["media/" + name]) <==> !IsNamed(files, name)
  {
    forall i | 0 <= i < |files| ensures MediaNames(files)[i] == "media/" + name <==> files[i].name == name {
      SameHead("media/", files[i].name, name);
    }
    if IsNamed(files, name) {
      var i :| 0 <= i < |files| && files[i].name == name;
      assert MediaNames(files)[i] == ["media/" + name][0];
    }
  }

  /** No category's CSV, and in the `both` format no payload, is named like a file of the `media` folder. */
  predicate FolderIsFree(job: Job, present: seq<string>) {
    && Apart(CsvNames(present), MediaNames(Files(job.media)))
    && (job.format == Both ==> Apart([job.base + ".json"], MediaNames(Files(job.media))))
  }

  /** What a caller can check of a job: its categories, its base and the names of its files. */
  predicate NamesClear(job: Job, present: seq<string>) {
    && NoRepeats(present)
    && FileNamesDiffer(Files(job.media))
    && FolderIsFree(job, present)
    && (job.format == Both && "manifest" in job.data ==> job.base != "manifest")
    && (job.format == Both && job.media.Some? ==> job.base != "media/manifest")
    && !IsNamed(Files(job.media), MANIFEST)
  }

  /** The text entries among themselves. */
  lemma {:induction false} TextNamesDiffer(hasManifest: bool, present: seq<string>, both: bool, base: string)
    ensures NoRepeats(OnlyIf(hasManifest, MANIFEST) + CsvNames(present) + OnlyIf(both, base + ".json"))
       <==> NoRepeats(present) && (both && hasManifest ==> base != "manifest")
  {
    var first, csv, last := OnlyIf(hasManifest, MANIFEST), CsvNames(present), OnlyIf(both, base + ".json");
    forall i | 0 <= i < |present| ensures csv[i] != MANIFEST && csv[i] != base + ".json" {
      CsvIsNotJson(present[i], "manifest");
      CsvIsNotJson(present[i], base);
      assert "manifest" + ".json" == MANIFEST;
    }
    SameTail("manifest", base, ".json");
    assert "manifest" + ".json" == MANIFEST;
    NoRepeatsInTwo(first, csv);
    NoRepeatsInTwo(first + csv, last);
    ApartInTwo(first, csv, last);
    CsvNamesDiffer(present);
    if hasManifest && both {
      assert first[0] == MANIFEST && last[0] == base + ".json";
    }
  }

  lemma {:induction false} OneMoreMediaName(files: seq<MediaFile>, name: string)
    ensures NoRepeats(MediaNames(files) + ["media/" + name]) <==> FileNamesDiffer(files) && !IsNamed(files, name)
  {
    MediaNamesDiffer(files);
    MediaNamesAvoid(files, name);
    NoRepeatsInTwo(MediaNames(files), ["media/" + name]);
  }

  lemma {:induction false} MediaManifestIsInTheFolder()
    ensures MEDIA_MANIFEST == "media/" + MANIFEST
  {
  }

  /** The media entries among themselves. */
  lemma {:induction false} FolderNamesDiffer(files: seq<MediaFile>, hasMedia: bool)
    requires !hasMedia ==> files == []
    ensures NoRepeats(MediaNames(files) + OnlyIf(hasMedia, MEDIA_MANIFEST))
       <==> FileNamesDiffer(files) && !IsNamed(files, MANIFEST)
  {
    if hasMedia {
      OneMoreMediaName(files, MANIFEST);
      MediaManifestIsInTheFolder();
      assert OnlyIf(hasMedia, MEDIA_MANIFEST) == ["media/" + MANIFEST];
    } else {
      assert MediaNames(files) + OnlyIf(hasMedia, MEDIA_MANIFEST) == [];
    }
  }

  /** The text entries and the media entries, part by part. */
  lemma {:induction false} ManifestIsOutside(files: seq<MediaFile>)
    ensures Apart([MANIFEST], MediaNames(files)) && MANIFEST != MEDIA_MANIFEST
  {
    assert MANIFEST[1] == 'a' && MEDIA_MANIFEST[1] == 'e';
    forall j | 0 <= j < |files| ensures MediaNames(files)[j] != MANIFEST {
      assert MediaNames(files)[j][1] == 'e';
    }
  }

  lemma {:induction false} CsvIsNotMediaManifest(present: seq<string>)
    ensures Apart(CsvNames(present), [MEDIA_MANIFEST])
  {
    assert "media/manifest" + ".json" == MEDIA_MANIFEST;
    forall i | 0 <= i < |present| ensures CsvNames(present)[i] != MEDIA_MANIFEST {
      CsvIsNotJson(present[i], "media/manifest");
    }
  }

  lemma {:induction false} PayloadIsNotMediaManifest(base: string)
    ensures base + ".json" == MEDIA_MANIFEST <==> base == "media/manifest"
  {
    assert "media/manifest" + ".json" == MEDIA_MANIFEST;
    SameTail("media/manifest", base, ".json");
  }

  lemma {:induction false} TextAndFolderApart(job: Job, present: seq<string>)
    ensures Apart(OnlyIf("manifest" in job.data, MANIFEST) + CsvNames(present)
                  + OnlyIf(job.format == Both, job.base + ".json"),
                  MediaNames(Files(job.media)) + OnlyIf(job.media.Some?, MEDIA_MANIFEST))
       <==> FolderIsFree(job, present) && (job.format == Both && job.media.Some? ==> job.base != "media/manifest")
  {
    var first, csv, last := OnlyIf("manifest" in job.data, MANIFEST), CsvNames(present),
                            OnlyIf(job.format == Both, job.base + ".json");
    var media, end := MediaNames(Files(job.media)), OnlyIf(job.media.Some?, MEDIA_MANIFEST);
    ApartInTwo(first + csv, last, media + end);
    ApartInTwo(first, csv, media + end);
    ApartSwap(first, media, end);
    ApartSwap(csv, media, end);
    ApartSwap(last, media, end);
    ManifestIsOutside(Files(job.media));
    CsvIsNotMediaManifest(present);
    PayloadIsNotMediaManifest(job.base);
    assert Apart(first, media) && Apart(first, end) && Apart(csv, end);
    assert Apart(last, end) <==> (job.format == Both && job.media.Some? ==> job.base != "media/manifest") by {
      if last != [] && end != [] {
        assert last[0] == job.base + ".json" && end[0] == MEDIA_MANIFEST;
      }
    }
  }

  lemma {:induction false} ApartSwap(a: seq<string>, b: seq<string>, c: seq<string>)
    ensures Apart(a, b + c) <==> Apart(a, b) && Apart(a, c)
  {
    if Apart(a, b + c) {
      assert forall i | 0 <= i < |b| :: (b + c)[i] == b[i];
      assert forall i | 0 <= i < |c| :: (b + c)[|b| + i] == c[i];
    }
  }

  /** The names of a zip differ exactly under that condition. */
  lemma {:induction false} ZipNamesDifferIff(job: Job, categories: seq<string>, manifest: string, json: string)
    ensures NoRepeats(ZipNames(
              TextEntries(job, categories, manifest, json) + StoredEntries(Files(job.media)), job.media))
       <==> NamesClear(job, Present(categories, job.data, |categories|))
  {
    var present := Present(categories, job.data, |categories|);
    var text := OnlyIf("manifest" in job.data, MANIFEST) + CsvNames(present)
                + OnlyIf(job.format == Both, job.base + ".json");
    var media, end := MediaNames(Files(job.media)), OnlyIf(job.media.Some?, MEDIA_MANIFEST);
    ZipNamesAre(job, categories, manifest, json);
    assert text + media + end == text + (media + end);
    NoRepeatsInTwo(text, media + end);
    TextNamesDiffer("manifest" in job.data, present, job.format == Both, job.base);
    FolderNamesDiffer(Files(job.media), job.media.Some?);
    TextAndFolderApart(job, present);
  }

  /** What reaches the archive is part of what was described, so it differs too. */
  lemma {:induction false} DeliveredNamesDiffer(
      entries: seq<Entry>, media: Option<Contribution>, opening: Opening, n: nat)
    requires n <= |entries| && NoRepeats(ZipNames(entries, media))
    ensures NoRepeats(ZipNames(Delivered(entries, opening, n), media))
  {
    var end := if media.Some? then [MEDIA_MANIFEST] else [];
    NoRepeatsInTwo(NamesOf(entries), end);
    DeliveredIsPart(entries, opening, n);
    var names := NamesOf(Delivered(entries, opening, n));
    forall i, j | 0 <= i < |names| && 0 <= j < |end| ensures names[i] != end[j] {
      assert names[i] in NamesOf(entries)[..n];
    }
    NoRepeatsInTwo(names, end);
  }

  lemma {:induction false} DeliveredIsPart(entries: seq<Entry>, opening: Opening, n: nat)
    requires n <= |entries| && NoRepeats(NamesOf(entries))
    ensures var names := NamesOf(Delivered(entries, opening, n));
            NoRepeats(names) && forall i | 0 <= i < |names| :: names[i] in NamesOf(entries)[..n]
  {
    if n == 0 {
    } else {
      DeliveredIsPart(entries, opening, n - 1);
      var all, part := NamesOf(entries), Delivered(entries, opening, n - 1);
      assert all[..n] == all[..n - 1] + [all[n - 1]];
      NamesOfTwo(part, [entries[n - 1]]);
      assert NamesOf([entries[n - 1]]) == [all[n - 1]];
      forall i | 0 <= i < |part| ensures NamesOf(part)[i] != all[n - 1] {
        assert NamesOf(part)[i] in all[..n - 1];
      }
      NoRepeatsInTwo(NamesOf(part), [all[n - 1]]);
      assert Delivered(entries, opening, n) == part || Delivered(entries, opening, n) == part + [entries[n - 1]];
    }
  }

  // -------------------------------------------------------------------- a job of the export

  /** The one kind of key whose file is named like the manifest. */
  predicate IsBareManifest(key: string) { NonEmpty(Split(key, '/')) == [MANIFEST] }

  lemma {:induction false} ManifestNameIsBare(key: string)
    ensures MediaEntryNameForKey(key) == MANIFEST <==> IsBareManifest(key)
  {
    var segments, name := NonEmpty(Split(key, '/')), MediaEntryNameForKey(key);
    if IsPersonaScopedKey(key) {
      assert name[0] == 'p';
      BareIsNotPersona(key);
    } else if |segments| >= 2 {
      assert name[|segments[0]|] == '/';
      assert '/' !in MANIFEST;
    } else if segments == [] {
      assert name[0] == 'f';
    }
  }

  lemma {:induction false} BareIsNotPersona(key: string)
    requires IsPersonaScopedKey(key)
    ensures !IsBareManifest(key)
  {
    var parts := Split(key, '/');
    assert NonEmpty(parts)[0] == parts[0] == PERSONA_SCOPED_PREFIX;
    assert MANIFEST[0] != PERSONA_SCOPED_PREFIX[0];
  }

  /** A name made apart from others carries a dash, which the manifest's does not. */
  lemma {:induction false} FreshManifestName(name: string, used: set<string>)
    ensures FreshName(name, used) == MANIFEST <==> name == MANIFEST && MANIFEST !in used
  {
    if name in used {
      var suffix := FirstFree(name, 2, used);
      assert Candidate(name, suffix)[|Stem(name)|] == '-';
      assert '-' !in MANIFEST;
    }
  }

  /** Which objects ask for the manifest's name. */
  function Asked(objects: seq<StoredObject>): seq<bool> {
    seq(|objects|, i requires 0 <= i < |objects| => IsBareManifest(objects[i].key))
  }

  lemma {:induction false} UsedOneMore(sorted: seq<StoredObject>, lookups: Lookups, n: nat)
    requires n < |sorted|
    ensures var used := Walk(sorted, lookups, n).used;
            Walk(sorted, lookups, n + 1).used == used + {FreshName(MediaEntryNameForKey(sorted[n].key), used)}
  {
  }

  lemma {:induction false} ManifestOneMore(sorted: seq<StoredObject>, lookups: Lookups, n: nat)
    requires n < |sorted|
    ensures MANIFEST in Walk(sorted, lookups, n + 1).used
       <==> MANIFEST in Walk(sorted, lookups, n).used || IsBareManifest(sorted[n].key)
  {
    var used := Walk(sorted, lookups, n).used;
    UsedOneMore(sorted, lookups, n);
    ManifestNameIsBare(sorted[n].key);
    FreshManifestName(MediaEntryNameForKey(sorted[n].key), used);
  }

  /** Turn `i` puts the manifest's name in use exactly if its object asks for it or it was there. */
  predicate AddsIfAsked(used: seq<bool>, asked: seq<bool>, i: nat)
    requires i < |asked| && i + 1 < |used|
  {
    used[i + 1] <==> used[i] || asked[i]
  }

  lemma {:induction false} UsedIffAsked(used: seq<bool>, asked: seq<bool>, n: nat)
    requires n <= |asked| && |used| == |asked| + 1 && !used[0]
    requires forall i | 0 <= i < |asked| :: AddsIfAsked(used, asked, i)
    ensures used[n] <==> true in asked[..n]
  {
    if n == 0 {
    } else {
      UsedIffAsked(used, asked, n - 1);
      assert asked[..n] == asked[..n - 1] + [asked[n - 1]];
      assert AddsIfAsked(used, asked, n - 1);
    }
  }

  /** Whether the manifest's name is in use after `n` turns, for each `n`. */
  function ManifestUsed(sorted: seq<StoredObject>, lookups: Lookups): seq<bool> {
    seq(|sorted| + 1, n requires 0 <= n <= |sorted| => MANIFEST in Walk(sorted, lookups, n).used)
  }

  lemma {:induction false} ManifestIsUsedIff(sorted: seq<StoredObject>, lookups: Lookups)
    ensures MANIFEST in Walk(sorted, lookups, |sorted|).used <==> true in Asked(sorted)
  {
    var used, asked := ManifestUsed(sorted, lookups), Asked(sorted);
    forall i | 0 <= i < |asked| ensures AddsIfAsked(used, asked, i) {
      ManifestOneMore(sorted, lookups, i);
    }
    UsedIffAsked(used, asked, |asked|);
    assert asked[..|asked|] == asked;
  }

  ghost predicate HasBareManifest(objects: seq<StoredObject>) {
    exists i | 0 <= i < |objects| :: IsBareManifest(objects[i].key)
  }

  lemma {:induction false} AskedIffBare(objects: seq<StoredObject>)
    ensures true in Asked(objects) <==> HasBareManifest(objects)
  {
    if HasBareManifest(objects) {
      var i :| 0 <= i < |objects| && IsBareManifest(objects[i].key);
      assert Asked(objects)[i];
    }
  }

  lemma {:induction false} SameKeys(a: seq<StoredObject>, b: seq<StoredObject>)
    requires multiset(a) == multiset(b) && HasBareManifest(a)
    ensures HasBareManifest(b)
  {
    var i :| 0 <= i < |a| && IsBareManifest(a[i].key);
    assert a[i] in multiset(b);
    assert a[i] in b;
  }

  /** So a planned file, included or skipped, is named like the manifest exactly for such a key in the listing. */
  lemma {:induction false} ManifestIsPlannedIff(objects: seq<StoredObject>, lookups: Lookups)
    ensures var plan := Plan(objects, lookups);
            (IsNamed(plan.files, MANIFEST) || IsNamed(plan.skippedOverCap, MANIFEST) <==> HasBareManifest(objects))
  {
    var sorted := Sorted(objects);
    WalkNamesAreUsed(sorted, lookups);
    ManifestIsUsedIff(sorted, lookups);
    AskedIffBare(sorted);
    if HasBareManifest(objects) {
      SameKeys(objects, sorted);
    }
    if HasBareManifest(sorted) {
      SameKeys(sorted, objects);
    }
  }

  lemma {:induction false} WalkNamesAreUsed(sorted: seq<StoredObject>, lookups: Lookups)
    ensures var p := Walk(sorted, lookups, |sorted|);
            IsNamed(p.files, MANIFEST) || IsNamed(p.skipped, MANIFEST) <==> MANIFEST in p.used
  {
    var states, files := WalkStates(sorted, lookups, |sorted|);
    PlannedNamesDiffer(sorted, states, files, |sorted|);
    var p := Walk(sorted, lookups, |sorted|);
    assert MANIFEST in Names(p.files) <==> IsNamed(p.files, MANIFEST);
    assert MANIFEST in Names(p.skipped) <==> IsNamed(p.skipped, MANIFEST);
  }

  /** The bucket is listed under `<kind>/<owner>/`, so none of its keys is one. */
  lemma {:induction false} ListedKeyIsNotBare(kind: string, owner: string, rest: string)
    requires kind != "" && '/' !in kind && owner != "" && '/' !in owner
    ensures !IsBareManifest(kind + "/" + owner + "/" + rest)
  {
    var key := kind + "/" + owner + "/" + rest;
    assert key == kind + ['/'] + (owner + ['/'] + rest);
    SplitInTwo(kind, '/', owner + ['/'] + rest);
    SplitInTwo(owner, '/', rest);
    var parts := Split(key, '/');
    assert parts[0] == kind && parts[1..][0] == owner;
    assert NonEmpty(parts) == [kind] + NonEmpty(parts[1..]);
    assert NonEmpty(parts[1..]) == [owner] + NonEmpty(parts[1..][1..]);
    assert |NonEmpty(parts)| >= 2;
  }

  /** A category is a property name of the payload: it has no slash. */
  predicate PlainCategories(categories: seq<string>) {
    NoRepeats(categories) && forall i | 0 <= i < |categories| :: '/' !in categories[i]
  }

  lemma {:induction false} PresentIsPart(categories: seq<string>, data: map<string, Json.Json>, n: nat)
    requires n <= |categories| && PlainCategories(categories)
    ensures var present := Present(categories, data, n);
            PlainCategories(present) && forall i | 0 <= i < |present| :: present[i] in categories[..n]
  {
    if n == 0 {
    } else {
      PresentIsPart(categories, data, n - 1);
      assert categories[..n] == categories[..n - 1] + [categories[n - 1]];
    }
  }

  lemma {:induction false} PlainNamesAreOutside(job: Job, present: seq<string>, id: string)
    requires PlainCategories(present) && job.base == EXPORT_BASE + id
    ensures FolderIsFree(job, present) && job.base != "manifest" && job.base != "media/manifest"
  {
    var media := MediaNames(Files(job.media));
    forall i, j | 0 <= i < |present| && 0 <= j < |media| ensures CsvNames(present)[i] != media[j] {
      assert media[j][5] == '/';
      assert forall k | 0 <= k < |present[i]| :: present[i][k] in present[i];
      assert '/' !in ".csv";
      assert forall k | |present[i]| <= k < |present[i]| + 4 :: (present[i] + ".csv")[k] == ".csv"[k - |present[i]|];
    }
    assert job.base[0] == 'q' && (job.base + ".json")[0] == 'q';
    assert forall j | 0 <= j < |media| :: media[j][0] == 'm';
  }

  /**
   * A job the export made: its names differ exactly unless a file named like the manifest is included, and
   * that takes a key of the single segment `manifest.json`. Where nothing was skipped such a key always
   * collides. A listing that failed is planned like an empty one.
   */
  lemma {:induction false} ExportNamesDifferIff(
      job: Job, categories: seq<string>, manifest: string, json: string, id: string, objects: seq<StoredObject>,
      lookups: Lookups)
    requires PlainCategories(categories) && job.base == EXPORT_BASE + id
    requires var plan := Plan(objects, lookups);
             job.media.Some? ==>
               job.media.value.files == plan.files && job.media.value.skippedOverCap == plan.skippedOverCap
    ensures var files := Files(job.media);
            var names := ZipNames(TextEntries(job, categories, manifest, json) + StoredEntries(files), job.media);
            var bare := HasBareManifest(objects);
            && (NoRepeats(names) <==> !IsNamed(files, MANIFEST))
            && (!bare ==> NoRepeats(names))
            && (job.media.Some? && job.media.value.skippedOverCap == [] ==> (NoRepeats(names) <==> !bare))
  {
    ZipNamesDifferIff(job, categories, manifest, json);
    PresentIsPart(categories, job.data, |categories|);
    PlainNamesAreOutside(job, Present(categories, job.data, |categories|), id);
    if job.media.Some? {
      var taken := PlanSplitsTheListing(objects, lookups);
      ManifestIsPlannedIff(objects, lookups);
    }
  }

  /** An object at the top of the bucket, the only one, whose file lands on the manifest. */
  lemma {:induction false} ManifestKeyCollides(
      job: Job, categories: seq<string>, manifest: string, json: string, objects: seq<StoredObject>, lookups: Lookups)
    requires objects == [StoredObject(MANIFEST, 1, None, None)] && job.media == Some(Plan(objects, lookups))
    ensures !NoRepeats(ZipNames(
              TextEntries(job, categories, manifest, json) + StoredEntries(Files(job.media)), job.media))
  {
    ManifestIsTaken(objects, lookups);
    ZipNamesDifferIff(job, categories, manifest, json);
  }

  lemma {:induction false} ManifestIsBare()
    ensures IsBareManifest(MANIFEST)
  {
    SplitWithout(MANIFEST, '/');
  }

  lemma {:induction false} ManifestIsTaken(objects: seq<StoredObject>, lookups: Lookups)
    requires |objects| == 1 && objects[0].size == 1 && objects[0].key == MANIFEST
    ensures IsNamed(Plan(objects, lookups).files, MANIFEST)
  {
    ManifestIsBare();
    assert HasBareManifest(objects);
    ManifestIsPlannedIff(objects, lookups);
    OneSmallObjectIsTaken(objects, lookups);
  }

  lemma {:induction false} OneSmallObjectIsTaken(objects: seq<StoredObject>, lookups: Lookups)
    requires |objects| == 1 && objects[0].size == 1
    ensures Plan(objects, lookups).skippedOverCap == []
  {
    var plan, sorted := Plan(objects, lookups), Sorted(objects);
    var taken := PlanSplitsTheListing(objects, lookups);
    assert sorted[0] in multiset(objects);
    assert TakenIfItFits(Sizes(sorted), taken, plan.capBytes, 0);
    assert |FileKeys(plan.files)| == |Select(Keys(sorted), taken, true, 1)| == 1;
  }
}
