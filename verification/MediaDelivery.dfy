/**
 * From the stored job to the zip: the entry list (`describeExportDownload`), the append pass that
 * tolerates unreadable objects (`appendEntries`) and the manifest that reports them.
 */
module MediaDelivery {
  import opened Wrappers
  import opened Json
  import opened MediaPlan
  import CsvArchive
  import CsvReading

  datatype Format = JsonFormat | Csv | Both

  datatype Entry = TextEntry(name: string, content: string) | StoredEntry(name: string, storageKey: string)

  datatype Failure = Failure(name: string, storageKey: string, reason: string)

  datatype Download = JsonDownload(body: string) | ZipDownload(entries: seq<Entry>, media: Option<Contribution>)

  /** A job row: the payload by category, and its `media` listing when there is one. */
  datatype Job = Job(format: Format, base: string, data: map<string, Json>, media: Option<Contribution>)

  function CsvEntry(category: string, value: Json): Entry {
    TextEntry(category + ".csv", CsvArchive.Document(CsvArchive.Table(CsvArchive.Flattened(value))))
  }

  function CsvEntries(categories: seq<string>, data: map<string, Json>, n: nat): seq<Entry>
    requires n <= |categories|
  {
    if n == 0 then []
    else CsvEntries(categories, data, n - 1) + if categories[n - 1] in data
      then [CsvEntry(categories[n - 1], data[categories[n - 1]])] else []
  }

  function StoredEntries(files: seq<MediaFile>): seq<Entry> {
    seq(|files|, i requires 0 <= i < |files| => StoredEntry("media/" + files[i].name, files[i].storageKey))
  }

  /** The text entries come first, the stored ones last and in the order of the plan. */
  function TextEntries(job: Job, categories: seq<string>, manifest: string, json: string): seq<Entry> {
    (if "manifest" in job.data then [TextEntry("manifest.json", manifest)] else [])
    + CsvEntries(categories, job.data, |categories|)
    + if job.format == Both then [TextEntry(job.base + ".json", json)] else []
  }

  function Files(media: Option<Contribution>): seq<MediaFile> { if media.Some? then media.value.files else [] }

  method PrintCategory(category: string, value: Json) returns (entry: Entry)
    ensures entry == CsvEntry(category, value)
  {
    var content := CsvArchive.ToCsv(value);
    entry := TextEntry(category + ".csv", content);
  }

  /** One CSV a category of the payload. */
  method AppendCsvEntries(
      before: seq<Entry>, categories: seq<string>, data: map<string, Json>) returns (entries: seq<Entry>)
    ensures entries == before + CsvEntries(categories, data, |categories|)
  {
    entries := [];
    for i := 0 to |categories|
      invariant entries == CsvEntries(categories, data, i)
    {
      entries := AppendCategory(entries, categories[i], data);
    }
    entries := before + entries;
  }

  method AppendCategory(before: seq<Entry>, category: string, data: map<string, Json>) returns (entries: seq<Entry>)
    ensures entries == before + if category in data then [CsvEntry(category, data[category])] else []
  {
    if category !in data { return before; }
    var entry := PrintCategory(category, data[category]);
    entries := before + [entry];
  }

  /** One stored object a planned file. */
  method AppendStoredEntries(before: seq<Entry>, files: seq<MediaFile>) returns (entries: seq<Entry>)
    ensures entries == before + StoredEntries(files)
  {
    entries := before;
    for i := 0 to |files|
      invariant |entries| == |before| + i && entries[..|before|] == before
      invariant forall k | 0 <= k < i ::
          entries[|before| + k] == StoredEntry("media/" + files[k].name, files[k].storageKey)
    {
      entries := entries + [StoredEntry("media/" + files[i].name, files[i].storageKey)];
    }
  }

  /** `manifest` and `json` are the two `JSON.stringify` texts; `categories` is EXPORT_CSV_CATEGORIES. */
  method DescribeExportDownload(
      job: Job, categories: seq<string>, manifest: string, json: string) returns (download: Download)
    ensures job.format == JsonFormat ==> download == JsonDownload(json)
    ensures job.format != JsonFormat ==>
              download == ZipDownload(TextEntries(job, categories, manifest, json) + StoredEntries(Files(job.media)),
                job.media)
  {
    if job.format != Csv && job.format != Both {
      return JsonDownload(json);
    }
    var entries: seq<Entry> := [];
    if "manifest" in job.data {
      entries := entries + [TextEntry("manifest.json", manifest)];
    }
    entries := AppendCsvEntries(entries, categories, job.data);
    if job.format == Both {
      entries := entries + [TextEntry(job.base + ".json", json)];
    }
    assert entries == TextEntries(job, categories, manifest, json);
    if job.media.Some? {
      entries := AppendStoredEntries(entries, job.media.value.files);
    }
    download := ZipDownload(entries, job.media);
  }

  lemma {:induction false} CsvEntriesGrow(categories: seq<string>, data: map<string, Json>, m: nat, n: nat)
    requires m <= n <= |categories|
    ensures CsvEntries(categories, data, m) <= CsvEntries(categories, data, n)
    decreases n
  {
    if m == n {
    } else {
      CsvEntriesGrow(categories, data, m, n - 1);
    }
  }

  lemma {:induction false} LastOfPrefix(all: seq<Entry>, before: seq<Entry>, entry: Entry)
    requires before + [entry] <= all
    ensures entry in all
  {
    assert all[|before|] == (before + [entry])[|before|] == entry;
  }

  lemma {:induction false} CategoryEntry(categories: seq<string>, data: map<string, Json>, k: nat)
    requires k < |categories| && categories[k] in data
    ensures CsvEntry(categories[k], data[categories[k]]) in CsvEntries(categories, data, |categories|)
  {
    CsvEntriesGrow(categories, data, k + 1, |categories|);
    LastOfPrefix(CsvEntries(categories, data, |categories|), CsvEntries(categories, data, k),
      CsvEntry(categories[k], data[categories[k]]));
  }

  lemma {:induction false} CsvEntriesAreText(categories: seq<string>, data: map<string, Json>, n: nat)
    requires n <= |categories|
    ensures AllText(CsvEntries(categories, data, n))
  {
    if n == 0 {
    } else {
      CsvEntriesAreText(categories, data, n - 1);
    }
  }

  lemma {:induction false} CsvEntryIs(category: string, value: Json)
    ensures CsvEntry(category, value) == TextEntry(category + ".csv", CsvReading.FileOf(value))
  {
  }

  /** The text of the zip: the payload's manifest, a CSV file a category, and the payload in the `both` format. */
  lemma {:induction false} TextFilesAre(job: Job, categories: seq<string>, manifest: string, json: string)
    ensures var text := TextEntries(job, categories, manifest, json);
            && AllText(text)
            && ("manifest" in job.data ==> TextEntry("manifest.json", manifest) in text)
            && (forall k | 0 <= k < |categories| && categories[k] in job.data ::
                  TextEntry(categories[k] + ".csv", CsvReading.FileOf(job.data[categories[k]])) in text)
            && (job.format == Both ==> TextEntry(job.base + ".json", json) in text)
  {
    CsvEntriesAreText(categories, job.data, |categories|);
    forall k | 0 <= k < |categories| && categories[k] in job.data
      ensures TextEntry(categories[k] + ".csv", CsvReading.FileOf(job.data[categories[k]]))
           in CsvEntries(categories, job.data, |categories|)
    {
      CsvEntryIs(categories[k], job.data[categories[k]]);
      CategoryEntry(categories, job.data, k);
    }
  }

  // --------------------------------------------------------------------------- manifest

  datatype Status = NoMedia | Complete | Partial

  datatype Manifest = Manifest(plan: Contribution, files: seq<MediaFile>, status: Status, failedToRead: seq<Failure>)

  predicate FailedKey(failed: seq<Failure>, storageKey: string) {
    exists i | 0 <= i < |failed| :: failed[i].storageKey == storageKey
  }

  function WithoutFailed(files: seq<MediaFile>, failed: seq<Failure>): seq<MediaFile> {
    if files == [] then []
    else WithoutFailed(files[..|files| - 1], failed) + if FailedKey(failed, files[|files| - 1].storageKey) then []
    else [files[|files| - 1]]
  }

  function BuildExportMediaManifest(plan: Contribution, failed: seq<Failure>): Manifest {
    var hasGaps := |plan.skippedOverCap| > 0 || |failed| > 0 || plan.listingError.Some?;
    Manifest(plan, WithoutFailed(plan.files, failed), if hasGaps then Partial
      else if plan.objectCount == 0 then NoMedia else Complete, failed)
  }

  // ------------------------------------------------------------------------- append pass

  /** How opening the object of one entry ends: None when it opened, else the reason. */
  type Opening = nat -> Option<string>

  /** `name.replace(/^media\//, '')`. */
  function WithoutFolder(name: string): string { if "media/" <= name then name[6..] else name }

  /** The entries of the first `n` that reach the archive. */
  function Delivered(entries: seq<Entry>, opening: Opening, n: nat): seq<Entry>
    requires n <= |entries|
  {
    if n == 0 then []
    else Delivered(entries, opening, n - 1) + if entries[n - 1].TextEntry? || opening(n - 1).None?
      then [entries[n - 1]] else []
  }

  function Failures(entries: seq<Entry>, opening: Opening, n: nat): seq<Failure>
    requires n <= |entries|
  {
    if n == 0 then []
    else
      var e := entries[n - 1];
      Failures(entries, opening, n - 1)
      + if e.StoredEntry? && opening(n - 1).Some?
        then [Failure(WithoutFolder(e.name), e.storageKey, opening(n - 1).value)] else []
  }

  /**
   * `appendEntries`. `settledAt` is the entry before which the response dies, if it does; the pass then
   * stops and writes no manifest.
   */
  method AppendEntries(entries: seq<Entry>, media: Option<Contribution>, opening: Opening, settledAt: Option<nat>)
    returns (archive: seq<Entry>, failedToRead: seq<Failure>, manifest: Option<Manifest>)
    ensures var n := if settledAt.Some? && settledAt.value < |entries| then settledAt.value else |entries|;
            && archive == Delivered(entries, opening, n)
            && failedToRead == Failures(entries, opening, n)
            && manifest == if n < |entries| || media.None? then None
               else Some(BuildExportMediaManifest(media.value, failedToRead))
  {
    archive, failedToRead, manifest := [], [], None;
    for i := 0 to |entries|
      invariant settledAt.Some? ==> i <= settledAt.value
      invariant archive == Delivered(entries, opening, i)
      invariant failedToRead == Failures(entries, opening, i)
    {
      if settledAt.Some? && settledAt.value <= i { return; }
      match entries[i]
      case TextEntry(name, content) =>
        archive := archive + [entries[i]];
      case StoredEntry(name, storageKey) =>
        var reason := opening(i);
        if reason.Some? {
          failedToRead := failedToRead + [Failure(WithoutFolder(name), storageKey, reason.value)];
        } else {
          archive := archive + [entries[i]];
        }
    }
    if media.Some? {
      manifest := Some(BuildExportMediaManifest(media.value, failedToRead));
    }
  }

  // ------------------------------------------------------------------------ conservation

  /** The files, among the first `n`, whose object opened. */
  function Opened(files: seq<MediaFile>, opening: Opening, offset: nat, n: nat): seq<MediaFile>
    requires n <= |files|
  {
    if n == 0 then []
    else Opened(files, opening, offset, n - 1) + if opening(offset + n - 1).None? then [files[n - 1]] else []
  }

  ghost predicate FailedAmong(files: seq<MediaFile>, opening: Opening, offset: nat, n: nat, key: string)
    requires n <= |files|
  {
    exists i | 0 <= i < n :: files[i].storageKey == key && opening(offset + i).Some?
  }

  predicate AllText(text: seq<Entry>) { forall i | 0 <= i < |text| :: text[i].TextEntry? }

  lemma {:induction false} StoredAt(text: seq<Entry>, files: seq<MediaFile>, i: nat)
    requires i < |files|
    ensures (text + StoredEntries(files))[|text| + i] == StoredEntry("media/" + files[i].name, files[i].storageKey)
  {
  }

  lemma {:induction false} PassDelivers(text: seq<Entry>, files: seq<MediaFile>, opening: Opening, n: nat)
    requires n <= |files| && AllText(text)
    ensures Delivered(text + StoredEntries(files), opening, |text| + n)
        == text + StoredEntries(Opened(files, opening, |text|, n))
  {
    var entries := text + StoredEntries(files);
    if n == 0 {
      TextIsDelivered(entries, opening, |text|);
      assert entries[..|text|] == text;
      assert text + StoredEntries([]) == text;
    } else {
      PassDelivers(text, files, opening, n - 1);
      StoredAt(text, files, n - 1);
      var before := Opened(files, opening, |text|, n - 1);
      StoredOneMore(before, files[n - 1]);
      var last := StoredEntry("media/" + files[n - 1].name, files[n - 1].storageKey);
      assert text + StoredEntries(before) + [last] == text + (StoredEntries(before) + [last]);
    }
  }

  lemma {:induction false} PassCounts(text: seq<Entry>, files: seq<MediaFile>, opening: Opening, n: nat)
    requires n <= |files| && AllText(text)
    ensures |Failures(text + StoredEntries(files), opening, |text| + n)| + |Opened(files, opening, |text|, n)| == n
  {
    if n == 0 {
      TextIsDelivered(text + StoredEntries(files), opening, |text|);
    } else {
      PassCounts(text, files, opening, n - 1);
      StoredAt(text, files, n - 1);
    }
  }

  lemma {:induction false} PassFails(text: seq<Entry>, files: seq<MediaFile>, opening: Opening, n: nat, key: string)
    requires n <= |files| && AllText(text)
    ensures FailedKey(Failures(text + StoredEntries(files), opening, |text| + n), key) <==>
        FailedAmong(files, opening, |text|, n, key)
  {
    var entries := text + StoredEntries(files);
    if n == 0 {
      TextIsDelivered(entries, opening, |text|);
    } else {
      PassFails(text, files, opening, n - 1, key);
      StoredAt(text, files, n - 1);
      OneMoreFailure(entries, opening, |text| + n - 1, key);
      assert FailedAmong(files, opening, |text|, n, key)
        <==> FailedAmong(files, opening, |text|, n - 1, key)
             || (opening(|text| + n - 1).Some? && files[n - 1].storageKey == key);
    }
  }

  lemma {:induction false} StoredOneMore(files: seq<MediaFile>, file: MediaFile)
    ensures StoredEntries(files + [file]) == StoredEntries(files) + [StoredEntry("media/" + file.name, file.storageKey)]
  {
  }

  lemma {:induction false} OneMoreFailure(entries: seq<Entry>, opening: Opening, n: nat, key: string)
    requires n < |entries| && entries[n].StoredEntry?
    ensures FailedKey(Failures(entries, opening, n + 1), key)
       <==> FailedKey(Failures(entries, opening, n), key) || (opening(n).Some? && entries[n].storageKey == key)
  {
    var before, after := Failures(entries, opening, n), Failures(entries, opening, n + 1);
    assert forall i | 0 <= i < |before| :: after[i] == before[i];
    if FailedKey(before, key) {
      var i :| 0 <= i < |before| && before[i].storageKey == key;
      assert after[i].storageKey == key;
    }
    if opening(n).Some? {
      assert after[|before|].storageKey == entries[n].storageKey;
    }
  }

  lemma {:induction false} TextIsDelivered(entries: seq<Entry>, opening: Opening, n: nat)
    requires n <= |entries| && forall i | 0 <= i < n :: entries[i].TextEntry?
    ensures Delivered(entries, opening, n) == entries[..n] && Failures(entries, opening, n) == []
  {
    if n == 0 {
    } else {
      TextIsDelivered(entries, opening, n - 1);
      assert entries[..n] == entries[..n - 1] + [entries[n - 1]];
    }
  }

  /** No file that opened shares its storage key with one that did not. */
  ghost predicate OpeningByKey(files: seq<MediaFile>, opening: Opening, offset: nat) {
    forall i | 0 <= i < |files| && opening(offset + i).None? ::
      !FailedAmong(files, opening, offset, |files|, files[i].storageKey)
  }

  /** Among the first `n` files none that opened is reported failed. */
  ghost predicate NoneBlamed(files: seq<MediaFile>, failed: seq<Failure>, opening: Opening, offset: nat, n: nat)
    requires n <= |files|
  {
    forall i | 0 <= i < n && opening(offset + i).None? :: !FailedKey(failed, files[i].storageKey)
  }

  /** `WithoutFailed` over the first `n` files. */
  lemma {:induction false} ManifestKeepsWhatOpened(
      files: seq<MediaFile>, failed: seq<Failure>, opening: Opening, offset: nat, n: nat)
    requires n <= |files|
    requires forall i | 0 <= i < n && opening(offset + i).Some? :: FailedKey(failed, files[i].storageKey)
    ensures var kept, read := WithoutFailed(files[..n], failed), Opened(files, opening, offset, n);
            && |kept| <= |read|
            && (NoneBlamed(files, failed, opening, offset, n) ==> kept == read)
            && (!NoneBlamed(files, failed, opening, offset, n) ==> |kept| < |read|)
  {
    if n == 0 {
    } else {
      ManifestKeepsWhatOpened(files, failed, opening, offset, n - 1);
      assert files[..n][..n - 1] == files[..n - 1] && files[..n][n - 1] == files[n - 1];
      BlameOneMore(files, failed, opening, offset, n - 1);
    }
  }

  lemma {:induction false} BlameOneMore(
      files: seq<MediaFile>, failed: seq<Failure>, opening: Opening, offset: nat, n: nat)
    requires n < |files|
    ensures NoneBlamed(files, failed, opening, offset, n + 1)
       <==> NoneBlamed(files, failed, opening, offset, n)
            && (opening(offset + n).None? ==> !FailedKey(failed, files[n].storageKey))
  {
  }

  /**
   * An uncancelled pass: every planned file either opened and was appended, or is reported failed; the
   * manifest lists exactly the appended ones just when no two files share a key and part ways on opening.
   */
  lemma {:induction false} DeliveryConservesFiles(text: seq<Entry>, plan: Contribution, opening: Opening)
    requires AllText(text)
    ensures var entries := text + StoredEntries(plan.files);
            var failed := Failures(entries, opening, |entries|);
            var read := Opened(plan.files, opening, |text|, |plan.files|);
            var manifest := BuildExportMediaManifest(plan, failed);
            && Delivered(entries, opening, |entries|) == text + StoredEntries(read)
            && |read| + |failed| == |plan.files|
            && (manifest.files == read <==> OpeningByKey(plan.files, opening, |text|))
            && (|manifest.files| + |failed| == |plan.files| <==> OpeningByKey(plan.files, opening, |text|))
            && (manifest.status == Complete <==>
                plan.objectCount > 0 && plan.skippedOverCap == [] && plan.listingError.None? && |read| == |plan.files|)
            && (manifest.status == NoMedia <==>
                plan.objectCount == 0 && plan.skippedOverCap == [] && plan.listingError.None? && |read| == |plan.files|)
  {
    var files := plan.files;
    var failed := Failures(text + StoredEntries(files), opening, |text| + |files|);
    PassAccounts(text, files, opening);
    ManifestFilesAre(text, files, failed, opening);
    ManifestStatusIs(plan, failed);
  }

  lemma {:induction false} PassAccounts(text: seq<Entry>, files: seq<MediaFile>, opening: Opening)
    requires AllText(text)
    ensures var entries, read := text + StoredEntries(files), Opened(files, opening, |text|, |files|);
            && |entries| == |text| + |files|
            && Delivered(entries, opening, |entries|) == text + StoredEntries(read)
            && |read| + |Failures(entries, opening, |entries|)| == |files|
  {
    assert |text + StoredEntries(files)| == |text| + |files|;
    PassDelivers(text, files, opening, |files|);
    PassCounts(text, files, opening, |files|);
  }

  lemma {:induction false} ManifestStatusIs(plan: Contribution, failed: seq<Failure>)
    ensures var gapless := plan.skippedOverCap == [] && plan.listingError.None? && |failed| == 0;
            var status := BuildExportMediaManifest(plan, failed).status;
            && (status == Complete <==> plan.objectCount > 0 && gapless)
            && (status == NoMedia <==> plan.objectCount == 0 && gapless)
  {
  }

  lemma {:induction false} ManifestFilesAre(
      text: seq<Entry>, files: seq<MediaFile>, failed: seq<Failure>, opening: Opening)
    requires AllText(text) && failed == Failures(text + StoredEntries(files), opening, |text| + |files|)
    ensures var kept, read := WithoutFailed(files, failed), Opened(files, opening, |text|, |files|);
            && (kept == read <==> OpeningByKey(files, opening, |text|))
            && (|kept| == |read| <==> OpeningByKey(files, opening, |text|))
  {
    BlamedByKey(text, files, failed, opening);
    ManifestKeepsWhatOpened(files, failed, opening, |text|, |files|);
    assert files[..|files|] == files;
  }

  lemma {:induction false} BlamedByKey(text: seq<Entry>, files: seq<MediaFile>, failed: seq<Failure>, opening: Opening)
    requires AllText(text) && failed == Failures(text + StoredEntries(files), opening, |text| + |files|)
    ensures forall i | 0 <= i < |files| && opening(|text| + i).Some? :: FailedKey(failed, files[i].storageKey)
    ensures NoneBlamed(files, failed, opening, |text|, |files|) <==> OpeningByKey(files, opening, |text|)
  {
    forall i | 0 <= i < |files|
      ensures FailedKey(failed, files[i].storageKey) <==>
          FailedAmong(files, opening, |text|, |files|, files[i].storageKey)
    {
      PassFails(text, files, opening, |files|, files[i].storageKey);
    }
  }

  /** With distinct storage keys, which the bucket gives, the manifest is exact. */
  lemma {:induction false} DistinctKeysDeliverExactly(
      objects: seq<StoredObject>, lookups: Lookups, text: seq<Entry>, opening: Opening)
    requires MediaPlan.DistinctKeys(objects) && AllText(text)
    ensures var plan := Plan(objects, lookups);
            var entries := text + StoredEntries(plan.files);
            var failed := Failures(entries, opening, |entries|);
            var manifest := BuildExportMediaManifest(plan, failed);
            && Delivered(entries, opening, |entries|) == text + StoredEntries(manifest.files)
            && |manifest.files| + |failed| + |plan.skippedOverCap| == |objects|
            && (manifest.status == Complete <==> |objects| > 0 && |manifest.files| == |objects|)
            && (manifest.status == NoMedia <==> |objects| == 0)
  {
    PlannedKeysDiffer(objects, lookups);
    var plan := Plan(objects, lookups);
    var taken := PlanSplitsTheListing(objects, lookups);
    FileKeysDiffer(plan.files, opening, |text|);
    DeliveryConservesFiles(text, plan, opening);
  }

  lemma {:induction false} FileKeysDiffer(files: seq<MediaFile>, opening: Opening, offset: nat)
    requires forall i, j | 0 <= i < j < |files| :: files[i].storageKey != files[j].storageKey
    ensures OpeningByKey(files, opening, offset)
  {
  }

  lemma {:induction false} PlannedKeysDiffer(objects: seq<StoredObject>, lookups: Lookups)
    requires MediaPlan.DistinctKeys(objects)
    ensures var files := Plan(objects, lookups).files;
            forall i, j | 0 <= i < j < |files| :: files[i].storageKey != files[j].storageKey
  {
    var files := Plan(objects, lookups).files;
    var taken := PlanSplitsTheListing(objects, lookups);
    var sorted := Sorted(objects);
    DistinctKeysOfRearranged(objects, sorted);
    SelectKeepsDistinct(Keys(sorted), taken, true, |sorted|);
    assert forall i | 0 <= i < |files| :: files[i].storageKey == FileKeys(files)[i];
  }

  lemma {:induction false} SelectKeepsDistinct(keys: seq<string>, taken: seq<bool>, which: bool, n: nat)
    requires n <= |keys| == |taken| && forall i, j | 0 <= i < j < |keys| :: keys[i] != keys[j]
    ensures forall i, j | 0 <= i < j < |Select(keys, taken, which, n)| ::
        Select(keys, taken, which, n)[i] != Select(keys, taken, which, n)[j]
    ensures forall i | 0 <= i < |Select(keys, taken, which, n)| :: Select(keys, taken, which, n)[i] in keys[..n]
  {
    if n == 0 {
    } else {
      SelectKeepsDistinct(keys, taken, which, n - 1);
      assert keys[..n] == keys[..n - 1] + [keys[n - 1]];
      assert keys[n - 1] !in keys[..n - 1];
    }
  }

  lemma {:induction false} NameWithoutFolder(name: string)
    ensures WithoutFolder("media/" + name) == name
  {
    assert ("media/" + name)[6..] == name;
  }

  /** Each failure of a pass names a planned file, as the manifest does, and says why it did not open. */
  lemma {:induction false} FailuresNameTheirFiles(
      text: seq<Entry>, files: seq<MediaFile>, opening: Opening, n: nat, k: nat) returns (i: nat)
    requires n <= |files| && AllText(text) && k < |Failures(text + StoredEntries(files), opening, |text| + n)|
    ensures var failure := Failures(text + StoredEntries(files), opening, |text| + n)[k];
            && i < n && failure.name == files[i].name && failure.storageKey == files[i].storageKey
            && opening(|text| + i) == Some(failure.reason)
  {
    var entries := text + StoredEntries(files);
    if n == 0 {
      TextIsDelivered(entries, opening, |text|);
      assert false;
    } else {
      StoredAt(text, files, n - 1);
      NameWithoutFolder(files[n - 1].name);
      if k < |Failures(entries, opening, |text| + n - 1)| {
        i := FailuresNameTheirFiles(text, files, opening, n - 1, k);
      } else {
        i := n - 1;
      }
    }
  }
}
