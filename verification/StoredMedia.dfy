/**
 * The media listing on its way through the job's `jsonb` column and back (`parseExportMedia`,
 * src/account/export-media.ts).
 */
module StoredMedia {
  import opened Wrappers
  import opened MediaPlan
  import opened MediaDelivery

  /** A value of unknown shape; Absent is an undefined field. */
  datatype Value =
    | Absent
    | Null
    | Flag(b: bool)
    | Num(n: int)
    | Text(s: string)
    | List(items: seq<Value>)
    | Rec(fields: map<string, Value>)

  function Field(v: Value, key: string): Value { if v.Rec? && key in v.fields then v.fields[key] else Absent }

  function OrNull(t: Option<string>): Value { if t.Some? then Text(t.value) else Null }

  // ---------------------------------------------------------------------------- storing

  function StoreFile(f: MediaFile): Value {
    var fields := map["name" := Text(f.name), "storageKey" := Text(f.storageKey), "uploadKind" := OrNull(f.uploadKind),
                      "sizeBytes" := Num(f.sizeBytes), "lastModifiedAt" := OrNull(f.lastModifiedAt)];
    Rec(if f.messageId.Some? then fields["messageId" := OrNull(f.messageId.value)] else fields)
  }

  function StoreFiles(files: seq<MediaFile>): seq<Value> {
    seq(|files|, i requires 0 <= i < |files| => StoreFile(files[i]))
  }

  function Store(c: Contribution): Value {
    Rec(map["objectCount" := Num(c.objectCount), "totalBytes" := Num(c.totalBytes),
      "includedBytes" := Num(c.includedBytes), "capBytes" := Num(c.capBytes),
            "files" := List(StoreFiles(c.files)), "skippedOverCap" := List(StoreFiles(c.skippedOverCap)),
              "listingError" := OrNull(c.listingError)])
  }

  // ---------------------------------------------------------------------------- reading

  /** The listing as it is read back; its files keep whatever else they carry. */
  datatype Parsed = Parsed(objectCount: int, totalBytes: int, includedBytes: int, capBytes: int, files: seq<Value>,
    skippedOverCap: seq<Value>, listingError: Option<string>)

  predicate IsExportMediaFile(v: Value) { Field(v, "name").Text? && Field(v, "storageKey").Text? }

  function WellFormed(items: seq<Value>): seq<Value> {
    if items == [] then []
    else WellFormed(items[..|items| - 1]) + if IsExportMediaFile(items[|items| - 1]) then [items[|items| - 1]] else []
  }

  function NumberOr(v: Value, fallback: int): int { if v.Num? then v.n else fallback }

  function ParseExportMedia(v: Value): Option<Parsed> {
    if !Field(v, "files").List? then None
    else
      var files := WellFormed(Field(v, "files").items);
      var skipped := if Field(v, "skippedOverCap").List? then WellFormed(Field(v, "skippedOverCap").items) else [];
      Some(Parsed(
        NumberOr(Field(v, "objectCount"), |files| + |skipped|),
        NumberOr(Field(v, "totalBytes"), 0),
        NumberOr(Field(v, "includedBytes"), 0),
        NumberOr(Field(v, "capBytes"), MEDIA_EXPORT_MAX_TOTAL_BYTES),
        files, skipped,
        if Field(v, "listingError").Text? then Some(Field(v, "listingError").s) else None))
  }

  function TextOf(v: Value): string { if v.Text? then v.s else "" }

  /** The stored-object entries a download describes from it. */
  function EntriesOf(files: seq<Value>): seq<Entry> {
    seq(|files|, i requires 0 <= i < |files| => StoredEntry("media/" + TextOf(Field(files[i], "name")),
      TextOf(Field(files[i], "storageKey"))))
  }

  // -------------------------------------------------------------------------- properties

  /** Filtering keeps the usable files, each as often as it is listed, and leaves the rest out. */
  lemma {:induction false} WellFormedIs(items: seq<Value>, v: Value)
    ensures multiset(WellFormed(items))[v] == if IsExportMediaFile(v) then multiset(items)[v] else 0
  {
    if items == [] {
    } else {
      var n := |items| - 1;
      WellFormedIs(items[..n], v);
      assert items == items[..n] + [items[n]];
    }
  }

  lemma {:induction false} AllUsable(items: seq<Value>)
    requires forall i | 0 <= i < |items| :: IsExportMediaFile(items[i])
    ensures WellFormed(items) == items
  {
    if items == [] {
    } else {
      AllUsable(items[..|items| - 1]);
      assert items == items[..|items| - 1] + [items[|items| - 1]];
    }
  }

  lemma {:induction false} StoredFileIsUsable(f: MediaFile)
    ensures IsExportMediaFile(StoreFile(f))
    ensures Field(StoreFile(f), "name") == Text(f.name) && Field(StoreFile(f), "storageKey") == Text(f.storageKey)
  {
  }

  lemma {:induction false} StoredFilesAreUsable(files: seq<MediaFile>)
    ensures WellFormed(StoreFiles(files)) == StoreFiles(files)
    ensures forall i | 0 <= i < |files| :: IsExportMediaFile(StoreFiles(files)[i])
  {
    forall i | 0 <= i < |files| ensures IsExportMediaFile(StoreFiles(files)[i]) {
      StoredFileIsUsable(files[i]);
    }
    AllUsable(StoreFiles(files));
  }

  /** A plan survives the column: every number, list and reason comes back as it was planned. */
  lemma {:induction false} StoredPlanReadsBack(c: Contribution)
    ensures ParseExportMedia(Store(c))
         == Some(Parsed(c.objectCount, c.totalBytes, c.includedBytes, c.capBytes, StoreFiles(c.files),
            StoreFiles(c.skippedOverCap), c.listingError))
  {
    StoredFilesAreUsable(c.files);
    StoredFilesAreUsable(c.skippedOverCap);
  }

  /** And the download describes exactly the files that were planned. */
  lemma {:induction false} DownloadDescribesThePlan(c: Contribution)
    ensures var parsed := ParseExportMedia(Store(c));
            && parsed.Some?
            && EntriesOf(parsed.value.files) == StoredEntries(c.files)
  {
    StoredPlanReadsBack(c);
    StoredFilesAreUsable(c.files);
    forall i | 0 <= i < |c.files| ensures EntriesOf(StoreFiles(c.files))[i] == StoredEntries(c.files)[i] {
      StoredFileIsUsable(c.files[i]);
    }
  }

  /** Nothing else stops a download: whatever the column holds, media is absent exactly without a list of files. */
  lemma {:induction false} OnlyAFileListMatters(v: Value)
    ensures ParseExportMedia(v).Some? <==> v.Rec? && "files" in v.fields && v.fields["files"].List?
    ensures ParseExportMedia(v).Some? ==>
              forall f | f in ParseExportMedia(v).value.files :: IsExportMediaFile(f) && f in v.fields["files"].items
  {
    if ParseExportMedia(v).Some? {
      var items := v.fields["files"].items;
      forall f | f in ParseExportMedia(v).value.files ensures IsExportMediaFile(f) && f in items {
        WellFormedIs(items, f);
        assert f in multiset(WellFormed(items));
        assert f in multiset(items);
      }
    }
  }

  /** Every field of a stored file is under its own name, and the message only where there is one to tell of. */
  lemma {:induction false} StoredFileReadsBack(f: MediaFile)
    ensures var stored := StoreFile(f);
            && Field(stored, "name") == Text(f.name) && Field(stored, "storageKey") == Text(f.storageKey)
            && Field(stored, "sizeBytes") == Num(f.sizeBytes)
            && Field(stored, "uploadKind") == (if f.uploadKind.Some? then Text(f.uploadKind.value) else Null)
            && Field(stored, "lastModifiedAt")
               == (if f.lastModifiedAt.Some? then Text(f.lastModifiedAt.value) else Null)
            && Field(stored, "messageId")
               == (match f.messageId case None => Absent case Some(None) => Null case Some(Some(id)) => Text(id))
  {
  }

  /** A stored file is usable if it has a name and a storage key; the usable ones are read, each as often as stored. */
  lemma {:induction false} UsableFilesAreRead(v: Value, f: Value)
    requires v.Rec? && "files" in v.fields && v.fields["files"].List?
    ensures ParseExportMedia(v).Some?
    ensures multiset(ParseExportMedia(v).value.files)[f]
         == if && f.Rec? && "name" in f.fields && f.fields["name"].Text?
               && "storageKey" in f.fields && f.fields["storageKey"].Text?
            then multiset(v.fields["files"].items)[f] else 0
  {
    WellFormedIs(v.fields["files"].items, f);
  }

  /** What an older value does not say is filled in: counts from its lists, nothing for bytes, today's ceiling. */
  lemma {:induction false} MissingNumbersAre(files: seq<Value>, skipped: seq<Value>)
    ensures var parsed := ParseExportMedia(Rec(map["files" := List(files), "skippedOverCap" := List(skipped)]));
            && parsed.Some?
            && parsed.value.objectCount == |parsed.value.files| + |parsed.value.skippedOverCap|
            && parsed.value.totalBytes == 0 && parsed.value.includedBytes == 0
            && parsed.value.capBytes == 268_435_456 && parsed.value.listingError.None?
  {
  }
}
