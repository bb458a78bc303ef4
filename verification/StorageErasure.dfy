/**
 * What happens to the objects an erased member uploaded (`eraseUnreferencedStorageObjects`,
 * src/account/account-deletion-processor.service.ts): deleted unless something that outlived the account
 * still shows them, in batches, through whatever failures the storage and the reference check have.
 */
module StorageErasure {
  import opened Arithmetic
  import opened StorageKeys

  /** The answer of the reference check for one batch. */
  datatype Resolution = Resolution(degraded: bool, references: set<string>)

  /** How the attempt on one object goes; only a persona-scoped one has a registry row to delete after it. */
  datatype Attempt = Done | StorageFails | RegistryFails

  datatype Fate = Retained | Deleted | Failed

  /** `resolve` answers for the batch that starts at an index, `attempt` for the object at an index. */
  datatype World = World(resolve: nat -> Resolution, attempt: nat -> Attempt)

  function BatchStart(i: nat, size: nat): nat
    requires size >= 1
  {
    if i < size then 0 else size + BatchStart(i - size, size)
  }

  predicate Keeps(r: Resolution, key: string) { r.degraded || ToBareKey(key) in r.references }

  function FateOf(w: World, r: Resolution, key: string, i: nat): Fate {
    if Keeps(r, key) then Retained
    else if w.attempt(i).StorageFails? then Failed
    else if IsPersonaScopedKey(key) && w.attempt(i).RegistryFails? then Failed
    else Deleted
  }

  /** An object whose registry row could not be deleted is gone as well, and still counts as failed. */
  predicate IsRemoved(w: World, r: Resolution, key: string, i: nat) { !Keeps(r, key) && !w.attempt(i).StorageFails? }

  function ResolutionFor(w: World, i: nat, size: nat): Resolution
    requires size >= 1
  {
    w.resolve(BatchStart(i, size))
  }

  function FateAt(objects: seq<string>, i: nat, size: nat, w: World): Fate
    requires i < |objects| && size >= 1
  {
    FateOf(w, ResolutionFor(w, i, size), objects[i], i)
  }

  predicate RemovedAt(objects: seq<string>, i: nat, size: nat, w: World)
    requires i < |objects| && size >= 1
  {
    IsRemoved(w, ResolutionFor(w, i, size), objects[i], i)
  }

  /** How many of the objects from `from` up to `n` meet that fate. */
  function Count(objects: seq<string>, from: nat, n: nat, size: nat, w: World, fate: Fate): nat
    requires from <= n <= |objects| && size >= 1
  {
    if n == from then 0
    else Count(objects, from, n - 1, size, w, fate) + if FateAt(objects, n - 1, size, w) == fate then 1 else 0
  }

  function Removed(objects: seq<string>, from: nat, n: nat, size: nat, w: World): set<string>
    requires from <= n <= |objects| && size >= 1
  {
    set i: nat | from <= i < n && RemovedAt(objects, i, size, w) :: objects[i]
  }

  function Unregistered(objects: seq<string>, from: nat, n: nat, size: nat, w: World): set<string>
    requires from <= n <= |objects| && size >= 1
  {
    set i: nat | from <= i < n && IsPersonaScopedKey(objects[i]) && FateAt(objects, i, size, w) == Deleted :: objects[i]
  }

  predicate IsStart(x: nat, size: nat)
    requires size >= 1
  {
    x == 0 || (x >= size && IsStart(x - size, size))
  }

  lemma {:induction false} BatchOf(start: nat, size: nat, d: nat)
    requires size >= 1 && IsStart(start, size) && d < size
    ensures BatchStart(start + d, size) == start && IsStart(start + size, size)
  {
    if start == 0 {
    } else {
      BatchOf(start - size, size, d);
    }
  }

  lemma {:induction false} CountsAdd(objects: seq<string>, from: nat, mid: nat, n: nat, size: nat, w: World, fate: Fate)
    requires from <= mid <= n <= |objects| && size >= 1
    ensures Count(objects, from, n, size, w, fate)
        == Count(objects, from, mid, size, w, fate) + Count(objects, mid, n, size, w, fate)
  {
    if mid == n {
    } else {
      CountsAdd(objects, from, mid, n - 1, size, w, fate);
    }
  }

  lemma {:induction false} SetsAdd(objects: seq<string>, from: nat, mid: nat, n: nat, size: nat, w: World)
    requires from <= mid <= n <= |objects| && size >= 1
    ensures Removed(objects, from, n, size, w)
        == Removed(objects, from, mid, size, w) + Removed(objects, mid, n, size, w)
    ensures Unregistered(objects, from, n, size, w)
        == Unregistered(objects, from, mid, size, w) + Unregistered(objects, mid, n, size, w)
  {
  }

  lemma {:induction false} OneMore(objects: seq<string>, from: nat, n: nat, size: nat, w: World)
    requires from <= n < |objects| && size >= 1
    ensures Removed(objects, from, n + 1, size, w)
        == Removed(objects, from, n, size, w) + (if RemovedAt(objects, n, size, w) then {objects[n]} else {})
    ensures Unregistered(objects, from, n + 1, size, w)
         == Unregistered(objects, from, n, size, w)
            + (if IsPersonaScopedKey(objects[n]) && FateAt(objects, n, size, w) == Deleted then {objects[n]} else {})
  {
  }

  lemma {:induction false} DegradedBatchIsKept(objects: seq<string>, start: nat, n: nat, size: nat, w: World)
    requires start <= n <= |objects| && n <= start + size && size >= 1 && IsStart(start, size)
        && w.resolve(start).degraded
    ensures Count(objects, start, n, size, w, Retained) == n - start
    ensures Count(objects, start, n, size, w, Deleted) == Count(objects, start, n, size, w, Failed) == 0
    ensures Removed(objects, start, n, size, w) == Unregistered(objects, start, n, size, w) == {}
  {
    if n == start {
    } else {
      DegradedBatchIsKept(objects, start, n - 1, size, w);
      BatchOf(start, size, n - 1 - start);
      OneMore(objects, start, n - 1, size, w);
    }
  }

  class MemberObjects {
    var bucket: set<string>
    /** `persona_storage_keys`. */
    var registry: set<string>

    /** One object of a resolved batch. */
    method EraseOne(key: string, i: nat, r: Resolution, w: World) returns (fate: Fate)
      requires !r.degraded
      modifies this
      ensures fate == FateOf(w, r, key, i)
      ensures bucket == old(bucket) - (if IsRemoved(w, r, key, i) then {key} else {})
      ensures registry == old(registry) - (if IsPersonaScopedKey(key) && fate == Deleted then {key} else {})
    {
      if ToBareKey(key) in r.references { return Retained; }
      if w.attempt(i).StorageFails? { return Failed; }
      bucket := bucket - {key};
      if IsPersonaScopedKey(key) {
        if w.attempt(i).RegistryFails? { return Failed; }
        registry := registry - {key};
      }
      return Deleted;
    }

    /** One batch: all of it kept when its references could not be fully resolved. */
    method EraseBatch(
        objects: seq<string>, start: nat, end: nat, size: nat, w: World)
      returns (deleted: nat, retained: nat, failed: nat)
      requires start <= end <= |objects| && end <= start + size && size >= 1 && IsStart(start, size)
      modifies this
      ensures bucket == old(bucket) - Removed(objects, start, end, size, w)
      ensures registry == old(registry) - Unregistered(objects, start, end, size, w)
      ensures deleted == Count(objects, start, end, size, w, Deleted)
      ensures retained == Count(objects, start, end, size, w, Retained)
      ensures failed == Count(objects, start, end, size, w, Failed)
    {
      deleted, retained, failed := 0, 0, 0;
      var resolution := w.resolve(start);
      if resolution.degraded {
        DegradedBatchIsKept(objects, start, end, size, w);
        return 0, end - start, 0;
      }
      for i := start to end
        invariant bucket == old(bucket) - Removed(objects, start, i, size, w)
        invariant registry == old(registry) - Unregistered(objects, start, i, size, w)
        invariant deleted == Count(objects, start, i, size, w, Deleted)
        invariant retained == Count(objects, start, i, size, w, Retained)
        invariant failed == Count(objects, start, i, size, w, Failed)
      {
        BatchOf(start, size, i - start);
        OneMore(objects, start, i, size, w);
        var fate := EraseOne(objects[i], i, resolution, w);
        assert fate == FateAt(objects, i, size, w);
        match fate
        case Retained => retained := retained + 1;
        case Deleted => deleted := deleted + 1;
        case Failed => failed := failed + 1;
      }
    }

    /** `eraseUnreferencedStorageObjects`, batch by batch. */
    method EraseUnreferenced(objects: seq<string>, size: nat, w: World, ghost live: set<string>)
      returns (deleted: nat, retained: nat, failed: nat)
      requires size >= 1
      modifies this
      ensures bucket <= old(bucket) && forall key | key in old(bucket) && key !in objects :: key in bucket
      ensures Honest(objects, size, w, live) ==>
          forall key | key in old(bucket) && ToBareKey(key) in live :: key in bucket
      ensures deleted + retained + failed == |objects|
      ensures bucket == old(bucket) - Removed(objects, 0, |objects|, size, w)
      ensures registry == old(registry) - Unregistered(objects, 0, |objects|, size, w)
      ensures deleted == Count(objects, 0, |objects|, size, w, Deleted)
      ensures retained == Count(objects, 0, |objects|, size, w, Retained)
      ensures failed == Count(objects, 0, |objects|, size, w, Failed)
    {
      deleted, retained, failed := 0, 0, 0;
      var start, end := 0, 0;
      while start < |objects|
        invariant end == Min(start, |objects|) && (start < |objects| ==> IsStart(start, size))
        invariant bucket == old(bucket) - Removed(objects, 0, end, size, w)
        invariant registry == old(registry) - Unregistered(objects, 0, end, size, w)
        invariant deleted == Count(objects, 0, end, size, w, Deleted)
        invariant retained == Count(objects, 0, end, size, w, Retained)
        invariant failed == Count(objects, 0, end, size, w, Failed)
      {
        BatchOf(start, size, 0);
        end := Min(start + size, |objects|);
        var d, r, f := EraseBatch(objects, start, end, size, w);
        SetsAdd(objects, 0, start, end, size, w);
        CountsAdd(objects, 0, start, end, size, w, Deleted);
        CountsAdd(objects, 0, start, end, size, w, Retained);
        CountsAdd(objects, 0, start, end, size, w, Failed);
        deleted, retained, failed := deleted + d, retained + r, failed + f;
        start := start + size;
      }
      CountsConserveObjects(objects, |objects|, size, w);
      if Honest(objects, size, w, live) {
        forall key | ToBareKey(key) in live ensures key !in Removed(objects, 0, |objects|, size, w) {
          LiveKeysSurvive(objects, size, w, live, key);
        }
      }
    }
  }

  // -------------------------------------------------------------------------- properties

  /** Every listed object is counted once. */
  lemma {:induction false} CountsConserveObjects(objects: seq<string>, n: nat, size: nat, w: World)
    requires n <= |objects| && size >= 1
    ensures Count(objects, 0, n, size, w, Deleted) + Count(objects, 0, n, size, w, Retained)
        + Count(objects, 0, n, size, w, Failed) == n
  {
    if n == 0 {
    } else {
      CountsConserveObjects(objects, n - 1, size, w);
    }
  }

  /** What a batch's answer says of its own objects is true, unless it says it is incomplete. */
  ghost predicate Honest(objects: seq<string>, size: nat, w: World, live: set<string>)
    requires size >= 1
  {
    forall i: nat | i < |objects| ::
      var r := ResolutionFor(w, i, size);
      r.degraded || (ToBareKey(objects[i]) in r.references <==> ToBareKey(objects[i]) in live)
  }

  /** Nothing a surviving row shows is ever deleted, and nothing of a batch that could not be resolved. */
  lemma {:induction false} NothingLiveIsRemoved(objects: seq<string>, size: nat, w: World, live: set<string>, i: nat)
    requires size >= 1 && Honest(objects, size, w, live) && i < |objects|
    ensures RemovedAt(objects, i, size, w) <==>
              !ResolutionFor(w, i, size).degraded && ToBareKey(objects[i]) !in live && !w.attempt(i).StorageFails?
    ensures FateAt(objects, i, size, w) == Retained <==>
        ResolutionFor(w, i, size).degraded || ToBareKey(objects[i]) in live
  {
  }

  lemma {:induction false} LiveKeysSurvive(objects: seq<string>, size: nat, w: World, live: set<string>, key: string)
    requires size >= 1 && Honest(objects, size, w, live) && ToBareKey(key) in live
    ensures key !in Removed(objects, 0, |objects|, size, w)
  {
    forall i: nat | i < |objects| && objects[i] == key ensures !RemovedAt(objects, i, size, w) {
      NothingLiveIsRemoved(objects, size, w, live, i);
    }
  }

  /** The batch size shows only where a reference check was incomplete. */
  lemma {:induction false} BatchSizeDoesNotMatter(
      objects: seq<string>, size: nat, size': nat, w: World, live: set<string>)
    requires size >= 1 && size' >= 1 && Honest(objects, size, w, live) && Honest(objects, size', w, live)
    requires forall i: nat | i < |objects| ::
        !ResolutionFor(w, i, size).degraded && !ResolutionFor(w, i, size').degraded
    ensures Removed(objects, 0, |objects|, size, w) == Removed(objects, 0, |objects|, size', w)
    ensures forall i: nat | i < |objects| :: FateAt(objects, i, size, w) == FateAt(objects, i, size', w)
  {
    forall i: nat | i < |objects|
      ensures RemovedAt(objects, i, size, w) == RemovedAt(objects, i, size', w)
          && FateAt(objects, i, size, w) == FateAt(objects, i, size', w)
    {
      NothingLiveIsRemoved(objects, size, w, live, i);
      NothingLiveIsRemoved(objects, size', w, live, i);
    }
  }

  // ----------------------------------------------------------------- by the batches' answers

  /** The batch of an index starts at the last multiple of the size that is not past it. */
  lemma {:induction false} BatchStartIs(i: nat, size: nat) returns (k: nat)
    requires size >= 1
    ensures BatchStart(i, size) == k * size <= i < k * size + size
  {
    if i < size {
      k := 0;
    } else {
      var before := BatchStartIs(i - size, size);
      k := before + 1;
      assert k * size == before * size + size;
    }
  }

  /** An object a surviving row shows, by its key or by a `/files/` address of it, survives complete answers. */
  lemma {:induction false} ShownObjectsSurvive(
      objects: seq<string>, size: nat, w: World, live: set<string>, key: string)
    requires size >= 1 && ToBareKey(key) in live
    requires forall i: nat | i < |objects| ::
        var answer := w.resolve(BatchStart(i, size));
        answer.degraded || (ToBareKey(objects[i]) in answer.references <==> ToBareKey(objects[i]) in live)
    ensures key !in Removed(objects, 0, |objects|, size, w)
  {
    forall i: nat | i < |objects|
      ensures var r := ResolutionFor(w, i, size);
              r.degraded || (ToBareKey(objects[i]) in r.references <==> ToBareKey(objects[i]) in live)
    {
      assert ResolutionFor(w, i, size) == w.resolve(BatchStart(i, size));
    }
    LiveKeysSurvive(objects, size, w, live, key);
  }
}
