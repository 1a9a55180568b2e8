/** Reference counts of metadata or data blocks: `CoreSpaceMap` of src/pdata/space_map/base.rs. */
module SpaceMaps {
  import opened Wrappers

  // core_sm(.., u32::MAX): counts are kept in u32s and `inc` refuses to pass the largest.
  const MAX_COUNT: nat := 0xFFFF_FFFF

  class SpaceMap {
    var counts: seq<nat>
    var allocBegin: nat

    ghost predicate Valid()
      reads this
    {
      && allocBegin <= |counts|
      && forall i :: 0 <= i < |counts| ==> counts[i] <= MAX_COUNT
    }

    constructor (nrBlocks: nat)
      ensures Valid() && |counts| == nrBlocks && forall i :: 0 <= i < nrBlocks ==> counts[i] == 0
    {
      counts, allocBegin := seq(nrBlocks, _ => 0), 0;
    }

    /** The first unused block of [begin, end), if there is one. */
    method FindFree(begin: nat, end: nat) returns (b: Option<nat>)
      requires begin <= end <= |counts|
      ensures b.Some? ==> begin <= b.value < end && counts[b.value] == 0
                          && forall i :: begin <= i < b.value ==> counts[i] != 0
      ensures b.None? ==> forall i :: begin <= i < end ==> counts[i] != 0
    {
      for i := begin to end
        invariant forall j :: begin <= j < i ==> counts[j] != 0
      {
        if counts[i] == 0 {
          return Some(i);
        }
      }
      return None;
    }

    /** Whether block i comes before block b in a search that begins somewhere. */
    static predicate Before(begin: nat, i: nat, b: nat) {
      if b >= begin then begin <= i < b else i >= begin || i < b
    }

    /** Takes the first unused block, searching from where the last search ended and wrapping round once.
        Fails exactly when every block is in use. */
    method Alloc() returns (b: Option<nat>)
      requires Valid()
      modifies this
      ensures Valid() && |counts| == old(|counts|)
      ensures b.None? ==> counts == old(counts) && 0 !in counts
      ensures b.Some? ==> b.value < |counts| && old(counts[b.value]) == 0 && counts == old(counts[b.value := 1])
      ensures b.Some? ==> forall i :: 0 <= i < |old(counts)| && Before(old(allocBegin), i, b.value) ==> old(counts)[i] != 0
      ensures allocBegin == if b.Some? then b.value + 1 else old(allocBegin)
    {
      b := FindFree(allocBegin, |counts|);
      if b.None? {
        b := FindFree(0, allocBegin);
        if b.None? {
          return;
        }
      }
      counts, allocBegin := counts[b.value := 1], b.value + 1;
    }

    method Inc(b: nat) returns (ok: bool)
      requires Valid()
      modifies `counts
      ensures Valid()
      ensures ok == (b < |old(counts)| && old(counts)[b] < MAX_COUNT)
      ensures counts == if ok then old(counts[b := counts[b] + 1]) else old(counts)
    {
      ok := b < |counts| && counts[b] < MAX_COUNT;
      if ok {
        counts := counts[b := counts[b] + 1];
      }
    }

    /** Drops one reference; `Some(true)` says it was the last.  An unused block is an error. */
    method Dec(b: nat) returns (deleted: Option<bool>)
      requires Valid()
      modifies `counts
      ensures Valid()
      ensures deleted.Some? == (b < |old(counts)| && old(counts)[b] > 0)
      ensures counts == if deleted.Some? then old(counts[b := counts[b] - 1]) else old(counts)
      ensures deleted.Some? ==> (deleted.value <==> counts[b] == 0)
    {
      if b >= |counts| || counts[b] == 0 {
        return None;
      }
      deleted := Some(counts[b] == 1);
      counts := counts[b := counts[b] - 1];
    }
  }
}
