/** `WriteBatcher` of src/write_batcher.rs: a queue of writes in front of a block device. */
module WriteBatchers {
  import opened Wrappers
  import opened Bytes
  import opened NodeEncoders
  import opened SpaceMaps

  type Checksum = c: seq<byte> | |c| == 4 witness [0, 0, 0, 0]

  datatype Item = Item(loc: nat, data: Block)

  /** `write_checksum`: sets the first four bytes, for what comes after them; an unknown kind is an error. */
  function Stamped(csum: (seq<byte>, Kind) -> Checksum, data: Block, kind: Kind): Option<Block> {
    if kind == Unknown then None else Some(csum(data[4..], kind) + data[4..])
  }

  /** A block that bears its checksum and is otherwise as it was given. */
  ghost predicate BearsChecksum(csum: (seq<byte>, Kind) -> Checksum, given: Block, kind: Kind, held: Option<Block>) {
    held.Some? && held.value[..4] == csum(held.value[4..], kind) && held.value[4..] == given[4..]
  }

  /** A device.  A call may fail as a whole, having written nothing; the writes to a bad block fail one by one. */
  class Engine {
    var blocks: map<nat, Block>
    const bad: set<nat>

    constructor (blocks: map<nat, Block>, bad: set<nat>)
      ensures this.blocks == blocks && this.bad == bad
    {
      this.blocks, this.bad := blocks, bad;
    }

    method WriteMany(items: seq<Item>) returns (results: Option<seq<bool>>)
      modifies this
      ensures blocks == if results.Some? then Put(old(blocks), items, bad) else old(blocks)
      ensures results.Some? ==> |results.value| == |items| && forall i :: 0 <= i < |items| ==> results.value[i] == (items[i].loc !in bad)
    {
      var up: bool := *;
      if !up {
        return None;
      }
      var rs: seq<bool> := [];
      ghost var before := blocks;
      for i := 0 to |items|
        invariant blocks == Put(before, items[..i], bad)
        invariant |rs| == i && forall k :: 0 <= k < i ==> rs[k] == (items[k].loc !in bad)
      {
        assert items[..i + 1][..i] == items[..i];
        if items[i].loc !in bad {
          blocks := blocks[items[i].loc := items[i].data];
        }
        rs := rs + [items[i].loc !in bad];
      }
      assert items[..|items|] == items;
      results := Some(rs);
    }

    method Read(loc: nat) returns (data: Option<Block>)
      ensures data == Fetch(blocks, loc)
    {
      data := if loc in blocks then Some(blocks[loc]) else None;
    }
  }

  function Fetch(blocks: map<nat, Block>, loc: nat): Option<Block> {
    if loc in blocks then Some(blocks[loc]) else None
  }

  /** The blocks after some writes, in order. */
  function Put(blocks: map<nat, Block>, items: seq<Item>, bad: set<nat>): map<nat, Block> {
    if items == [] then blocks
    else
      var before, item := Put(blocks, items[..|items| - 1], bad), items[|items| - 1];
      if item.loc in bad then before else before[item.loc := item.data]
  }

  predicate Distinct(items: seq<Item>) {
    forall i, j :: 0 <= i < j < |items| ==> items[i].loc != items[j].loc
  }

  function Find(items: seq<Item>, loc: nat): (i: Option<nat>)
    ensures i.Some? ==> i.value < |items| && items[i.value].loc == loc
    ensures i.None? <==> forall k :: 0 <= k < |items| ==> items[k].loc != loc
  {
    if items == [] then None
    else if items[|items| - 1].loc == loc then Some(|items| - 1)
    else Find(items[..|items| - 1], loc)
  }

  /** Once written, each queued item is what its block holds, unless that is bad. */
  lemma {:induction false} PutAt(blocks: map<nat, Block>, items: seq<Item>, bad: set<nat>, loc: nat)
    requires Distinct(items)
    ensures Fetch(Put(blocks, items, bad), loc)
            == if loc in bad || Find(items, loc).None? then Fetch(blocks, loc) else Some(items[Find(items, loc).value].data)
    decreases |items|
  {
    if items != [] {
      PutAt(blocks, items[..|items| - 1], bad, loc);
    }
  }

  class WriteBatcher {
    const engine: Engine
    const sm: SpaceMap
    const csum: (seq<byte>, Kind) -> Checksum
    const batchSize: nat
    var queue: seq<Item>
    var allocations: set<nat>

    /** No block is queued twice, and the queue is no longer than a batch.  (A batch size of zero never fills.) */
    ghost predicate Valid()
      reads this
    {
      Distinct(queue) && (batchSize > 0 ==> |queue| <= batchSize)
    }

    /** What the batcher stands for: block loc holds this, or cannot be read. */
    ghost function View(loc: nat): Option<Block>
      reads this, engine
    {
      if Find(queue, loc).Some? then Some(queue[Find(queue, loc).value].data) else Fetch(engine.blocks, loc)
    }

    constructor (engine: Engine, sm: SpaceMap, csum: (seq<byte>, Kind) -> Checksum, batchSize: nat)
      ensures Valid() && this.engine == engine && this.sm == sm && this.csum == csum && this.batchSize == batchSize
      ensures queue == [] && allocations == {}
    {
      this.engine, this.sm, this.csum, this.batchSize, queue, allocations := engine, sm, csum, batchSize, [], {};
    }

    /** Takes an unused block, remembers it, and changes what no block holds. */
    method Alloc() returns (b: Option<nat>)
      requires Valid() && sm.Valid()
      modifies this`allocations, sm
      ensures Valid() && sm.Valid() && |sm.counts| == |old(sm.counts)|
      ensures b.None? ==> sm.counts == old(sm.counts) && 0 !in sm.counts && allocations == old(allocations)
      ensures b.Some? ==> b.value < |sm.counts| && old(sm.counts)[b.value] == 0 && sm.counts == old(sm.counts)[b.value := 1]
      ensures b.Some? ==> allocations == old(allocations) + {b.value}
      ensures forall loc :: View(loc) == old(View(loc))
    {
      b := sm.Alloc();
      if b.Some? {
        allocations := allocations + {b.value};
      }
    }

    method ClearAllocations() returns (blocks: set<nat>)
      requires Valid()
      modifies this`allocations
      ensures Valid() && blocks == old(allocations) && allocations == {}
    {
      blocks, allocations := allocations, {};
    }

    /** The loop over the queue, newest first. */
    method Lookup(loc: nat) returns (found: Option<nat>)
      ensures found == Find(queue, loc)
    {
      var i := |queue|;
      assert queue[..|queue|] == queue;
      while i > 0
        invariant 0 <= i <= |queue| && Find(queue, loc) == Find(queue[..i], loc)
      {
        i := i - 1;
        assert queue[..i + 1][..i] == queue[..i];
        if queue[i].loc == loc {
          return Some(i);
        }
      }
      return None;
    }

    /** Sends the queue to the device.  If the call fails, what was queued is lost; if it succeeds, what was queued
        for bad blocks is, for nobody looks at the results. */
    method Flush() returns (ok: bool)
      requires Valid()
      modifies this`queue, engine
      ensures Valid() && queue == []
      ensures ok ==> forall loc :: loc !in engine.bad ==> View(loc) == old(View(loc))
      ensures ok ==> forall loc :: loc in engine.bad ==> View(loc) == Fetch(old(engine.blocks), loc)
      ensures !ok ==> engine.blocks == old(engine.blocks)
    {
      if queue == [] {
        return true;
      }
      var items := queue;
      queue := [];
      ghost var before := engine.blocks;
      var results := engine.WriteMany(items);
      forall loc ensures Fetch(Put(before, items, engine.bad), loc)
          == if loc in engine.bad || Find(items, loc).None? then Fetch(before, loc) else Some(items[Find(items, loc).value].data)
      {
        PutAt(before, items, engine.bad, loc);
      }
      ok := results.Some?;
    }

    /** Afterwards the block holds the stamped data, whether it was queued, free or in use before; the other blocks
        hold what they held, except that bad blocks lose the writes that were queued for them exactly when the queue
        was full and the block was not in it. */
    method Write(b: Item, kind: Kind) returns (ok: bool)
      requires Valid()
      modifies this`queue, engine
      ensures Valid()
      ensures ok ==> BearsChecksum(csum, b.data, kind, View(b.loc))
      ensures kind == Unknown ==> !ok && queue == old(queue) && engine.blocks == old(engine.blocks)
      ensures ok ==> forall loc :: loc != b.loc && loc !in engine.bad ==> View(loc) == old(View(loc))
      ensures ok ==> forall loc :: loc != b.loc && loc in engine.bad ==>
                View(loc) == if old(|queue|) == batchSize && Find(old(queue), b.loc).None? then Fetch(old(engine.blocks), loc)
                             else old(View(loc))
      ensures !ok && kind != Unknown ==> queue == [] && engine.blocks == old(engine.blocks)
      ensures kind != Unknown && (old(|queue|) != batchSize || Find(old(queue), b.loc).Some?)
              ==> ok && engine.blocks == old(engine.blocks)
      ensures ok ==> |queue| == if Find(old(queue), b.loc).Some? then old(|queue|) else if old(|queue|) == batchSize then 1
                                else old(|queue|) + 1
    {
      hide Find, Fetch, Distinct;
      var d := Stamped(csum, b.data, kind);
      if d.None? {
        return false;
      }
      var hit := Lookup(b.loc);
      if hit.Some? {
        QueueUpdated(queue, hit.value, d.value);
        queue := queue[hit.value := Item(b.loc, d.value)];
        return true;
      }
      ok := MakeRoom();
      if ok {
        QueuePushed(queue, Item(b.loc, d.value));
        queue := queue + [Item(b.loc, d.value)];
      }
    }

    /** Flushes a full queue. */
    method MakeRoom() returns (ok: bool)
      requires Valid()
      modifies this`queue, engine
      ensures Valid() && (ok && batchSize > 0 ==> |queue| < batchSize) && (!ok ==> queue == [] && engine.blocks == old(engine.blocks))
      ensures old(|queue|) != batchSize ==> ok
      ensures ok ==> if old(|queue|) == batchSize then queue == [] else queue == old(queue) && engine.blocks == old(engine.blocks)
      ensures ok ==> forall loc ::
                View(loc) == if old(|queue|) == batchSize && loc in engine.bad then Fetch(old(engine.blocks), loc) else old(View(loc))
    {
      ok := true;
      if |queue| == batchSize {
        ok := Flush();
      }
    }

    method Read(loc: nat) returns (data: Option<Block>)
      requires Valid()
      ensures data == View(loc)
    {
      var hit := Lookup(loc);
      if hit.Some? {
        return Some(queue[hit.value].data);
      }
      data := engine.Read(loc);
    }
  }

  lemma {:induction false} FindIs(items: seq<Item>, i: nat)
    requires Distinct(items) && i < |items|
    ensures Find(items, items[i].loc) == Some(i)
    decreases |items|
  {
    if i < |items| - 1 {
      FindIs(items[..|items| - 1], i);
    }
  }

  lemma QueueUpdated(queue: seq<Item>, i: nat, d: Block)
    requires Distinct(queue) && i < |queue|
    ensures var queue' := queue[i := Item(queue[i].loc, d)];
            Distinct(queue') && forall loc :: Find(queue', loc) == Find(queue, loc)
  {
    var queue' := queue[i := Item(queue[i].loc, d)];
    forall loc ensures Find(queue', loc) == Find(queue, loc) {
      if Find(queue, loc).Some? {
        FindIs(queue', Find(queue, loc).value);
      }
    }
  }

  lemma {:induction false} QueuePushed(queue: seq<Item>, item: Item)
    requires Distinct(queue) && Find(queue, item.loc).None?
    ensures Distinct(queue + [item])
    ensures forall loc :: Find(queue + [item], loc) == if loc == item.loc then Some(|queue|) else Find(queue, loc)
  {
    assert (queue + [item])[..|queue|] == queue;
  }

  /** A queue of one holds a write to a bad block: the next write, when it is accepted, loses that. */
  method LosesWrite(sm: SpaceMap, csum: (seq<byte>, Kind) -> Checksum, data: Block, blocks: map<nat, Block>)
    returns (w: WriteBatcher, first: bool, second: bool, back: Option<Block>)
    requires 7 !in blocks
    ensures w.engine.bad == {7} && first && (second ==> back == None)
  {
    var engine := new Engine(blocks, {7});
    w := new WriteBatcher(engine, sm, csum, 1);
    first := w.Write(Item(7, data), Bitmap);
    assert Find(w.queue, 7) == Some(0) by { assert w.View(7).Some?; }
    second := w.Write(Item(8, data), Bitmap);
    back := w.Read(7);
  }
}
