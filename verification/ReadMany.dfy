/** `read_many_` of src/io_engine/sync.rs: reads any list of blocks through batches of adjacent ones. */
module ReadManys {
  import opened Wrappers
  import opened Sequences
  import opened Bytes
  import opened Gaps
  import opened BlockIo

  const BLOCK_SIZE: nat := 4096
  const GAP_THRESHOLD: nat := 8
  const UIO_MAXIOV: nat := 1024

  datatype Block = Block(loc: nat, data: seq<byte>)

  /** One buffer of a batch: where it is read from, and whether anybody asked for it. */
  datatype Entry = Entry(loc: nat, wanted: bool)

  function OpEntries(op: RunOp, n: nat): (es: seq<Entry>)
    ensures |es| == n
  {
    seq(n, i requires i >= 0 => Entry(op.b + i, op.Run?))
  }

  function Entries(ops: seq<RunOp>): (es: seq<Entry>)
    requires AllOk(ops)
    ensures |es| == Size(ops)
  {
    if ops == [] then [] else Entries(ops[..|ops| - 1]) + OpEntries(ops[|ops| - 1], ops[|ops| - 1].Len())
  }

  function Wanted(es: seq<Entry>): (locs: seq<nat>)
    ensures |locs| <= |es|
  {
    if es == [] then []
    else Wanted(es[..|es| - 1]) + if es[|es| - 1].wanted then [es[|es| - 1].loc] else []
  }

  lemma {:induction false} WantedPush(es: seq<Entry>, e: Entry)
    ensures Wanted(es + [e]) == Wanted(es) + if e.wanted then [e.loc] else []
  {
    assert (es + [e])[..|es|] == es;
  }

  lemma {:induction false} WantedOp(es: seq<Entry>, op: RunOp, n: nat)
    requires op.Ok() && n <= op.Len()
    ensures Wanted(es + OpEntries(op, n)) == Wanted(es) + if op.Run? then Span(op.b, op.b + n) else []
  {
    hide Wanted;
    if n == 0 {
      assert es + OpEntries(op, 0) == es && Wanted(es) + [] == Wanted(es);
    } else {
      var e, w := Entry(op.b + n - 1, op.Run?), Wanted(es);
      WantedOp(es, op, n - 1);
      assert es + OpEntries(op, n) == es + OpEntries(op, n - 1) + [e];
      WantedPush(es + OpEntries(op, n - 1), e);
      if op.Run? {
        assert Span(op.b, op.b + n) == Span(op.b, op.b + n - 1) + [e.loc];
        assert w + Span(op.b, op.b + n - 1) + [e.loc] == w + (Span(op.b, op.b + n - 1) + [e.loc]);
      } else {
        assert w + [] + [] == w + [];
      }
    }
  }

  lemma {:induction false} WantedIsRunBlocks(ops: seq<RunOp>)
    requires AllOk(ops)
    ensures Wanted(Entries(ops)) == RunBlocks(ops)
    decreases |ops|
  {
    if ops != [] {
      var k := |ops| - 1;
      WantedIsRunBlocks(ops[..k]);
      WantedOp(Entries(ops[..k]), ops[k], ops[k].Len());
    }
  }

  /** The entries of a contiguous batch are the blocks from the first one on. */
  lemma {:induction false} EntryLoc(ops: seq<RunOp>, j: nat)
    requires AllOk(ops) && Contiguous(ops) && j < Size(ops)
    ensures Entries(ops)[j].loc == ops[0].b + j
    ensures ops[|ops| - 1].e == ops[0].b + Size(ops)
    decreases |ops|
  {
    var k := |ops| - 1;
    var before := ops[..k];
    if k == 0 {
      assert before == [];
    } else {
      assert before[k - 1].e == ops[k].b;
      EndOf(before);
      if j < Size(before) {
        EntryLoc(before, j);
      }
    }
  }

  lemma {:induction false} EndOf(ops: seq<RunOp>)
    requires AllOk(ops) && Contiguous(ops) && ops != []
    ensures ops[|ops| - 1].e == ops[0].b + Size(ops)
    decreases |ops|
  {
    var k := |ops| - 1;
    if k > 0 {
      EndOf(ops[..k]);
      assert ops[k - 1].e == ops[k - 1 + 1].b;
    } else {
      assert ops[..0] == [];
    }
  }

  /** The wanted buffers belong to the caller's blocks in turn, beginning with number `base`. */
  ghost predicate SlotsOk(slots: seq<Option<nat>>, es: seq<Entry>, base: nat) {
    && |slots| == |es|
    && forall j :: 0 <= j < |es| ==> slots[j] == if es[j].wanted then Some(base + |Wanted(es[..j])|) else None
  }

  lemma {:induction false} SlotsPush(slots: seq<Option<nat>>, es: seq<Entry>, base: nat, e: Entry)
    requires SlotsOk(slots, es, base)
    ensures SlotsOk(slots + [if e.wanted then Some(base + |Wanted(es)|) else None], es + [e], base)
  {
    assert (es + [e])[..|es|] == es;
    assert forall j :: 0 <= j < |es| ==> (es + [e])[..j] == es[..j];
  }

  /** Collects the buffers of a batch, checking that each run's blocks are the caller's next ones. */
  method BuildIo(batch: seq<RunOp>, blocks: seq<nat>, issued: nat) returns (slots: seq<Option<nat>>, first: nat, issued': nat)
    requires GoodBatch(batch, UIO_MAXIOV) && issued + |RunBlocks(batch)| <= |blocks|
    requires RunBlocks(batch) == blocks[issued..issued + |RunBlocks(batch)|]
    ensures SlotsOk(slots, Entries(batch), issued) && first == batch[0].b && issued' == issued + |RunBlocks(batch)|
  {
    slots, issued' := [], issued;
    var found: Option<nat> := None;
    WantedIsRunBlocks(batch);
    NoSlots(issued, batch);
    for i := 0 to |batch|
      invariant found == if i == 0 then None else Some(batch[0].b)
      invariant AllOk(batch[..i]) && SlotsOk(slots, Entries(batch[..i]), issued)
      invariant issued' == issued + |Wanted(Entries(batch[..i]))|
    {
      var op := batch[i];
      if found.None? {
        found := Some(op.b);
      }
      slots, issued' := BuildOp(batch, i, blocks, issued, slots, issued');
    }
    assert batch[..|batch|] == batch;
    first := found.value;
  }

  lemma NoSlots(base: nat, batch: seq<RunOp>)
    ensures SlotsOk([], Entries(batch[..0]), base) && |Wanted(Entries(batch[..0]))| == 0
  {
  }

  method BuildOp(batch: seq<RunOp>, i: nat, blocks: seq<nat>, ghost base: nat, slots: seq<Option<nat>>, issued: nat)
    returns (slots': seq<Option<nat>>, issued': nat)
    requires AllOk(batch) && i < |batch| && base + |RunBlocks(batch)| <= |blocks|
    requires RunBlocks(batch) == blocks[base..base + |RunBlocks(batch)|] == Wanted(Entries(batch))
    requires SlotsOk(slots, Entries(batch[..i]), base) && issued == base + |Wanted(Entries(batch[..i]))|
    ensures SlotsOk(slots', Entries(batch[..i + 1]), base)
    ensures issued' == base + |Wanted(Entries(batch[..i + 1]))|
  {
    hide RunBlocks, SlotsOk, Wanted;
    var op := batch[i];
    ghost var before := Entries(batch[..i]);
    slots', issued' := slots, issued;
    assert before + OpEntries(op, 0) == before;
    PrefixOf(batch, i, op.Len());
    for n := 0 to op.Len()
      invariant SlotsOk(slots', before + OpEntries(op, n), base)
      invariant issued' == base + |Wanted(before + OpEntries(op, n))|
    {
      ghost var e := Entry(op.b + n, op.Run?);
      SlotsPush(slots', before + OpEntries(op, n), base, e);
      WantedPush(before + OpEntries(op, n), e);
      assert before + OpEntries(op, n + 1) == before + OpEntries(op, n) + [e];
      match op
      case Run(b, _) =>
        PrefixOf(batch, i, n + 1);
        assert b + n == blocks[issued'];
        slots', issued' := slots' + [Some(issued')], issued' + 1;
      case Gap(_, _) =>
        slots' := slots' + [None];
    }
    assert batch[..i + 1][..i] == batch[..i];
  }

  /** The wanted blocks of the first entries are the first of the wanted blocks. */
  lemma {:induction false} PrefixOf(batch: seq<RunOp>, i: nat, n: nat)
    requires AllOk(batch) && i < |batch| && n <= batch[i].Len()
    ensures Wanted(Entries(batch[..i]) + OpEntries(batch[i], n)) <= Wanted(Entries(batch))
  {
    hide Wanted, RunBlocks, Span;
    var op := batch[i];
    WantedOp(Entries(batch[..i]), op, n);
    WantedIsRunBlocks(batch[..i]);
    WantedIsRunBlocks(batch);
    Around(batch, i);
    PrefixSpan(RunBlocks(batch[..i]), op, n, RunBlocks(batch[i + 1..]));
  }

  lemma {:induction false} Around(batch: seq<RunOp>, i: nat)
    requires AllOk(batch) && i < |batch|
    ensures RunBlocks(batch) == RunBlocks(batch[..i]) + OpBlocks(batch[i]) + RunBlocks(batch[i + 1..])
  {
    hide RunBlocks, OpBlocks;
    assert batch == batch[..i] + [batch[i]] + batch[i + 1..];
    RunBlocksConcat(batch[..i] + [batch[i]], batch[i + 1..]);
    RunBlocksPush(batch[..i], batch[i]);
  }

  lemma PrefixSpan(a: seq<nat>, op: RunOp, n: nat, c: seq<nat>)
    requires op.Ok() && n <= op.Len()
    ensures a + (if op.Run? then Span(op.b, op.b + n) else []) <= a + OpBlocks(op) + c
  {
  }

  /** Result i is an error or the content of block i. */
  ghost predicate ResultOk(dev: Device, r: Option<Block>, loc: nat) {
    r.Some? ==> r.value == Block(loc, dev.Content(loc * BLOCK_SIZE, BLOCK_SIZE))
  }

  ghost predicate ResultsOk(dev: Device, results: seq<Option<Block>>, locs: seq<nat>) {
    && |results| == |locs|
    && (forall i :: 0 <= i < |locs| ==> ResultOk(dev, results[i], locs[i]))
    && (dev.Reliable() ==> forall i :: 0 <= i < |locs| ==> results[i].Some?)
  }

  /** What reading a batch gave: buffer j, if it was read, has the device's content for its entry. */
  ghost predicate RunOk(dev: Device, es: seq<Entry>, run: seq<bool>, bufs: seq<seq<byte>>) {
    && |run| == |bufs| == |es|
    && (forall j :: 0 <= j < |es| && run[j] ==> bufs[j] == dev.Content(es[j].loc * BLOCK_SIZE, BLOCK_SIZE))
    && (dev.Reliable() ==> forall j :: 0 <= j < |es| ==> run[j])
  }

  lemma {:induction false} BatchRead(vio: VectoredBlockIo, batch: seq<RunOp>, run: seq<bool>, bufs: seq<seq<byte>>)
    requires GoodBatch(batch, UIO_MAXIOV) && !vio.partialIo && |run| == |bufs| == Size(batch)
    requires forall j :: 0 <= j < |bufs| && run[j] ==> vio.Holds(bufs[j], Slot(batch[0].b * BLOCK_SIZE, BLOCK_SIZE, j), BLOCK_SIZE)
    requires vio.dev.Reliable() ==> forall j :: 0 <= j < |bufs| ==> run[j]
    ensures RunOk(vio.dev, Entries(batch), run, bufs)
  {
    forall j | 0 <= j < |bufs| && run[j]
      ensures bufs[j] == vio.dev.Content(Entries(batch)[j].loc * BLOCK_SIZE, BLOCK_SIZE)
    {
      EntryLoc(batch, j);
      assert (batch[0].b + j) * BLOCK_SIZE == Slot(batch[0].b * BLOCK_SIZE, BLOCK_SIZE, j);
    }
  }

  /** The results of the first n buffers, in order: a failed one's block is lost, and the others are taken. */
  lemma ResultPush(dev: Device, es: seq<Entry>, run: seq<bool>, bufs: seq<seq<byte>>, results: seq<Option<Block>>, n: nat)
    requires RunOk(dev, es, run, bufs) && n < |es| && ResultsOk(dev, results, Wanted(es[..n]))
    ensures var r := if run[n] then Some(Block(es[n].loc, bufs[n])) else None;
            ResultsOk(dev, if es[n].wanted then results + [r] else results, Wanted(es[..n + 1]))
  {
    assert es[..n + 1] == es[..n] + [es[n]];
    WantedPush(es[..n], es[n]);
  }

  /** Picks the results of the wanted buffers. */
  method SelectResults(dev: Device, batch: seq<RunOp>, slots: seq<Option<nat>>, run: seq<bool>, bufs: seq<seq<byte>>,
                       blocks: seq<nat>, base: nat)
    returns (results: seq<Option<Block>>)
    requires AllOk(batch) && RunOk(dev, Entries(batch), run, bufs) && SlotsOk(slots, Entries(batch), base)
    requires base + |RunBlocks(batch)| <= |blocks| && RunBlocks(batch) == blocks[base..base + |RunBlocks(batch)|]
    ensures ResultsOk(dev, results, RunBlocks(batch))
  {
    hide RunOk, SlotsOk, ResultsOk, Wanted;
    ghost var es := Entries(batch);
    results := [];
    var rindex, bsIndex: nat := 0, base;
    WantedIsRunBlocks(batch);
    NoResults(dev, es);
    for i := 0 to |batch|
      invariant AllOk(batch[..i]) && rindex == |Entries(batch[..i])| && Entries(batch[..i]) <= es
      invariant ResultsOk(dev, results, Wanted(es[..rindex])) && bsIndex == base + |Wanted(es[..rindex])|
    {
      results, rindex, bsIndex := SelectOp(dev, batch, i, slots, run, bufs, blocks, base, results, rindex, bsIndex);
    }
    assert batch[..|batch|] == batch && es[..|es|] == es;
  }

  lemma NoResults(dev: Device, es: seq<Entry>)
    ensures ResultsOk(dev, [], Wanted(es[..0])) && |Wanted(es[..0])| == 0
  {
  }

  method SelectOp(dev: Device, batch: seq<RunOp>, i: nat, slots: seq<Option<nat>>, run: seq<bool>, bufs: seq<seq<byte>>,
                  blocks: seq<nat>, ghost base: nat, results: seq<Option<Block>>, rindex: nat, bsIndex: nat)
    returns (results': seq<Option<Block>>, rindex': nat, bsIndex': nat)
    requires AllOk(batch) && i < |batch| && RunOk(dev, Entries(batch), run, bufs) && SlotsOk(slots, Entries(batch), base)
    requires Wanted(Entries(batch)) == RunBlocks(batch)
    requires base + |RunBlocks(batch)| <= |blocks| && RunBlocks(batch) == blocks[base..base + |RunBlocks(batch)|]
    requires rindex == |Entries(batch[..i])| && Entries(batch[..i]) <= Entries(batch)
    requires ResultsOk(dev, results, Wanted(Entries(batch)[..rindex])) && bsIndex == base + |Wanted(Entries(batch)[..rindex])|
    ensures rindex' == |Entries(batch[..i + 1])| && Entries(batch[..i + 1]) <= Entries(batch)
    ensures ResultsOk(dev, results', Wanted(Entries(batch)[..rindex'])) && bsIndex' == base + |Wanted(Entries(batch)[..rindex'])|
  {
    hide ResultsOk, RunOk, SlotsOk, Wanted, RunBlocks;
    ghost var es := Entries(batch);
    var op := batch[i];
    results', rindex', bsIndex' := results, rindex, bsIndex;
    EntriesOf(batch, i);
    for n := 0 to op.Len()
      invariant rindex' == rindex + n && bsIndex' == base + |Wanted(es[..rindex'])|
      invariant ResultsOk(dev, results', Wanted(es[..rindex']))
    {
      ResultPush(dev, es, run, bufs, results', rindex');
      assert es[..rindex' + 1] == es[..rindex'] + [es[rindex']];
      WantedPush(es[..rindex'], es[rindex']);
      if op.Run? {
        SlotIs(dev, es, slots, run, bufs, base, rindex');
        WantedGrows(es, rindex' + 1);
        assert slots[rindex'] == Some(bsIndex') && blocks[bsIndex'] == op.b + n;
        results' := results' + [if run[rindex'] then Some(Block(op.b + n, bufs[rindex'])) else None];
        bsIndex' := bsIndex' + 1;
      }
      rindex' := rindex' + 1;
    }
  }

  lemma SlotIs(dev: Device, es: seq<Entry>, slots: seq<Option<nat>>, run: seq<bool>, bufs: seq<seq<byte>>, base: nat, j: nat)
    requires RunOk(dev, es, run, bufs) && SlotsOk(slots, es, base) && j < |es| && es[j].wanted
    ensures j < |slots| && j < |run| && j < |bufs| && slots[j] == Some(base + |Wanted(es[..j])|)
  {
  }

  lemma {:induction false} WantedGrows(es: seq<Entry>, n: nat)
    requires n <= |es|
    ensures Wanted(es[..n]) <= Wanted(es)
    decreases |es|
  {
    var k := |es| - 1;
    if n == |es| {
      assert es[..n] == es;
    } else {
      WantedGrows(es[..k], n);
      assert es[..k][..n] == es[..n];
    }
  }

  lemma {:induction false} EntriesOf(batch: seq<RunOp>, i: nat)
    requires AllOk(batch) && i < |batch|
    ensures Entries(batch[..i + 1]) == Entries(batch[..i]) + OpEntries(batch[i], batch[i].Len())
    ensures Entries(batch[..i + 1]) <= Entries(batch)
    decreases |batch|
  {
    assert batch[..i + 1][..i] == batch[..i];
    if i + 1 < |batch| {
      var k := |batch| - 1;
      EntriesOf(batch[..k], i);
      assert batch[..k][..i + 1] == batch[..i + 1];
    } else {
      assert batch[..i + 1] == batch;
    }
  }

  /** Reads the blocks, which may come in any order and repeat: there is one result for each, in order, and it is
      an error or what the device holds.  On a device that answers every read in full, none is an error. */
  method ReadMany(vio: VectoredBlockIo, blocks: seq<nat>) returns (results: seq<Option<Block>>)
    requires !vio.partialIo
    modifies vio.dev
    ensures ResultsOk(vio.dev, results, blocks)
  {
    hide ResultsOk, RunBlocks, Flatten;
    results := [];
    var batches := GenerateRuns(blocks, GAP_THRESHOLD, UIO_MAXIOV);
    var issued: nat := 0;
    NothingRead(vio.dev);
    assert batches[..0] == [];
    for i := 0 to |batches|
      invariant AllOk(Flatten(batches[..i])) && RunBlocks(Flatten(batches[..i])) <= blocks
      invariant issued == |RunBlocks(Flatten(batches[..i]))|
      invariant ResultsOk(vio.dev, results, RunBlocks(Flatten(batches[..i])))
    {
      NextBatch(batches, i, blocks);
      var more;
      more, issued := ReadBatch(vio, batches[i], blocks, issued);
      BothRead(vio.dev, results, RunBlocks(Flatten(batches[..i])), more, RunBlocks(batches[i]));
      results := results + more;
    }
    assert batches[..|batches|] == batches;
  }

  lemma NothingRead(dev: Device)
    ensures AllOk(Flatten([])) && RunBlocks(Flatten([])) == [] && ResultsOk(dev, [], [])
  {
  }

  lemma BothRead(dev: Device, r1: seq<Option<Block>>, l1: seq<nat>, r2: seq<Option<Block>>, l2: seq<nat>)
    requires ResultsOk(dev, r1, l1) && ResultsOk(dev, r2, l2)
    ensures ResultsOk(dev, r1 + r2, l1 + l2)
  {
  }

  lemma {:induction false} NextBatch(batches: seq<seq<RunOp>>, i: nat, blocks: seq<nat>)
    requires i < |batches| && AllOk(Flatten(batches)) && RunBlocks(Flatten(batches)) == blocks
    requires AllOk(Flatten(batches[..i])) && AllOk(batches[i])
    ensures AllOk(Flatten(batches[..i + 1]))
    ensures var a, b := RunBlocks(Flatten(batches[..i])), RunBlocks(batches[i]);
            && RunBlocks(Flatten(batches[..i + 1])) == a + b <= blocks && b == blocks[|a|..|a| + |b|]
  {
    hide RunBlocks;
    assert batches[..i + 1][..i] == batches[..i];
    RunBlocksConcat(Flatten(batches[..i]), batches[i]);
    FlattenPrefix(batches, i);
    var rest := Flatten(batches)[|Flatten(batches[..i + 1])|..];
    assert Flatten(batches) == Flatten(batches[..i + 1]) + rest;
    RunBlocksConcat(Flatten(batches[..i + 1]), rest);
  }

  method ReadBatch(vio: VectoredBlockIo, batch: seq<RunOp>, blocks: seq<nat>, issued: nat)
    returns (results: seq<Option<Block>>, issued': nat)
    requires !vio.partialIo && GoodBatch(batch, UIO_MAXIOV)
    requires issued + |RunBlocks(batch)| <= |blocks| && RunBlocks(batch) == blocks[issued..issued + |RunBlocks(batch)|]
    modifies vio.dev
    ensures ResultsOk(vio.dev, results, RunBlocks(batch)) && issued' == issued + |RunBlocks(batch)|
  {
    hide ResultsOk, RunBlocks, VectoredBlockIo.Holds, Slot;
    var slots, first;
    slots, first, issued' := BuildIo(batch, blocks, issued);
    SlotsLength(slots, batch, issued);
    var buffers := seq(|slots|, i => Zeros(BLOCK_SIZE));
    var run, bufs, _ := vio.ReadBlocks(buffers, first * BLOCK_SIZE, BLOCK_SIZE);
    BatchRead(vio, batch, run, bufs);
    results := SelectResults(vio.dev, batch, slots, run, bufs, blocks, issued);
  }

  lemma {:induction false} SlotsLength(slots: seq<Option<nat>>, batch: seq<RunOp>, base: nat)
    requires GoodBatch(batch, UIO_MAXIOV) && SlotsOk(slots, Entries(batch), base)
    ensures 0 < |slots| == Size(batch) <= UIO_MAXIOV && batch != []
  {
  }
}
