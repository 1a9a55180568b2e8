/** `ArrayBlockBuilder` of src/pdata/array_builder.rs.  Values arrive by ascending index, those not given are
    defaults, and blocks are emitted as they fill up; the last block of the array is as large as what is left of
    it. */
module ArrayBuilders {
  import opened Sequences

  function DivUp(n: nat, d: nat): nat
    requires d > 0
  {
    (n + (d - 1)) / d
  }

  /** The entries of block k of an array: all of them but in the last block. */
  function BlockSize(nrEntries: nat, perBlock: nat, k: nat): nat {
    var rest := nrEntries - k * perBlock;
    if rest < 0 then 0 else if rest < perBlock then rest else perBlock
  }

  /** Every block is as full as it can be. */
  ghost predicate AllFull<V>(blocks: seq<seq<V>>, nrEntries: nat, perBlock: nat) {
    forall k :: 0 <= k < |blocks| ==> |blocks[k]| == BlockSize(nrEntries, perBlock, k)
  }

  lemma BeforeLast(nrEntries: nat, perBlock: nat, k: nat)
    requires perBlock > 0 && k < DivUp(nrEntries, perBlock)
    ensures k * perBlock < nrEntries
    ensures k + 1 < DivUp(nrEntries, perBlock) ==> BlockSize(nrEntries, perBlock, k) == perBlock
    ensures k + 1 == DivUp(nrEntries, perBlock) ==> k * perBlock + BlockSize(nrEntries, perBlock, k) == nrEntries
  {
    var n := DivUp(nrEntries, perBlock);
    var m := nrEntries + (perBlock - 1);
    assert m == n * perBlock + m % perBlock;
    Multiply(k + 1, n, perBlock);
    Multiply(n, k + 1, perBlock);
    Distribute(k, perBlock);
    if k + 1 < n {
      Multiply(k + 2, n, perBlock);
      Distribute(k + 1, perBlock);
    }
  }

  lemma Multiply(a: nat, b: nat, e: nat)
    ensures a <= b ==> a * e <= b * e
  {
    if a <= b {
      assert b * e == a * e + (b - a) * e;
    }
  }

  lemma Distribute(k: nat, e: nat)
    ensures (k + 1) * e == k * e + e
  {
  }

  lemma {:induction false} FullLength<V>(blocks: seq<seq<V>>, nrEntries: nat, perBlock: nat)
    requires perBlock > 0 && |blocks| <= DivUp(nrEntries, perBlock) && AllFull(blocks, nrEntries, perBlock)
    ensures |blocks| < DivUp(nrEntries, perBlock) ==> |Flatten(blocks)| == |blocks| * perBlock
    ensures |blocks| == DivUp(nrEntries, perBlock) ==> |Flatten(blocks)| == nrEntries
    decreases |blocks|
  {
    var n := |blocks|;
    if n > 0 {
      FullLength(blocks[..n - 1], nrEntries, perBlock);
      BeforeLast(nrEntries, perBlock, n - 1);
      Distribute(n - 1, perBlock);
    } else if DivUp(nrEntries, perBlock) == 0 {
      Multiply(1, nrEntries, 1);
      assert (nrEntries + (perBlock - 1)) / perBlock == 0;
      Short(nrEntries + (perBlock - 1), perBlock);
    }
  }

  lemma Short(m: nat, d: nat)
    requires d > 0 && m / d == 0
    ensures m < d
  {
  }

  class ArrayBlockBuilder<V(==)> {
    const nrEntries: nat
    const entriesPerBlock: nat
    const blank: V // the type's default
    var arrayBlocks: seq<seq<V>>
    var values: seq<V>
    var capacity: nat // of `values`
    ghost var pushed: map<nat, V>

    /** What has been built: whole blocks, and the values of the next. */
    ghost function Contents(): seq<V>
      reads this
    {
      Flatten(arrayBlocks) + values
    }

    function NrBlocks(): nat
      requires entriesPerBlock > 0
    {
      DivUp(nrEntries, entriesPerBlock)
    }

    ghost predicate Valid()
      reads this
    {
      && entriesPerBlock > 0 && |arrayBlocks| <= NrBlocks() && AllFull(arrayBlocks, nrEntries, entriesPerBlock)
      && |values| <= capacity && capacity == BlockSize(nrEntries, entriesPerBlock, |arrayBlocks|)
      && (|arrayBlocks| == NrBlocks() ==> values == [])
      && Overrides(Contents())
    }

    /** The values pushed, and the default elsewhere. */
    ghost predicate Overrides(vs: seq<V>)
      reads this
    {
      && (forall k :: 0 <= k < |vs| ==> vs[k] == if k in pushed then pushed[k] else blank)
      && forall k :: k in pushed ==> k < |vs|
    }

    constructor (nrEntries: nat, entriesPerBlock: nat, blank: V)
      requires entriesPerBlock > 0
      ensures Valid() && Contents() == [] && pushed == map[]
      ensures this.nrEntries == nrEntries && this.entriesPerBlock == entriesPerBlock && this.blank == blank
    {
      this.nrEntries, this.entriesPerBlock, this.blank := nrEntries, entriesPerBlock, blank;
      arrayBlocks, values, pushed := [], [], map[];
      capacity := if nrEntries < entriesPerBlock then nrEntries else entriesPerBlock;
    }

    /** Pads the next block to its full size and emits it. */
    method EmitBlock()
      requires Valid() && |arrayBlocks| < NrBlocks()
      modifies `arrayBlocks, `values, `capacity
      ensures Valid() && |arrayBlocks| == |old(arrayBlocks)| + 1 && values == []
      ensures old(Contents()) <= Contents() && pushed == old(pushed)
    {
      var block := values + Fill(blank, capacity - |values|);
      FlattenPush(arrayBlocks, block);
      assert Flatten(arrayBlocks) + block == Contents() + Fill(blank, capacity - |values|);
      var next := |arrayBlocks| + 1;
      BeforeLast(nrEntries, entriesPerBlock, |arrayBlocks|);
      NextSize(nrEntries, entriesPerBlock, next);
      capacity := if next < NrBlocks() then Min(nrEntries - next * entriesPerBlock, entriesPerBlock) else 0;
      arrayBlocks, values := arrayBlocks + [block], [];
      assert Contents() == Flatten(arrayBlocks);
    }

    function Min(a: int, b: nat): nat
      requires a >= 0
    {
      if a < b then a else b
    }

    /** Accepts the indices in ascending order, within the array, and no others; the entries left out hold the default. */
    method PushValue(index: nat, v: V) returns (ok: bool)
      requires Valid()
      modifies this
      ensures Valid() && (ok <==> |old(Contents())| <= index < nrEntries)
      ensures ok ==> Contents() == old(Contents()) + Fill(blank, index - |old(Contents())|) + [v]
      ensures pushed == if ok then old(pushed)[index := v] else old(pushed)
      ensures !ok ==> Contents() == old(Contents())
    {
      if index >= nrEntries {
        return false;
      }
      hide AllFull, BlockSize, Flatten, DivUp, BlockOf, EntryOf;
      var bi, i := BlockOf(index, entriesPerBlock), EntryOf(index, entriesPerBlock);
      assert forall k :: k in pushed ==> k < |Contents()|;
      hide Overrides;
      Inside(nrEntries, entriesPerBlock, index);
      ghost var before := Contents();
      EmitUpTo(bi);
      Position(arrayBlocks, nrEntries, entriesPerBlock, index);
      if bi < |arrayBlocks| || i < |values| {
        return false;
      }
      Append(i, index, v, before);
      ok := true;
    }

    method EmitUpTo(bi: nat)
      requires Valid() && bi <= NrBlocks()
      modifies `arrayBlocks, `values, `capacity
      ensures Valid() && bi <= |arrayBlocks| && old(Contents()) <= Contents()
      ensures if |old(arrayBlocks)| < bi then |arrayBlocks| == bi && values == []
              else arrayBlocks == old(arrayBlocks) && values == old(values)
    {
      while |arrayBlocks| < bi
        invariant Valid() && old(Contents()) <= Contents()
        invariant if |old(arrayBlocks)| < |arrayBlocks| then |arrayBlocks| <= bi && values == []
                  else arrayBlocks == old(arrayBlocks) && values == old(values)
      {
        hide Overrides, AllFull, BlockSize, Flatten, DivUp;
        EmitBlock();
      }
    }

    /** Pads the open block up to entry i, and adds the value. */
    method Append(i: nat, index: nat, v: V, ghost before: seq<V>)
      requires Valid() && |values| <= i < capacity && |arrayBlocks| < NrBlocks() && |Contents()| + (i - |values|) == index
      requires before <= Contents() && forall k :: k in pushed ==> k < |before|
      modifies `values, `pushed
      ensures Valid() && Contents() == before + Fill(blank, index - |before|) + [v] && pushed == old(pushed)[index := v]
    {
      hide AllFull, BlockSize, Flatten, DivUp;
      ghost var now := Contents();
      Grown(before, now, i - |values|);
      var padded := values + Fill(blank, i - |values|);
      assert Flatten(arrayBlocks) + padded == now + Fill(blank, i - |values|);
      values, pushed := padded + [v], pushed[index := v];
      assert Contents() == Flatten(arrayBlocks) + padded + [v];
    }

    /** What was added since is all default. */
    lemma Grown(before: seq<V>, now: seq<V>, n: nat)
      requires before <= now && Overrides(now) && forall k :: k in pushed ==> k < |before|
      ensures now + Fill(blank, n) == before + Fill(blank, |now| - |before| + n)
    {
    }

    /** Emits what is left: as many blocks as the array needs, all but the last full, holding the values pushed and
        the default elsewhere. */
    method Complete() returns (blocks: seq<seq<V>>)
      requires Valid()
      modifies this
      ensures |blocks| == NrBlocks() && AllFull(blocks, nrEntries, entriesPerBlock)
      ensures var vs := Flatten(blocks);
              |vs| == nrEntries && old(Contents()) <= vs && forall k :: 0 <= k < nrEntries ==>
                vs[k] == if k in old(pushed) then old(pushed)[k] else blank
      ensures forall k :: |old(Contents())| <= k < nrEntries ==> Flatten(blocks)[k] == blank
    {
      while |arrayBlocks| < NrBlocks()
        invariant Valid() && old(Contents()) <= Contents() && pushed == old(pushed)
      {
        EmitBlock();
      }
      FullLength(arrayBlocks, nrEntries, entriesPerBlock);
      assert Contents() == Flatten(arrayBlocks);
      blocks := arrayBlocks;
    }
  }

  lemma Parts(nrEntries: nat, perBlock: nat, index: nat)
    requires perBlock > 0 && index < nrEntries
    ensures index == index / perBlock * perBlock + index % perBlock && index / perBlock < DivUp(nrEntries, perBlock)
  {
    var n, bi := DivUp(nrEntries, perBlock), index / perBlock;
    var m := nrEntries + (perBlock - 1);
    assert m == n * perBlock + m % perBlock;
    assert index == bi * perBlock + index % perBlock;
    Multiply(n, bi, perBlock);
  }

  function BlockOf(index: nat, perBlock: nat): nat
    requires perBlock > 0
  {
    index / perBlock
  }

  function EntryOf(index: nat, perBlock: nat): nat
    requires perBlock > 0
  {
    index % perBlock
  }

  lemma Inside(nrEntries: nat, perBlock: nat, index: nat)
    requires perBlock > 0 && index < nrEntries
    ensures BlockOf(index, perBlock) < DivUp(nrEntries, perBlock) && EntryOf(index, perBlock) < perBlock
  {
    Parts(nrEntries, perBlock, index);
  }

  /** Where an index is, against the length of what has been built. */
  lemma Position<V>(blocks: seq<seq<V>>, nrEntries: nat, perBlock: nat, index: nat)
    requires perBlock > 0 && index < nrEntries && AllFull(blocks, nrEntries, perBlock)
    requires BlockOf(index, perBlock) <= |blocks| <= DivUp(nrEntries, perBlock)
    ensures BlockOf(index, perBlock) < |blocks| ==> index < |Flatten(blocks)|
    ensures BlockOf(index, perBlock) == |blocks| ==>
              |Flatten(blocks)| + EntryOf(index, perBlock) == index && EntryOf(index, perBlock) < BlockSize(nrEntries, perBlock, |blocks|)
  {
    Parts(nrEntries, perBlock, index);
    FullLength(blocks, nrEntries, perBlock);
    var bi := BlockOf(index, perBlock);
    if bi < |blocks| {
      Multiply(bi + 1, |blocks|, perBlock);
      Distribute(bi, perBlock);
    }
  }

  lemma NextSize(nrEntries: nat, perBlock: nat, next: nat)
    requires perBlock > 0 && 0 < next <= DivUp(nrEntries, perBlock)
    ensures next < DivUp(nrEntries, perBlock) ==> next * perBlock < nrEntries
    ensures next == DivUp(nrEntries, perBlock) ==> BlockSize(nrEntries, perBlock, next) == 0
  {
    BeforeLast(nrEntries, perBlock, next - 1);
    Distribute(next - 1, perBlock);
    if next < DivUp(nrEntries, perBlock) {
      BeforeLast(nrEntries, perBlock, next);
    }
  }
}
