/** The compressed block cache: src/io_engine/spindle.rs, and src/run_iter.rs.  The device is read once, when the
    cache is loaded; a block written later goes to the device and leaves the cache. */
module Spindles {
  import opened Wrappers
  import opened Bytes
  import opened PackVms
  import opened NodeEncoders

  const KEYS: nat := 0x1_0000_0000 // the cache's keys are u32s

  /** Splits 0..len into alternating runs of present and absent bits. */
  class RunIter {
    const len: nat
    const bits: set<nat>
    var current: nat

    ghost predicate Valid()
      reads this
    {
      current <= len && (0 < current < len ==> (current in bits) != (current - 1 in bits))
    }

    constructor (bits: set<nat>, len: nat)
      ensures Valid() && this.bits == bits && this.len == len && current == 0
    {
      this.bits, this.len, current := bits, len, 0;
    }

    /** The next run, which cannot be extended at either end. */
    method Next() returns (run: Option<(bool, nat, nat)>)
      requires Valid()
      modifies this
      ensures Valid() && (run.None? <==> old(current) == len)
      ensures run.Some? ==> run.value.1 == old(current) < current == run.value.2
      ensures run.Some? ==> forall k :: run.value.1 <= k < run.value.2 ==> (k in bits) == run.value.0
    {
      if current == len {
        return None;
      }
      var b, start := current in bits, current;
      current := current + 1;
      while current < len && (current in bits) == b
        invariant start < current <= len && forall k :: start <= k < current ==> (k in bits) == b
      {
        current := current + 1;
      }
      run := Some((b, start, current));
    }
  }

  class SpindleIoEngine {
    const kindOf: Block -> Kind
    var compressed: map<nat, seq<byte>>
    var input: seq<Block> // the device

    /** Each cached block unpacks to what the device holds. */
    ghost predicate Valid()
      reads this
    {
      forall k :: k in compressed ==> k < KEYS && k < |input| && UnpacksTo(compressed[k], input[k])
    }

    constructor (kindOf: Block -> Kind, input: seq<Block>)
      ensures Valid() && this.kindOf == kindOf && this.input == input && compressed == map[]
    {
      this.kindOf, this.input, compressed := kindOf, input, map[];
    }

    /** What the device itself would answer. */
    ghost function Direct(loc: nat): Option<Block>
      reads this
    {
      if loc < |input| then Some(input[loc]) else None
    }

    ghost predicate Wanted(bits: set<nat>, k: nat)
      reads this
      requires k < |input|
    {
      k in bits && kindOf(input[k]) != Unknown
    }

    /** The cache holds the wanted blocks below n, and no others. */
    ghost predicate Loaded(bits: set<nat>, n: nat)
      reads this
      requires n <= |input|
    {
      forall k: nat :: k in compressed <==> k < n && Wanted(bits, k)
    }

    ghost predicate AllPack(bits: set<nat>, lo: nat, hi: nat)
      reads this
      requires hi <= |input|
    {
      forall k :: lo <= k < hi && Wanted(bits, k) ==> CanPack(kindOf(input[k]), input[k])
    }

    method PackInto(b: nat) returns (ok: bool)
      requires Valid() && b < |input| && b < KEYS
      modifies this`compressed
      ensures Valid() && (ok <==> kindOf(input[b]) == Unknown || CanPack(kindOf(input[b]), input[b]))
      ensures compressed.Keys
              == old(compressed).Keys + if ok && kindOf(input[b]) != Unknown then {b} else {}
    {
      hide UnpacksTo, Framed, CanPack, Unpacked, Trailer, PackedForm, Valid;
      ok := true;
      if kindOf(input[b]) != Unknown {
        var packed := new Writer();
        ghost var p;
        ok, p := PackBlock(packed, kindOf(input[b]), input[b]);
        if ok {
          FramedUnpacks(p, Trailer(kindOf(input[b]), input[b]), input[b]);
          assert packed.out == p + Trailer(kindOf(input[b]), input[b]);
          Insert(b, packed.out);
        }
      }
    }

    method Insert(b: nat, packed: seq<byte>)
      requires Valid() && b < |input| && b < KEYS && UnpacksTo(packed, input[b])
      modifies this`compressed
      ensures Valid() && compressed.Keys == old(compressed).Keys + {b}
    {
      hide UnpacksTo;
      compressed := compressed[b % KEYS := packed];
    }

    /** `pack_chunk` of the blocks firstBlock..end. */
    method PackChunk(firstBlock: nat, end: nat, ghost bits: set<nat>) returns (ok: bool)
      requires Valid() && firstBlock <= end <= |input| && end <= KEYS
      requires (forall k :: firstBlock <= k < end ==> k in bits) && Loaded(bits, firstBlock)
      modifies this`compressed
      ensures Valid() && (ok <==> AllPack(bits, firstBlock, end)) && (ok ==> Loaded(bits, end))
    {
      hide UnpacksTo, CanPack, Valid;
      for b := firstBlock to end
        invariant Valid() && AllPack(bits, firstBlock, b) && Loaded(bits, b)
      {
        ok := PackInto(b);
        if !ok {
          assert Wanted(bits, b);
          return;
        }
      }
      ok := true;
    }

    /** No block that is read is one that the device cannot read. */
    ghost predicate AllRead(bits: set<nat>, bad: set<nat>, n: nat) {
      forall k: nat :: k < n && k in bits ==> k !in bad
    }

    /** Reads the present blocks in runs of at most 16384 and packs those of a known kind.  `pos` is the file
        position, moved by seeks over the absent runs and by the reads.  It fails exactly when one of these blocks
        cannot be read or does not pack. */
    method Load(bits: set<nat>, bad: set<nat>) returns (ok: bool)
      requires Valid() && compressed == map[]
      modifies this`compressed
      ensures Valid()
      ensures var len := |input| % KEYS;
              (ok <==> AllPack(bits, 0, len) && AllRead(bits, bad, len)) && (ok ==> Loaded(bits, len))
    {
      hide Valid;
      var runs := new RunIter(bits, |input| % KEYS);
      var pos := 0;
      while true
        invariant fresh(runs) && runs.Valid() && Valid() && runs.bits == bits && runs.len == |input| % KEYS
        invariant pos == runs.current && AllPack(bits, 0, pos) && AllRead(bits, bad, pos) && Loaded(bits, pos)
        decreases runs.len - runs.current
      {
        var run := runs.Next();
        if run.None? {
          return true;
        }
        var (present, start, end) := run.value;
        if !present {
          pos := pos + (end - start);
        } else {
          ok, pos := LoadRun(start, end, pos, bits, bad);
          if !ok {
            return;
          }
        }
      }
    }

    /** One read: all of its blocks or none. */
    method ReadExact(pos: nat, len: nat, bad: set<nat>) returns (ok: bool)
      ensures ok <==> forall k :: pos <= k < pos + len ==> k !in bad
    {
      ok := forall k | pos <= k < pos + len :: k !in bad;
    }

    method LoadRun(start: nat, end: nat, pos: nat, ghost bits: set<nat>, bad: set<nat>) returns (ok: bool, pos': nat)
      requires Valid() && start <= end <= |input| && end <= KEYS && pos == start
      requires (forall k :: start <= k < end ==> k in bits) && Loaded(bits, pos)
      modifies this`compressed
      ensures Valid() && (ok <==> AllPack(bits, start, end) && forall k :: start <= k < end ==> k !in bad)
      ensures ok ==> pos' == end && Loaded(bits, end)
    {
      hide Valid;
      var next := start;
      pos' := pos;
      while next < end
        invariant start <= next <= end && pos' == next && Valid() && AllPack(bits, start, next) && Loaded(bits, next)
        invariant forall k :: start <= k < next ==> k !in bad
      {
        var len := if end - next < 16 * 1024 then end - next else 16 * 1024;
        ok := ReadExact(pos', len, bad);
        if !ok {
          return;
        }
        ok := PackChunk(pos', pos' + len, bits);
        if !ok {
          return;
        }
        pos', next := pos' + len, next + len;
      }
      ok := true;
    }

    /** A read of a block number below 2^32 answers what the device would; any other is answered from the cache
        when the block it is truncated to is there. */
    method Read(loc: nat) returns (data: Option<Block>)
      requires Valid()
      ensures data == Direct(if loc % KEYS in compressed then loc % KEYS else loc)
      ensures loc < KEYS ==> data == Direct(loc)
    {
      hide Unpacked;
      if loc % KEYS in compressed {
        assert UnpacksTo(compressed[loc % KEYS], input[loc % KEYS]);
        var r := new Reader(compressed[loc % KEYS]);
        data := Unpack(r, BLOCK_SIZE);
      } else if loc < |input| {
        data := Some(input[loc]);
      } else {
        data := None;
      }
    }

    /** A write drops the block from the cache, whether or not it succeeds.  A fault leaves anything in the block. */
    method Write(loc: nat, data: Block, fault: Option<Block>) returns (ok: bool)
      requires Valid()
      modifies this
      ensures Valid() && (ok <==> loc < |input| && fault.None?)
      ensures compressed == old(compressed) - {loc % KEYS}
      ensures input
              == if loc < |old(input)| then old(input)[loc := if fault.Some? then fault.value else data] else old(input)
    {
      hide UnpacksTo;
      compressed := compressed - {loc % KEYS};
      if loc >= |input| {
        return false;
      }
      input := input[loc := if fault.Some? then fault.value else data];
      ok := fault.None?;
    }

    /** Reads many blocks, each as Read does. */
    method ReadMany(blocks: seq<nat>) returns (bs: seq<Option<Block>>)
      requires Valid()
      ensures |bs| == |blocks|
      ensures forall i :: 0 <= i < |bs| && blocks[i] < KEYS ==> bs[i] == Direct(blocks[i])
    {
      bs := [];
      for i := 0 to |blocks|
        invariant |bs| == i && forall k :: 0 <= k < i && blocks[k] < KEYS ==> bs[k] == Direct(blocks[k])
      {
        hide Valid;
        var b := Read(blocks[i]);
        bs := bs + [b];
      }
    }
  }

  ghost predicate UnpacksTo(packed: seq<byte>, data: Block) {
    Unpacked(packed, BLOCK_SIZE).Some? && Unpacked(packed, BLOCK_SIZE).value.0 == data
  }

  lemma FramedUnpacks(packed: seq<byte>, trailer: seq<byte>, data: Block)
    requires Framed(packed, data)
    ensures UnpacksTo(packed + trailer, data)
  {
    hide Framed, Unpacked;
    ExtraIsUnread(packed, trailer, data, []);
    assert packed + trailer + [] == packed + trailer;
  }

  /** A block past 2^32 is answered with the cached one that its number is truncated to. */
  method PastTheKeys(input: seq<Block>) returns (e: SpindleIoEngine, data: Option<Block>)
    requires |input| == KEYS + 1 && input[KEYS] != input[0]
    ensures e.Valid() && e.input == input && data == Some(input[0]) != e.Direct(KEYS)
  {
    e := new SpindleIoEngine(_ => Bitmap, input);
    var ok := e.Load({0}, {});
    assert e.AllPack({0}, 0, |input| % KEYS) && e.Wanted({0}, 0);
    data := e.Read(KEYS);
  }
}
