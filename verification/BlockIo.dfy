/** Vectored reads: `VectoredBlockIo::read_blocks` of src/io_engine/utils.rs and `read_many_` of src/io_engine/sync.rs. */
module BlockIo {
  import opened Wrappers
  import Sequences
  import opened Bytes

  /** What the n'th read of the device does: it fails, reads all it was asked for, or at most so many bytes. */
  datatype Outcome = Fails | ReadsAll | Reads(n: nat)

  class Device {
    const bytes: nat -> byte
    const outcome: nat -> Outcome
    var calls: nat

    constructor (bytes: nat -> byte, outcome: nat -> Outcome)
      ensures this.bytes == bytes && this.outcome == outcome && calls == 0
    {
      this.bytes, this.outcome, calls := bytes, outcome, 0;
    }

    /** The n bytes at a position. */
    function Content(pos: nat, n: nat): (bs: seq<byte>)
      ensures |bs| == n
    {
      seq(n, i requires i >= 0 => bytes(pos + i))
    }

    /** What a read of so many buffers returns. */
    function Answer(o: Outcome, count: nat, bs: nat): Option<nat> {
      match o
      case Fails => None
      case ReadsAll => Some(count * bs)
      case Reads(n) => Some(if n < count * bs then n else count * bs)
    }

    /** Every read is answered in full. */
    ghost predicate Reliable() {
      forall c :: outcome(c) == ReadsAll
    }

    /** Reads into bufs[from..], which are of bs bytes each, filling them in order as far as the n bytes read go:
        `whole` buffers, and `part` bytes of another. */
    method ReadVectoredAt(bufs: seq<seq<byte>>, from: nat, bs: nat, pos: nat)
      returns (n: Option<nat>, bufs': seq<seq<byte>>, ghost whole: nat, ghost part: nat)
      requires bs > 0 && from < |bufs| && SameSize(bufs, bs)
      modifies this
      ensures |bufs'| == |bufs| && SameSize(bufs', bs) && (n.None? ==> bufs' == bufs)
      ensures n.Some? ==> n.value == whole * bs + part && part < bs && Filled(bufs, bufs', from, bs, pos, whole, part)
      ensures Reliable() ==> n.Some? && whole == |bufs| - from && part == 0
      ensures calls == old(calls) + 1 && n == Answer(outcome(old(calls)), |bufs| - from, bs)
    {
      whole, part := 0, 0;
      var o := outcome(calls);
      calls := calls + 1;
      if o.Fails? {
        return None, bufs, whole, part;
      }
      n, whole, part := HowMany(o, |bufs| - from, bs);
      var w, p := n.value / bs, n.value % bs;
      DivMod(n.value, bs, whole, part);
      bufs' := FillAll(bufs, from, bs, pos, w, p);
    }

    /** The number of bytes read into some buffers, and of buffers and bytes that these fill. */
    method HowMany(o: Outcome, count: nat, bs: nat) returns (n: Option<nat>, ghost whole: nat, ghost part: nat)
      requires bs > 0 && !o.Fails?
      ensures n.Some? && n.value == whole * bs + part && part < bs && whole + (if part > 0 then 1 else 0) <= count
      ensures o.ReadsAll? ==> whole == count && part == 0
      ensures n == Answer(o, count, bs)
    {
      var total := count * bs;
      n := Some(if o.ReadsAll? || o.n >= total then total else o.n);
      WholeFits(n.value, bs, count);
      whole, part := n.value / bs, n.value % bs;
    }

    method FillAll(bufs: seq<seq<byte>>, from: nat, bs: nat, pos: nat, whole: nat, part: nat) returns (bufs': seq<seq<byte>>)
      requires SameSize(bufs, bs) && part < bs && from + whole + (if part > 0 then 1 else 0) <= |bufs|
      ensures |bufs'| == |bufs| && SameSize(bufs', bs) && Filled(bufs, bufs', from, bs, pos, whole, part)
    {
      hide Slot, Content, Fill;
      bufs' := seq(|bufs|, j requires 0 <= j < |bufs| && |bufs[j]| == bs => Fill(bufs[j], j, from, bs, pos, whole, part));
    }

    /** What buffer j holds afterwards. */
    function Fill(buf: seq<byte>, j: nat, from: nat, bs: nat, pos: nat, whole: nat, part: nat): (r: seq<byte>)
      requires |buf| == bs && part < bs
      ensures |r| == bs
    {
      if from <= j < from + whole then Content(Slot(pos, bs, j - from), bs)
      else if j == from + whole && part > 0 then Content(Slot(pos, bs, whole), part) + buf[part..]
      else buf
    }

    ghost predicate Filled(bufs: seq<seq<byte>>, bufs': seq<seq<byte>>, from: nat, bs: nat, pos: nat, whole: nat, part: nat) {
      && |bufs| == |bufs'| && SameSize(bufs, bs) && part < bs
      && from + whole + (if part > 0 then 1 else 0) <= |bufs|
      && forall j :: 0 <= j < |bufs| ==> bufs'[j] == Fill(bufs[j], j, from, bs, pos, whole, part)
    }
  }

  predicate SameSize(bufs: seq<seq<byte>>, bs: nat) {
    forall j :: 0 <= j < |bufs| ==> |bufs[j]| == bs
  }

  /** The position of block j of a run of blocks. */
  function Slot(pos: nat, bs: nat, j: nat): nat {
    pos + j * bs
  }

  lemma SlotPlus(pos: nat, bs: nat, a: nat, b: nat)
    ensures Slot(Slot(pos, bs, a), bs, b) == Slot(pos, bs, a + b) && Slot(pos, bs, a) + b * bs == Slot(pos, bs, a + b)
    ensures Slot(pos, bs, 0) == pos
  {
    assert a * bs + b * bs == (a + b) * bs;
  }

  lemma WholeFits(n: nat, bs: nat, count: nat)
    requires bs > 0 && n <= count * bs
    ensures n == n / bs * bs + n % bs && n / bs <= count && (n % bs > 0 ==> n / bs < count)
    ensures n == count * bs ==> n / bs == count && n % bs == 0
  {
    var q := n / bs;
    assert n == q * bs + n % bs;
    Multiples(q, count, bs);
    Multiples(count, q, bs);
  }

  lemma Multiples(a: nat, b: nat, bs: nat)
    ensures a > b ==> a * bs >= b * bs + bs
  {
    if a > b {
      assert a * bs == b * bs + (a - b) * bs;
      assert (a - b) * bs == bs + (a - b - 1) * bs;
    }
  }

  lemma DivMod(n: nat, bs: nat, whole: nat, part: nat)
    requires n == whole * bs + part && part < bs
    ensures n / bs == whole && n % bs == part && (n == 0 <==> whole == 0 && part == 0)
  {
    assert n == n / bs * bs + n % bs;
    Multiples(n / bs, whole, bs);
    Multiples(whole, n / bs, bs);
  }

  function Zeros(n: nat): seq<byte> {
    seq(n, i => 0)
  }

  class VectoredBlockIo {
    const dev: Device
    const partialIo: bool

    constructor (dev: Device, partialIo: bool)
      ensures this.dev == dev && this.partialIo == partialIo
    {
      this.dev, this.partialIo := dev, partialIo;
    }

    /** A buffer holds the device's bytes; with partial reads allowed, it may hold only the first of them. */
    ghost predicate Holds(buf: seq<byte>, pos: nat, bs: nat) {
      || buf == dev.Content(pos, bs)
      || (partialIo && exists k :: 0 < k < bs && buf == dev.Content(pos, k) + Zeros(bs - k))
    }

    /** One block after the other, each either holds what the device has there or is reported as failed.  A failure
        costs the first block of what remains, a short read the block it ends in, and the end of the device all
        that remain; nothing else does. */
    method ReadBlocks(buffers: seq<seq<byte>>, pos0: nat, bs: nat)
      returns (results: seq<bool>, buffers': seq<seq<byte>>, ghost begins: seq<nat>)
      requires bs > 0 && SameSize(buffers, bs) && buffers != []
      modifies dev
      ensures |results| == |buffers'| == |buffers| && SameSize(buffers', bs)
      ensures forall j :: 0 <= j < |buffers| && results[j] ==> Holds(buffers'[j], Slot(pos0, bs, j), bs)
      ensures dev.Reliable() ==> forall j :: 0 <= j < |buffers| ==> results[j]
      ensures forall j :: 0 <= j < |buffers| && !results[j] ==> Blamed(begins, old(dev.calls), |buffers|, bs, j)
      ensures dev.calls == old(dev.calls) + |begins|
    {
      hide Holds, Slot, Progress, Device.Filled, SameSize, Blamed, Device.Answer;
      results, buffers', begins := [], buffers, [];
      var pos: nat, done: nat, remaining: nat := pos0, 0, |buffers|;
      var partials: seq<(nat, nat)> := [];
      Nothing(buffers, pos0, bs);
      while remaining > 0
        invariant |results| == done && done + remaining == |buffers| == |buffers'| && SameSize(buffers', bs)
        invariant pos == Slot(pos0, bs, done) && Progress(results, buffers', partials, pos0, bs)
        invariant dev.Reliable() ==> forall j :: 0 <= j < |results| ==> results[j]
        invariant dev.calls == old(dev.calls) + |begins|
        invariant forall j :: 0 <= j < |results| && !results[j] ==> Blamed(begins, old(dev.calls), |buffers|, bs, j)
        decreases remaining
      {
        ghost var begins0 := begins;
        begins := begins + [done];
        assert forall j :: 0 <= j < |results| && !results[j] ==> Blamed(begins, old(dev.calls), |buffers|, bs, j) by {
          StillBlamed(begins0, done, results, old(dev.calls), |buffers|, bs);
        }
        ghost var before := buffers';
        var n;
        ghost var whole, part;
        n, buffers', whole, part := dev.ReadVectoredAt(buffers', done, bs, pos);
        Blame(begins0, old(dev.calls), |buffers|, bs, done);
        if n.None? {
          Failed(results, buffers', partials, pos0, bs, 1);
          SlotPlus(pos0, bs, done, 1);
          assert Sequences.Fill(false, 1) == [false];
          results := results + [false];
          pos, done, remaining := pos + bs, done + 1, remaining - 1;
        } else {
          DivMod(n.value, bs, whole, part);
          if n.value == 0 {
            Failed(results, before, partials, pos0, bs, remaining);
            Untouched(before, buffers', done, bs, pos);
            results := results + Sequences.Fill(false, remaining);
            pos, done, remaining := Slot(pos0, bs, |buffers|), |buffers|, 0;
          } else {
            var completed, partial := n.value / bs, n.value % bs;
            var skip := if partial > 0 then completed + 1 else completed;
            AfterRead(results, before, buffers', partials, pos0, bs, whole, part);
            SlotPlus(pos0, bs, done, skip);
            results := results + Sequences.Fill(true, completed) + if partial > 0 then [partialIo] else [];
            partials := partials + if partial > 0 then [(done + completed, partial)] else [];
            pos, done, remaining := pos + skip * bs, done + skip, remaining - skip;
          }
        }
      }
      ghost var filled := buffers';
      PartialsFit(results, filled, partials, pos0, bs);
      buffers' := FillZeros(buffers', partials, bs);
      AllHold(results, filled, buffers', partials, pos0, bs);
    }

    /** What cost block j: the call that began at it failed, the call before it was short in it, or a call met the
        end of the device there or before.  Call i of the read began at block begins[i]. */
    ghost predicate Blamed(begins: seq<nat>, calls: nat, count: nat, bs: nat, j: nat) {
      bs > 0 && exists i :: 0 <= i < |begins| && begins[i] <= j < count && Costs(dev.outcome(calls + i), begins[i], count - begins[i], bs, j)
    }

    ghost predicate Costs(o: Outcome, begin: nat, count: nat, bs: nat, j: nat)
      requires bs > 0
    {
      match dev.Answer(o, count, bs)
      case None => j == begin
      case Some(n) => n == 0 || (!partialIo && n % bs != 0 && j == begin + n / bs)
    }

    lemma {:induction false} StillBlamed(begins: seq<nat>, done: nat, results: seq<bool>, calls: nat, count: nat, bs: nat)
      requires forall j :: 0 <= j < |results| && !results[j] ==> Blamed(begins, calls, count, bs, j)
      ensures forall j :: 0 <= j < |results| && !results[j] ==> Blamed(begins + [done], calls, count, bs, j)
    {
      hide Costs;
      forall j | 0 <= j < |results| && !results[j] ensures Blamed(begins + [done], calls, count, bs, j) {
        var i :| 0 <= i < |begins| && begins[i] <= j < count && Costs(dev.outcome(calls + i), begins[i], count - begins[i], bs, j);
        assert (begins + [done])[i] == begins[i];
      }
    }

    lemma {:induction false} Blame(begins: seq<nat>, calls: nat, count: nat, bs: nat, done: nat)
      requires bs > 0 && done < count
      ensures match dev.Answer(dev.outcome(calls + |begins|), count - done, bs)
              case None => Blamed(begins + [done], calls, count, bs, done)
              case Some(n) =>
                && (n == 0 ==> forall j :: done <= j < count ==> Blamed(begins + [done], calls, count, bs, j))
                && (!partialIo && n % bs != 0 && done + n / bs < count ==> Blamed(begins + [done], calls, count, bs, done + n / bs))
    {
      assert (begins + [done])[|begins|] == done;
    }

    /** Block j, if it was reported as read, was read in full, or in part with that allowed and remembered. */
    ghost predicate Read(results: seq<bool>, bufs: seq<seq<byte>>, partials: seq<(nat, nat)>, pos0: nat, bs: nat, j: nat)
      requires j < |results| <= |bufs|
    {
      results[j] ==>
        || (bufs[j] == dev.Content(Slot(pos0, bs, j), bs) && forall k :: 0 <= k < |partials| ==> partials[k].0 != j)
        || (partialIo && exists k :: 0 <= k < |partials| && partials[k].0 == j)
    }

    ghost predicate PartialOk(bufs: seq<seq<byte>>, p: (nat, nat), pos0: nat, bs: nat) {
      && p.0 < |bufs| && |bufs[p.0]| == bs && 0 < p.1 < bs
      && bufs[p.0][..p.1] == dev.Content(Slot(pos0, bs, p.0), p.1)
    }

    ghost predicate Progress(results: seq<bool>, bufs: seq<seq<byte>>, partials: seq<(nat, nat)>, pos0: nat, bs: nat) {
      && |results| <= |bufs| && SameSize(bufs, bs)
      && (forall j :: 0 <= j < |results| ==> Read(results, bufs, partials, pos0, bs, j))
      && (forall k :: 0 <= k < |partials| ==> partials[k].0 < |results| && PartialOk(bufs, partials[k], pos0, bs))
      && (forall k, l :: 0 <= k < l < |partials| ==> partials[k].0 != partials[l].0)
    }

    lemma Nothing(bufs: seq<seq<byte>>, pos0: nat, bs: nat)
      requires SameSize(bufs, bs)
      ensures Progress([], bufs, [], pos0, bs) && Slot(pos0, bs, 0) == pos0
    {
    }

    lemma PartialsFit(results: seq<bool>, bufs: seq<seq<byte>>, partials: seq<(nat, nat)>, pos0: nat, bs: nat)
      requires Progress(results, bufs, partials, pos0, bs)
      ensures forall k :: 0 <= k < |partials| ==> partials[k].0 < |bufs| && partials[k].1 < bs
      ensures forall k, l :: 0 <= k < l < |partials| ==> partials[k].0 != partials[l].0
    {
    }

    lemma Untouched(bufs: seq<seq<byte>>, bufs': seq<seq<byte>>, from: nat, bs: nat, pos: nat)
      requires dev.Filled(bufs, bufs', from, bs, pos, 0, 0) && from < |bufs|
      ensures bufs' == bufs
    {
    }

    lemma Failed(results: seq<bool>, bufs: seq<seq<byte>>, partials: seq<(nat, nat)>, pos0: nat, bs: nat, count: nat)
      requires |results| + count <= |bufs| && Progress(results, bufs, partials, pos0, bs)
      ensures Progress(results + Sequences.Fill(false, count), bufs, partials, pos0, bs)
    {
      var results' := results + Sequences.Fill(false, count);
      forall j | 0 <= j < |results'| ensures Read(results', bufs, partials, pos0, bs, j) {
        if j < |results| {
          assert Read(results, bufs, partials, pos0, bs, j) && results'[j] == results[j];
        }
      }
    }

    lemma AfterRead(results: seq<bool>, bufs: seq<seq<byte>>, bufs': seq<seq<byte>>, partials: seq<(nat, nat)>,
                    pos0: nat, bs: nat, whole: nat, part: nat)
      requires Progress(results, bufs, partials, pos0, bs) && SameSize(bufs', bs)
      requires dev.Filled(bufs, bufs', |results|, bs, Slot(pos0, bs, |results|), whole, part)
      ensures Progress(results + Sequences.Fill(true, whole) + (if part > 0 then [partialIo] else []), bufs',
                       partials + (if part > 0 then [(|results| + whole, part)] else []), pos0, bs)
    {
      var done := |results|;
      var results' := results + Sequences.Fill(true, whole) + if part > 0 then [partialIo] else [];
      var partials' := partials + if part > 0 then [(done + whole, part)] else [];
      forall j | 0 <= j < |results'| ensures Read(results', bufs', partials', pos0, bs, j) {
        ReadAfter(results, bufs, bufs', partials, pos0, bs, whole, part, j);
      }
      forall k | 0 <= k < |partials'| ensures partials'[k].0 < |results'| && PartialOk(bufs', partials'[k], pos0, bs) {
        if k < |partials| {
          assert PartialOk(bufs, partials[k], pos0, bs);
        } else {
          SlotPlus(pos0, bs, done, whole);
        }
      }
    }

    lemma ReadAfter(results: seq<bool>, bufs: seq<seq<byte>>, bufs': seq<seq<byte>>, partials: seq<(nat, nat)>,
                    pos0: nat, bs: nat, whole: nat, part: nat, j: nat)
      requires Progress(results, bufs, partials, pos0, bs) && SameSize(bufs', bs)
      requires dev.Filled(bufs, bufs', |results|, bs, Slot(pos0, bs, |results|), whole, part)
      requires j < |results| + whole + if part > 0 then 1 else 0
      ensures Read(results + Sequences.Fill(true, whole) + (if part > 0 then [partialIo] else []), bufs',
                   partials + (if part > 0 then [(|results| + whole, part)] else []), pos0, bs, j)
    {
      hide Slot, Device.Content;
      var done := |results|;
      var partials' := partials + if part > 0 then [(done + whole, part)] else [];
      if j < done {
        assert Read(results, bufs, partials, pos0, bs, j);
        if k :| 0 <= k < |partials| && partials[k].0 == j {
          assert partials'[k].0 == j;
        }
      } else if j < done + whole {
        SlotPlus(pos0, bs, done, j - done);
      } else {
        assert partials'[|partials|].0 == j;
      }
    }

    lemma AllHold(results: seq<bool>, bufs: seq<seq<byte>>, bufs': seq<seq<byte>>, partials: seq<(nat, nat)>, pos0: nat, bs: nat)
      requires |results| == |bufs| == |bufs'| && Progress(results, bufs, partials, pos0, bs) && ZeroFilled(bufs, bufs', partials, bs)
      ensures forall j :: 0 <= j < |results| && results[j] ==> Holds(bufs'[j], Slot(pos0, bs, j), bs)
    {
      forall j | 0 <= j < |results| && results[j] ensures Holds(bufs'[j], Slot(pos0, bs, j), bs) {
        assert Read(results, bufs, partials, pos0, bs, j);
        if k :| 0 <= k < |partials| && partials[k].0 == j {
          assert PartialOk(bufs, partials[k], pos0, bs);
        }
      }
    }
  }

  ghost predicate ZeroFilled(bufs: seq<seq<byte>>, bufs': seq<seq<byte>>, partials: seq<(nat, nat)>, bs: nat)
    requires |bufs| == |bufs'| && SameSize(bufs, bs)
  {
    && (forall k :: 0 <= k < |partials| ==>
          var (j, off) := partials[k]; j < |bufs| && off < bs && bufs'[j] == bufs[j][..off] + Zeros(bs - off))
    && (forall j :: 0 <= j < |bufs| && (forall k :: 0 <= k < |partials| ==> partials[k].0 != j) ==> bufs'[j] == bufs[j])
  }

  method FillZeros(bufs: seq<seq<byte>>, partials: seq<(nat, nat)>, bs: nat) returns (bufs': seq<seq<byte>>)
    requires SameSize(bufs, bs)
    requires forall k :: 0 <= k < |partials| ==> partials[k].0 < |bufs| && partials[k].1 < bs
    requires forall k, l :: 0 <= k < l < |partials| ==> partials[k].0 != partials[l].0
    ensures |bufs'| == |bufs| && SameSize(bufs', bs) && ZeroFilled(bufs, bufs', partials, bs)
  {
    bufs' := bufs;
    for i := 0 to |partials|
      invariant |bufs'| == |bufs| && SameSize(bufs', bs)
      invariant ZeroFilled(bufs, bufs', partials[..i], bs)
    {
      var (j, off) := partials[i];
      assert bufs'[j] == bufs[j] by {
        assert forall k :: 0 <= k < i ==> partials[..i][k].0 != j;
      }
      FilledOne(bufs, bufs', partials, bs, i);
      bufs' := bufs'[j := bufs'[j][..off] + Zeros(bs - off)];
    }
    assert partials[..|partials|] == partials;
  }

  lemma FilledOne(bufs: seq<seq<byte>>, bufs': seq<seq<byte>>, partials: seq<(nat, nat)>, bs: nat, i: nat)
    requires |bufs| == |bufs'| && SameSize(bufs, bs) && SameSize(bufs', bs) && i < |partials|
    requires forall k :: 0 <= k < |partials| ==> partials[k].0 < |bufs| && partials[k].1 < bs
    requires forall k, l :: 0 <= k < l < |partials| ==> partials[k].0 != partials[l].0
    requires ZeroFilled(bufs, bufs', partials[..i], bs) && bufs'[partials[i].0] == bufs[partials[i].0]
    ensures var (j, off) := partials[i];
            ZeroFilled(bufs, bufs'[j := bufs'[j][..off] + Zeros(bs - off)], partials[..i + 1], bs)
  {
    var (n, off) := partials[i];
    var now := bufs'[n := bufs'[n][..off] + Zeros(bs - off)];
    var ps, ps' := partials[..i], partials[..i + 1];
    assert ps' == ps + [partials[i]];
    forall k | 0 <= k < |ps'| ensures var (j, off) := ps'[k]; now[j] == bufs[j][..off] + Zeros(bs - off) {
      if k < i {
        assert ps[k] == ps'[k];
      }
    }
    forall j | 0 <= j < |bufs| && (forall k :: 0 <= k < |ps'| ==> ps'[k].0 != j) ensures now[j] == bufs[j] {
      assert ps'[i].0 != j;
      assert forall k :: 0 <= k < i ==> ps[k] == ps'[k];
    }
  }
}
