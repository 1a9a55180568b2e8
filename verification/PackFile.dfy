/** The framing of packed metadata files: src/pack/toplevel.rs, with compression taken as the identity. */
module PackFiles {
  import opened Wrappers
  import opened Sequences
  import opened Bytes
  import opened PackVms
  import opened NodeEncoders

  datatype Record = Record(b: u64, data: Block)

  /** The records in the bytes one compressor produced.  None stands for a failed unpack or assertion. */
  function ChunkRecords(kindOf: Block -> Kind, bytes: seq<byte>): Option<seq<Record>>
    decreases |bytes|
  {
    if |bytes| < 8 then Some([])
    else
      Powers();
      match Unpacked(bytes[8..], BLOCK_SIZE)
      case None => None
      case Some((data, rest)) =>
        if kindOf(data) == Unknown then None
        else
          match ChunkRecords(kindOf, rest)
          case None => None
          case Some(more) => Some([Record(FromLE(bytes[..8]), data)] + more)
  }

  /** The bytes of some records, given what each block packs to. */
  ghost function ChunkBytes(kindOf: Block -> Kind, recs: seq<Record>, packs: seq<seq<byte>>): seq<byte>
    requires |recs| == |packs|
  {
    if recs == [] then [] else RecordBytes(kindOf, recs[0], packs[0]) + ChunkBytes(kindOf, recs[1..], packs[1..])
  }

  ghost function RecordBytes(kindOf: Block -> Kind, rec: Record, packed: seq<byte>): seq<byte> {
    ToLE(rec.b, 8) + (packed + Trailer(kindOf(rec.data), rec.data))
  }

  /** `bytes` holds these records, each block packed so that it unpacks again. */
  ghost predicate Holds(kindOf: Block -> Kind, bytes: seq<byte>, recs: seq<Record>, packs: seq<seq<byte>>) {
    && |recs| == |packs| && bytes == ChunkBytes(kindOf, recs, packs)
    && forall i :: 0 <= i < |recs| ==>
         Framed(packs[i], recs[i].data) && kindOf(recs[i].data) != Unknown && |packs[i]| <= 0x10_0000
  }

  lemma {:induction false} ChunkBytesPush(kindOf: Block -> Kind, recs: seq<Record>, packs: seq<seq<byte>>, r: Record, p: seq<byte>)
    requires |recs| == |packs|
    ensures ChunkBytes(kindOf, recs + [r], packs + [p]) == ChunkBytes(kindOf, recs, packs) + RecordBytes(kindOf, r, p)
  {
    hide RecordBytes;
    if recs == [] {
      assert recs + [r] == [r] && packs + [p] == [p];
      assert ChunkBytes(kindOf, [r], [p]) == RecordBytes(kindOf, r, p) + ChunkBytes(kindOf, [r][1..], [p][1..]);
    } else {
      assert (recs + [r])[1..] == recs[1..] + [r] && (packs + [p])[1..] == packs[1..] + [p];
      ChunkBytesPush(kindOf, recs[1..], packs[1..], r, p);
    }
  }

  lemma {:induction false} HoldsPush(kindOf: Block -> Kind, bytes: seq<byte>, recs: seq<Record>, packs: seq<seq<byte>>, r: Record, p: seq<byte>)
    requires Holds(kindOf, bytes, recs, packs)
    requires Framed(p, r.data) && kindOf(r.data) != Unknown && |p| <= 0x10_0000
    ensures Holds(kindOf, bytes + RecordBytes(kindOf, r, p), recs + [r], packs + [p])
  {
    hide Framed, RecordBytes, ChunkBytes;
    ChunkBytesPush(kindOf, recs, packs, r, p);
  }

  /** A record whose block leaves an instruction unread is followed by no other. */
  predicate Readable(kindOf: Block -> Kind, recs: seq<Record>) {
    forall i :: 0 <= i < |recs| - 1 ==> Trailer(kindOf(recs[i].data), recs[i].data) == []
  }

  lemma {:induction false} FirstRecord(kindOf: Block -> Kind, rec: Record, packed: seq<byte>, rest: seq<byte>)
    requires Framed(packed, rec.data) && kindOf(rec.data) != Unknown
    ensures var after := ChunkRecords(kindOf, Trailer(kindOf(rec.data), rec.data) + rest);
            ChunkRecords(kindOf, RecordBytes(kindOf, rec, packed) + rest)
            == if after.None? then None else Some([rec] + after.value)
  {
    hide Framed, Unpacked, Trailer;
    var t := Trailer(kindOf(rec.data), rec.data);
    var bytes := RecordBytes(kindOf, rec, packed) + rest;
    assert bytes[..8] == ToLE(rec.b, 8);
    assert bytes[8..] == packed + t + rest;
    Powers();
    FromToLE(rec.b, 8);
    ExtraIsUnread(packed, t, rec.data, rest);
  }

  /** With one byte too many before it, a record does not decode: its block number's last byte, a zero, is
      taken for an instruction. */
  lemma {:induction false} ShiftedRecord(kindOf: Block -> Kind, extra: byte, rec: Record, packed: seq<byte>, rest: seq<byte>)
    requires rec.b < 0x10_0000_0000_0000
    ensures ChunkRecords(kindOf, [extra] + (RecordBytes(kindOf, rec, packed) + rest)) == None
  {
    hide Trailer;
    var bytes := [extra] + (RecordBytes(kindOf, rec, packed) + rest);
    assert bytes[8] == ToLE(rec.b, 8)[7] == 0 by {
      assert Pow256(7) == 0x100_0000_0000_0000 by { Powers(); }
      HighByteZero(rec.b, 8, 7);
    }
    ZeroIsNoInstr(bytes[8..]);
  }

  lemma {:induction false} ZeroIsNoInstr(input: seq<byte>)
    requires input != [] && input[0] == 0
    ensures Unpacked(input, BLOCK_SIZE) == None
  {
    assert Instr(0, input, 1) == None;
  }

  lemma {:induction false} NothingReadable(kindOf: Block -> Kind)
    ensures Readable(kindOf, [])
  {
  }

  lemma {:induction false} ReadableFirst(kindOf: Block -> Kind, recs: seq<Record>)
    requires recs != []
    ensures var clean := Trailer(kindOf(recs[0].data), recs[0].data) == [];
            Readable(kindOf, recs) <==> |recs| == 1 || (clean && Readable(kindOf, recs[1..]))
  {
    hide Trailer;
    assert forall i :: 0 < i < |recs| ==> recs[i] == recs[1..][i - 1];
  }

  /** A chunk decodes to its records if only the last of them leaves an instruction unread, and otherwise not at
      all.  (Blocks are of 4096 bytes, so no block number has more than 52 bits.) */
  lemma {:induction false} ChunkDecodes(kindOf: Block -> Kind, bytes: seq<byte>, recs: seq<Record>, packs: seq<seq<byte>>)
    requires Holds(kindOf, bytes, recs, packs) && forall r :: r in recs ==> r.b < 0x10_0000_0000_0000
    ensures ChunkRecords(kindOf, bytes) == if Readable(kindOf, recs) then Some(recs) else None
    decreases |recs|
  {
    hide Framed, ChunkRecords, RecordBytes, Readable;
    NothingReadable(kindOf);
    if recs == [] {
      ShortChunk(kindOf, bytes);
    } else {
      var rest := ChunkBytes(kindOf, recs[1..], packs[1..]);
      var t := Trailer(kindOf(recs[0].data), recs[0].data);
      FirstRecord(kindOf, recs[0], packs[0], rest);
      ChunkDecodes(kindOf, rest, recs[1..], packs[1..]);
      assert recs == [recs[0]] + recs[1..];
      ReadableFirst(kindOf, recs);
      if t == [] {
        assert t + rest == rest;
      } else if |recs| == 1 {
        ShortChunk(kindOf, t + rest);
      } else {
        ShiftedRecord(kindOf, t[0], recs[1], packs[1], ChunkBytes(kindOf, recs[1..][1..], packs[1..][1..]));
        assert t == [t[0]];
      }
    }
  }

  lemma {:induction false} ShortChunk(kindOf: Block -> Kind, bytes: seq<byte>)
    requires |bytes| < 8
    ensures ChunkRecords(kindOf, bytes) == Some([])
  {
  }

  // ---- the file: chunks, each after its length

  function FileBytes(chunks: seq<seq<byte>>): seq<byte> {
    if chunks == [] then [] else FileBytes(chunks[..|chunks| - 1]) + ChunkInFile(chunks[|chunks| - 1])
  }

  function ChunkInFile(chunk: seq<byte>): seq<byte> {
    ToLE(|chunk|, 8) + chunk
  }

  /** The chunks of a file; None if the last is cut short. */
  function FileChunks(bytes: seq<byte>): Option<seq<seq<byte>>>
    decreases |bytes|
  {
    if |bytes| < 8 then Some([])
    else if |bytes| - 8 < FromLE(bytes[..8]) then None
    else
      var end := 8 + FromLE(bytes[..8]);
      match FileChunks(bytes[end..])
      case None => None
      case Some(more) => Some([bytes[8..end]] + more)
  }

  lemma {:induction false} FirstChunk(c: seq<byte>, rest: seq<byte>)
    requires |c| < TWO64
    ensures var more := FileChunks(rest);
            FileChunks(ChunkInFile(c) + rest) == if more.None? then None else Some([c] + more.value)
  {
    var bytes := ChunkInFile(c) + rest;
    assert bytes[..8] == ToLE(|c|, 8) && bytes[8..8 + |c|] == c && bytes[8 + |c|..] == rest;
    Powers();
    FromToLE(|c|, 8);
  }

  lemma {:induction false} FileChunksBack(chunks: seq<seq<byte>>, rest: seq<byte>)
    requires forall c :: c in chunks ==> |c| < TWO64
    ensures var more := FileChunks(rest);
            FileChunks(FileBytes(chunks) + rest) == if more.None? then None else Some(chunks + more.value)
    decreases |chunks|
  {
    hide FileChunks, ChunkInFile;
    var more := FileChunks(rest);
    if chunks == [] {
      assert FileBytes(chunks) + rest == rest;
      assert more.Some? ==> [] + more.value == more.value;
    } else {
      var before, c := chunks[..|chunks| - 1], chunks[|chunks| - 1];
      assert FileBytes(chunks) + rest == FileBytes(before) + (ChunkInFile(c) + rest);
      FileChunksBack(before, ChunkInFile(c) + rest);
      FirstChunk(c, rest);
      assert more.Some? ==> before + ([c] + more.value) == chunks + more.value;
    }
  }

  /** The records of some chunks, one after the other. */
  function AllRecords(kindOf: Block -> Kind, chunks: seq<seq<byte>>): Option<seq<Record>> {
    if chunks == [] then Some([])
    else
      match (AllRecords(kindOf, chunks[..|chunks| - 1]), ChunkRecords(kindOf, chunks[|chunks| - 1]))
      case (Some(before), Some(last)) => Some(before + last)
      case _ => None
  }

  /** Chunks that hold groups of records. */
  ghost predicate HoldAll(kindOf: Block -> Kind, chunks: seq<seq<byte>>, groups: seq<seq<Record>>) {
    && |chunks| == |groups|
    && forall i :: 0 <= i < |chunks| ==> HoldsSome(kindOf, chunks[i], groups[i])
  }

  ghost predicate HoldsSome(kindOf: Block -> Kind, chunk: seq<byte>, recs: seq<Record>) {
    && (exists packs :: Holds(kindOf, chunk, recs, packs))
    && |chunk| < TWO64 && (forall r :: r in recs ==> r.b < 0x10_0000_0000_0000)
  }

  lemma {:induction false} AllDecode(kindOf: Block -> Kind, chunks: seq<seq<byte>>, groups: seq<seq<Record>>)
    requires HoldAll(kindOf, chunks, groups)
    ensures AllRecords(kindOf, chunks)
            == if forall i :: 0 <= i < |groups| ==> Readable(kindOf, groups[i]) then Some(Flatten(groups)) else None
    decreases |groups|
  {
    hide Holds, Readable, ChunkRecords;
    if groups != [] {
      var k := |groups| - 1;
      AllDecode(kindOf, chunks[..k], groups[..k]);
      assert HoldsSome(kindOf, chunks[k], groups[k]);
      var packs :| Holds(kindOf, chunks[k], groups[k], packs);
      ChunkDecodes(kindOf, chunks[k], groups[k], packs);
    }
  }

  // ---- packing

  /** The blocks of a known kind in lo..hi, in order. */
  function Known(kindOf: Block -> Kind, dev: seq<Block>, lo: nat, hi: nat): seq<Record>
    requires lo <= hi <= |dev| < 0x10_0000_0000_0000
  {
    if lo == hi then []
    else
      Known(kindOf, dev, lo, hi - 1) + if kindOf(dev[hi - 1]) == Unknown then [] else [Record(hi - 1, dev[hi - 1])]
  }

  type Range = r: (nat, nat) | r.0 <= r.1 witness (0, 0)

  predicate Inside(dev: seq<Block>, ranges: seq<Range>) {
    forall r :: r in ranges ==> r.1 <= |dev|
  }

  function KnownIn(kindOf: Block -> Kind, dev: seq<Block>, ranges: seq<Range>): seq<Record>
    requires Inside(dev, ranges) && |dev| < 0x10_0000_0000_0000
  {
    if ranges == [] then []
    else
      var r := ranges[|ranges| - 1];
      KnownIn(kindOf, dev, ranges[..|ranges| - 1]) + Known(kindOf, dev, r.0, r.1)
  }

  /** What has been written: whole chunks to the output, and an open chunk in the compressor. */
  datatype Progress = Progress(chunks: seq<seq<byte>>, groups: seq<seq<Record>>, open: seq<Record>, packs: seq<seq<byte>>) {
    ghost predicate Inv(kindOf: Block -> Kind, out: seq<byte>, z: seq<byte>) {
      && out == FileBytes(chunks) && HoldAll(kindOf, chunks, groups) && Holds(kindOf, z, open, packs)
      && |open| < 1024 && |z| <= |open| * 0x20_0000 && (forall g :: g in groups ==> |g| == 1024)
      && (forall r :: r in open ==> r.b < 0x10_0000_0000_0000)
    }

    function Records(): seq<Record> {
      Flatten(groups) + open
    }

    /** The groups, the open one included unless it is empty. */
    function AllGroups(): seq<seq<Record>> {
      if open == [] then groups else groups + [open]
    }

    function Add(r: Record, p: seq<byte>): Progress {
      this.(open := open + [r], packs := packs + [p])
    }

    function Close(z: seq<byte>): Progress {
      Progress(chunks + [z], groups + [open], [], [])
    }

    lemma {:induction false} AddKeeps(kindOf: Block -> Kind, out: seq<byte>, z: seq<byte>, r: Record, p: seq<byte>)
      requires Inv(kindOf, out, z) && Framed(p, r.data) && kindOf(r.data) != Unknown && |p| <= 0x10_0000
      requires r.b < 0x10_0000_0000_0000
      ensures var z' := z + RecordBytes(kindOf, r, p);
              && Holds(kindOf, z', Add(r, p).open, Add(r, p).packs) && |z'| <= |Add(r, p).open| * 0x20_0000
              && (|open| < 1023 ==> Add(r, p).Inv(kindOf, out, z'))
      ensures Add(r, p).Records() == Records() + [r]
    {
      hide Framed, Trailer, Holds, HoldAll, FileBytes, Flatten;
      HoldsPush(kindOf, z, open, packs, r, p);
      assert |RecordBytes(kindOf, r, p)| <= 0x20_0000;
      assert Flatten(groups) + (open + [r]) == Flatten(groups) + open + [r];
      assert |open + [r]| == |open| + 1;
    }

    lemma {:induction false} CloseKeeps(kindOf: Block -> Kind, out: seq<byte>, z: seq<byte>)
      requires out == FileBytes(chunks) && HoldAll(kindOf, chunks, groups) && Holds(kindOf, z, open, packs)
      requires |z| <= |open| * 0x20_0000 && 0 < |open| <= 1024
      requires forall r :: r in open ==> r.b < 0x10_0000_0000_0000
      ensures Close(z).chunks == chunks + [z] && HoldAll(kindOf, Close(z).chunks, Close(z).groups)
      ensures out + ChunkInFile(z) == FileBytes(Close(z).chunks)
      ensures Holds(kindOf, [], [], []) && Close(z).Records() == Records() && Close(z).AllGroups() == AllGroups()
    {
      hide Holds, ChunkInFile;
      assert HoldsSome(kindOf, z, open);
      assert (chunks + [z])[..|chunks|] == chunks && (groups + [open])[..|groups|] == groups;
      EmptyHolds(kindOf);
      assert Flatten(groups + [open]) == Flatten(groups) + open;
      assert Flatten(groups) + open + [] == Flatten(groups) + open;
    }
  }

  lemma {:induction false} EmptyHolds(kindOf: Block -> Kind)
    ensures Holds(kindOf, [], [], [])
  {
  }

  /** One block of the inner loop of `crunch`: packed into the open chunk, which is closed when it is full. */
  method CrunchBlock(kindOf: Block -> Kind, z: Writer, output: Writer, b: u64, data: Block, written: nat, ghost p: Progress)
    returns (ok: bool, written': nat, ghost p': Progress)
    requires z != output && b < 0x10_0000_0000_0000
    requires p.Inv(kindOf, output.out, z.out) && written == |p.open|
    modifies z, output
    ensures ok == (kindOf(data) == Unknown || CanPack(kindOf(data), data))
    ensures ok ==> p'.Inv(kindOf, output.out, z.out) && written' == |p'.open|
    ensures ok ==> p'.Records() == p.Records() + if kindOf(data) == Unknown then [] else [Record(b, data)]
  {
    hide Framed, Holds, FileBytes, ChunkInFile, HoldAll, RecordBytes;
    written', p' := written, p;
    if kindOf(data) == Unknown {
      assert p.Records() + [] == p.Records();
      return true, written', p';
    }
    ghost var z0 := z.out;
    z.Write(ToLE(b, 8));
    ghost var packed;
    ok, packed := PackBlock(z, kindOf(data), data);
    if !ok {
      return;
    }
    BytesOfRecord(kindOf, z0, Record(b, data), packed);
    p.AddKeeps(kindOf, output.out, z0, Record(b, data), packed);
    written', p' := written + 1, p.Add(Record(b, data), packed);
    if written' == 1024 {
      written', p' := CloseChunk(kindOf, z, output, p');
    }
  }

  lemma {:induction false} BytesOfRecord(kindOf: Block -> Kind, z: seq<byte>, rec: Record, packed: seq<byte>)
    ensures z + ToLE(rec.b, 8) + packed + Trailer(kindOf(rec.data), rec.data) == z + RecordBytes(kindOf, rec, packed)
  {
  }

  /** The compressor's output goes to the file after its length. */
  method CloseChunk(kindOf: Block -> Kind, z: Writer, output: Writer, ghost p: Progress)
    returns (written: nat, ghost p': Progress)
    requires z != output && output.out == FileBytes(p.chunks) && HoldAll(kindOf, p.chunks, p.groups)
    requires Holds(kindOf, z.out, p.open, p.packs) && |z.out| <= |p.open| * 0x20_0000 && 0 < |p.open| <= 1024
    requires forall r :: r in p.open ==> r.b < 0x10_0000_0000_0000
    modifies z, output
    ensures p' == p.Close(old(z.out)) && z.out == [] && output.out == FileBytes(p'.chunks)
    ensures HoldAll(kindOf, p'.chunks, p'.groups) && Holds(kindOf, [], [], [])
    ensures p'.Records() == p.Records() && p'.AllGroups() == p.AllGroups()
    ensures written == 0
  {
    hide Holds, FileBytes, HoldAll, Flatten;
    p.CloseKeeps(kindOf, output.out, z.out);
    p' := p.Close(z.out);
    ghost var out := output.out;
    output.Write(ToLE(|z.out|, 8));
    output.Write(z.out);
    assert output.out == out + ChunkInFile(z.out);
    z.out := [];
    written := 0;
  }

  lemma {:induction false} KnownNone(kindOf: Block -> Kind, dev: seq<Block>, lo: nat)
    requires |dev| < 0x10_0000_0000_0000
    ensures lo <= |dev| ==> Known(kindOf, dev, lo, lo) == []
  {
  }

  lemma KnownSplit(kindOf: Block -> Kind, dev: seq<Block>, lo: nat, b: nat)
    requires lo <= b < |dev| < 0x10_0000_0000_0000
    ensures Known(kindOf, dev, lo, b + 1)
            == Known(kindOf, dev, lo, b) + if kindOf(dev[b]) == Unknown then [] else [Record(b, dev[b])]
  {
  }

  predicate AllPack(kindOf: Block -> Kind, dev: seq<Block>, lo: nat, hi: nat) {
    hi <= |dev| && forall b :: lo <= b < hi ==> kindOf(dev[b]) == Unknown || CanPack(kindOf(dev[b]), dev[b])
  }

  method CrunchRange(kindOf: Block -> Kind, dev: seq<Block>, z: Writer, output: Writer, lo: nat, hi: nat,
                     written: nat, ghost p: Progress)
    returns (ok: bool, written': nat, ghost p': Progress)
    requires z != output && |dev| < 0x10_0000_0000_0000 && lo <= hi
    requires p.Inv(kindOf, output.out, z.out) && written == |p.open|
    modifies z, output
    ensures ok == AllPack(kindOf, dev, lo, hi)
    ensures ok ==> p'.Inv(kindOf, output.out, z.out) && written' == |p'.open|
    ensures ok ==> p'.Records() == p.Records() + Known(kindOf, dev, lo, hi)
  {
    hide Known, CanPack, Holds, HoldAll, FileBytes, Flatten, ChunkBytes, Framed;
    written', p' := written, p;
    KnownNone(kindOf, dev, lo);
    if hi > |dev| {
      return false, written', p';
    }
    assert p.Records() + [] == p.Records();
    for b := lo to hi
      invariant p'.Inv(kindOf, output.out, z.out) && written' == |p'.open| && AllPack(kindOf, dev, lo, b)
      invariant p'.Records() == p.Records() + Known(kindOf, dev, lo, b)
    {
      ok, written', p' := CrunchBlock(kindOf, z, output, b, dev[b], written', p');
      if !ok {
        return;
      }
      KnownSplit(kindOf, dev, lo, b);
    }
    ok := true;
  }

  /** The form of a file of one chunk that holds one record: the chunk's length, the block's number and the packed block. */
  lemma {:induction false} OneRecordFile(kindOf: Block -> Kind, r: Record, packed: seq<byte>)
    requires kindOf(r.data) == Bitmap
    ensures FileBytes([ChunkBytes(kindOf, [r], [packed])]) == ToLE(8 + |packed|, 8) + ToLE(r.b, 8) + packed
  {
    var chunk := ChunkBytes(kindOf, [r], [packed]);
    assert chunk == RecordBytes(kindOf, r, packed) + ChunkBytes(kindOf, [r][1..], [packed][1..]);
    assert chunk == ToLE(r.b, 8) + packed;
    assert FileBytes([chunk]) == FileBytes([chunk][..0]) + ChunkInFile(chunk) == ChunkInFile(chunk);
  }

  /** Whether a file's chunks all decode, and to what: `groups` are the records of each chunk. */
  ghost predicate Decodes(kindOf: Block -> Kind, file: seq<byte>, groups: seq<seq<Record>>) {
    && FileChunks(file).Some?
    && AllRecords(kindOf, FileChunks(file).value)
       == if forall i :: 0 <= i < |groups| ==> Readable(kindOf, groups[i]) then Some(Flatten(groups)) else None
  }

  /** What was written is chunks, each with its length before it, that hold these groups of records. */
  ghost predicate Chunked(kindOf: Block -> Kind, out: seq<byte>, groups: seq<seq<Record>>) {
    exists chunks :: out == FileBytes(chunks) && HoldAll(kindOf, chunks, groups)
  }

  lemma {:induction false} NoneOpen(p: Progress)
    requires p.open == []
    ensures p.AllGroups() == p.groups
  {
  }

  /** A worker's whole run.  It fails when a range is past the end of the device or a known block does not pack;
      otherwise its chunks hold the known blocks of its ranges in order, 1024 to a chunk. */
  method Crunch(kindOf: Block -> Kind, dev: seq<Block>, output: Writer, ranges: seq<Range>)
    returns (ok: bool, ghost groups: seq<seq<Record>>)
    requires |dev| < 0x10_0000_0000_0000 && output.out == []
    modifies output
    ensures ok == forall r :: r in ranges ==> AllPack(kindOf, dev, r.0, r.1)
    ensures ok ==> Inside(dev, ranges) && Decodes(kindOf, output.out, groups) && Chunked(kindOf, output.out, groups)
    ensures ok ==> Flatten(groups) == KnownIn(kindOf, dev, ranges)
    ensures ok ==> forall i :: 0 <= i < |groups| ==> 0 < |groups[i]| <= 1024 && (i < |groups| - 1 ==> |groups[i]| == 1024)
  {
    hide Holds, AllPack, Known, KnownIn, FileBytes, HoldAll, Flatten;
    var written := 0;
    var z := new Writer();
    ghost var p := Progress([], [], [], []);
    groups := [];
    NothingWritten(kindOf);
    NothingKnown(kindOf, dev);
    for i := 0 to |ranges|
      invariant fresh(z) && p.Inv(kindOf, output.out, z.out) && written == |p.open|
      invariant forall k :: 0 <= k < i ==> AllPack(kindOf, dev, ranges[k].0, ranges[k].1)
      invariant Inside(dev, ranges[..i]) && p.Records() == KnownIn(kindOf, dev, ranges[..i])
    {
      ok, written, p := CrunchRange(kindOf, dev, z, output, ranges[i].0, ranges[i].1, written, p);
      if !ok {
        assert ranges[i] in ranges;
        return;
      }
      KnownInPush(kindOf, dev, ranges, i);
    }
    assert ranges[..|ranges|] == ranges;
    groups := p.AllGroups();
    ghost var q := p;
    if written > 0 {
      written, q := CloseChunk(kindOf, z, output, p);
    }
    ok := true;
    Finished(kindOf, output.out, q);
    assert groups == q.groups && Chunked(kindOf, output.out, groups) by { NoneOpen(q); }
    forall r | r in ranges ensures AllPack(kindOf, dev, r.0, r.1) {
      var k :| 0 <= k < |ranges| && ranges[k] == r;
    }
  }

  lemma {:induction false} NothingWritten(kindOf: Block -> Kind)
    ensures Progress([], [], [], []).Inv(kindOf, [], []) && Progress([], [], [], []).Records() == []
  {
    EmptyHolds(kindOf);
  }

  lemma {:induction false} NothingKnown(kindOf: Block -> Kind, dev: seq<Block>)
    requires |dev| < 0x10_0000_0000_0000
    ensures KnownIn(kindOf, dev, []) == []
  {
  }

  lemma {:induction false} KnownInPush(kindOf: Block -> Kind, dev: seq<Block>, ranges: seq<Range>, i: nat)
    requires i < |ranges| && Inside(dev, ranges[..i]) && |dev| < 0x10_0000_0000_0000
    requires AllPack(kindOf, dev, ranges[i].0, ranges[i].1)
    ensures Inside(dev, ranges[..i + 1])
    ensures KnownIn(kindOf, dev, ranges[..i + 1])
            == KnownIn(kindOf, dev, ranges[..i]) + Known(kindOf, dev, ranges[i].0, ranges[i].1)
  {
    hide Known;
    assert ranges[..i + 1] == ranges[..i] + [ranges[i]];
    assert ranges[..i + 1][..i] == ranges[..i];
  }

  lemma {:induction false} Finished(kindOf: Block -> Kind, out: seq<byte>, p: Progress)
    requires out == FileBytes(p.chunks) && HoldAll(kindOf, p.chunks, p.groups) && p.open == []
    ensures Decodes(kindOf, out, p.AllGroups()) && p.Records() == Flatten(p.AllGroups())
  {
    hide FileChunks, FileBytes, AllRecords, ChunkRecords, Readable;
    assert out + [] == out;
    FileChunksBack(p.chunks, []);
    assert FileChunks([]) == Some([]) by { EndOfFile(); }
    assert p.chunks + [] == p.chunks;
    AllDecode(kindOf, p.chunks, p.groups);
    assert Flatten(p.groups) + [] == Flatten(p.groups);
  }

  lemma EndOfFile()
    ensures FileChunks([]) == Some([])
  {
  }

  // ---- unpacking

  /** The file being written: its blocks by number. */
  class Device {
    var blocks: map<nat, Block>

    constructor ()
      ensures blocks == map[]
    {
      blocks := map[];
    }

    method WriteAt(b: nat, data: Block)
      modifies this
      ensures blocks == old(blocks)[b := data]
    {
      blocks := blocks[b := data];
    }
  }

  /** The records were written, in some order: each block named now holds what one of them says. */
  ghost predicate Stored(before: map<nat, Block>, after: map<nat, Block>, recs: seq<Record>) {
    && (forall b :: b in before ==> b in after)
    && (forall b :: b in after ==> (b in before && after[b] == before[b] && !Named(recs, b)) || Says(recs, b, after[b]))
    && (forall r :: r in recs ==> r.b in after)
  }

  ghost predicate Named(recs: seq<Record>, b: nat) {
    exists r :: r in recs && r.b == b
  }

  ghost predicate Says(recs: seq<Record>, b: nat, data: Block) {
    exists r :: r in recs && r.b == b && r.data == data
  }

  lemma {:induction false} StoredThen(a: map<nat, Block>, b: map<nat, Block>, c: map<nat, Block>, r1: seq<Record>, r2: seq<Record>)
    requires Stored(a, b, r1) && Stored(b, c, r2)
    ensures Stored(a, c, r1 + r2) && Stored(a, c, r2 + r1)
  {
    forall k | k in c
      ensures (k in a && c[k] == a[k] && !Named(r1 + r2, k) && !Named(r2 + r1, k))
              || (Says(r1 + r2, k, c[k]) && Says(r2 + r1, k, c[k]))
    {
      if Says(r2, k, c[k]) {
        var r :| r in r2 && r.b == k && r.data == c[k];
        assert r in r1 + r2 && r in r2 + r1;
      } else if Says(r1, k, b[k]) {
        var r :| r in r1 && r.b == k && r.data == b[k];
        assert r in r1 + r2 && r in r2 + r1;
      }
    }
  }

  lemma {:induction false} StoredOne(before: map<nat, Block>, r: Record)
    ensures Stored(before, before[r.b as nat := r.data], [r])
  {
    assert r in [r];
  }

  /** `write_blocks`: from the back, until none is left. */
  method WriteBlocks(dev: Device, blocks: seq<Record>)
    modifies dev
    ensures Stored(old(dev.blocks), dev.blocks, blocks)
  {
    var left := blocks;
    assert blocks[|blocks|..] == [];
    while left != []
      invariant |left| <= |blocks| && left == blocks[..|left|] && Stored(old(dev.blocks), dev.blocks, blocks[|left|..])
    {
      var k := |left| - 1;
      var r := left[k];
      StoredOne(dev.blocks, r);
      StoredThen(old(dev.blocks), dev.blocks, dev.blocks[r.b as nat := r.data], blocks[|left|..], [r]);
      assert [r] + blocks[|left|..] == blocks[k..];
      dev.WriteAt(r.b, r.data);
      left := left[..k];
    }
    assert blocks[0..] == blocks;
  }

  /** Reads one record: none at the end of the chunk, and not ok if its block does not unpack to one of a known kind. */
  method NextRecord(kindOf: Block -> Kind, r: Reader) returns (ok: bool, rec: Option<Record>)
    requires r.Valid()
    modifies r
    ensures r.Valid() && (rec.Some? ==> ok && |r.Rest()| < |old(r.Rest())|)
    ensures ChunkRecords(kindOf, old(r.Rest()))
            == if !ok then None else if rec.None? then Some([]) else After([rec.value], ChunkRecords(kindOf, r.Rest()))
  {
    hide Unpacked;
    var bytes := r.Read(8);
    if bytes.None? {
      return true, None;
    }
    var data := Unpack(r, BLOCK_SIZE);
    if data.None? || kindOf(data.value) == Unknown {
      return false, None;
    }
    Powers();
    return true, Some(Record(FromLE(bytes.value), data.value));
  }

  /** The loop over one chunk: unpacks its records, writing them out 32 or so at a time.  `done` and `pending`
      are the records written so far and those not yet. */
  method DecodeChunk(kindOf: Block -> Kind, dev: Device, chunk: seq<byte>, blocks: seq<Record>, ghost before: map<nat, Block>,
                     ghost done: seq<Record>)
    returns (ok: bool, blocks': seq<Record>, ghost done': seq<Record>)
    requires Stored(before, dev.blocks, done) && |blocks| < 32
    modifies dev
    ensures ok == ChunkRecords(kindOf, chunk).Some?
    ensures ok ==> Stored(before, dev.blocks, done') && |blocks'| < 32
    ensures ok ==> done' + blocks' == done + blocks + ChunkRecords(kindOf, chunk).value
  {
    hide Stored, ChunkRecords, After;
    blocks', done' := blocks, done;
    var r := new Reader(chunk);
    ghost var sofar: seq<Record> := [];
    NoneBefore(ChunkRecords(kindOf, chunk));
    while true
      invariant r.Valid() && fresh(r) && |blocks'| < 32 && Stored(before, dev.blocks, done')
      invariant done' + blocks' == done + blocks + sofar
      invariant ChunkRecords(kindOf, chunk) == After(sofar, ChunkRecords(kindOf, r.Rest()))
      decreases |r.Rest()|
    {
      var next;
      ok, next := NextRecord(kindOf, r);
      if !ok || next.None? {
        NothingAfter(sofar);
        return;
      }
      var rec := next.value;
      AfterMore(sofar, rec, ChunkRecords(kindOf, r.Rest()));
      Appended(done', blocks', done + blocks, sofar, rec);
      blocks', sofar := blocks' + [rec], sofar + [rec];
      if |blocks'| >= 32 {
        blocks', done' := Flush(dev, blocks', before, done');
      }
    }
  }

  lemma {:induction false} NothingAfter(sofar: seq<Record>)
    ensures After(sofar, None) == None && After(sofar, Some([])) == Some(sofar)
  {
    assert sofar + [] == sofar;
  }

  lemma {:induction false} Appended(a: seq<Record>, b: seq<Record>, c: seq<Record>, d: seq<Record>, rec: Record)
    requires a + b == c + d
    ensures a + (b + [rec]) == c + (d + [rec])
  {
    assert a + (b + [rec]) == a + b + [rec];
    assert c + (d + [rec]) == c + d + [rec];
  }

  method Flush(dev: Device, blocks: seq<Record>, ghost before: map<nat, Block>, ghost done: seq<Record>)
    returns (blocks': seq<Record>, ghost done': seq<Record>)
    requires Stored(before, dev.blocks, done)
    modifies dev
    ensures Stored(before, dev.blocks, done') && blocks' == [] && done' == done + blocks && done' + blocks' == done + blocks
  {
    hide Stored;
    ghost var dev0 := dev.blocks;
    WriteBlocks(dev, blocks);
    StoredThen(before, dev0, dev.blocks, done, blocks);
    blocks', done' := [], done + blocks;
  }

  function After(sofar: seq<Record>, more: Option<seq<Record>>): Option<seq<Record>> {
    if more.None? then None else Some(sofar + more.value)
  }

  lemma NoneBefore(more: Option<seq<Record>>)
    ensures After([], more) == more
  {
    assert more.Some? ==> [] + more.value == more.value;
  }

  lemma AfterMore(sofar: seq<Record>, rec: Record, more: Option<seq<Record>>)
    ensures After(sofar, After([rec], more)) == After(sofar + [rec], more)
  {
    assert more.Some? ==> sofar + ([rec] + more.value) == sofar + [rec] + more.value;
  }

  /** A worker given some chunks: it fails if one of them does not decode, and otherwise writes every record. */
  method DecodeWorker(kindOf: Block -> Kind, dev: Device, chunks: seq<seq<byte>>) returns (ok: bool)
    modifies dev
    ensures ok == AllRecords(kindOf, chunks).Some?
    ensures ok ==> Stored(old(dev.blocks), dev.blocks, AllRecords(kindOf, chunks).value)
  {
    hide Stored, ChunkRecords;
    var blocks: seq<Record>;
    ghost var before, done: seq<Record> := dev.blocks, [];
    blocks := [];
    StoredNone(before);
    for i := 0 to |chunks|
      invariant AllRecords(kindOf, chunks[..i]).Some? && done + blocks == AllRecords(kindOf, chunks[..i]).value
      invariant Stored(before, dev.blocks, done) && |blocks| < 32
    {
      AllRecordsPush(kindOf, chunks, i);
      ok, blocks, done := DecodeChunk(kindOf, dev, chunks[i], blocks, before, done);
      if !ok {
        return false;
      }
    }
    assert chunks[..|chunks|] == chunks;
    blocks, done := Flush(dev, blocks, before, done);
    ok := true;
  }

  lemma StoredNone(before: map<nat, Block>)
    ensures Stored(before, before, [])
  {
  }

  /** How far the records of a prefix of the chunks determine those of all: a failure is not undone. */
  lemma {:induction false} AllRecordsPush(kindOf: Block -> Kind, chunks: seq<seq<byte>>, i: nat)
    requires i < |chunks|
    ensures AllRecords(kindOf, chunks[..i + 1])
            == match (AllRecords(kindOf, chunks[..i]), ChunkRecords(kindOf, chunks[i]))
               case (Some(before), Some(last)) => Some(before + last)
               case _ => None
    ensures AllRecords(kindOf, chunks[..i + 1]).None? ==> AllRecords(kindOf, chunks).None?
    decreases |chunks| - i
  {
    assert chunks[..i + 1][..i] == chunks[..i];
    if i + 1 < |chunks| {
      AllRecordsPush(kindOf, chunks, i + 1);
    } else {
      assert chunks[..i + 1] == chunks;
    }
  }

  // ---- packing and unpacking again

  ghost predicate InRanges(ranges: seq<Range>, b: nat) {
    exists r :: r in ranges && r.0 <= b < r.1
  }

  lemma {:induction false} KnownRecords(kindOf: Block -> Kind, dev: seq<Block>, lo: nat, hi: nat)
    requires lo <= hi <= |dev| < 0x10_0000_0000_0000
    ensures forall r :: r in Known(kindOf, dev, lo, hi) ==> lo <= r.b < hi && r.data == dev[r.b]
    ensures forall b: u64 :: lo <= b < hi && kindOf(dev[b]) != Unknown ==> Record(b, dev[b]) in Known(kindOf, dev, lo, hi)
    decreases hi - lo
  {
    if lo < hi {
      KnownRecords(kindOf, dev, lo, hi - 1);
    }
  }

  lemma {:induction false} KnownInRecords(kindOf: Block -> Kind, dev: seq<Block>, ranges: seq<Range>)
    requires Inside(dev, ranges) && |dev| < 0x10_0000_0000_0000
    ensures forall r :: r in KnownIn(kindOf, dev, ranges) ==> InRanges(ranges, r.b) && r.b < |dev| && r.data == dev[r.b]
    ensures forall b: u64 :: InRanges(ranges, b) && b < |dev| && kindOf(dev[b]) != Unknown
                             ==> Record(b, dev[b]) in KnownIn(kindOf, dev, ranges)
    decreases |ranges|
  {
    hide Known;
    if ranges != [] {
      var k := |ranges| - 1;
      KnownInRecords(kindOf, dev, ranges[..k]);
      KnownRecords(kindOf, dev, ranges[k].0, ranges[k].1);
      InRangesSplit(ranges);
    }
  }

  lemma InRangesSplit(ranges: seq<Range>)
    requires ranges != []
    ensures var k := |ranges| - 1;
            forall b: nat :: InRanges(ranges, b) <==> InRanges(ranges[..k], b) || ranges[k].0 <= b < ranges[k].1
  {
    var k := |ranges| - 1;
    assert ranges == ranges[..k] + [ranges[k]];
  }

  /** Unpacking what was packed restores every known block of the ranges, in whatever order, and writes no other. */
  lemma {:induction false} UnpackRestores(kindOf: Block -> Kind, dev: seq<Block>, ranges: seq<Range>, after: map<nat, Block>)
    requires Inside(dev, ranges) && |dev| < 0x10_0000_0000_0000
    requires Stored(map[], after, KnownIn(kindOf, dev, ranges))
    ensures forall b: u64 :: InRanges(ranges, b) && b < |dev| && kindOf(dev[b]) != Unknown ==> b in after
    ensures forall b :: b in after ==> InRanges(ranges, b) && b < |dev| && after[b] == dev[b]
  {
    var recs := KnownIn(kindOf, dev, ranges);
    KnownInRecords(kindOf, dev, ranges);
    forall b: u64 | InRanges(ranges, b) && b < |dev| && kindOf(dev[b]) != Unknown ensures b in after {
      assert Record(b, dev[b]) in recs;
    }
    forall b | b in after ensures InRanges(ranges, b) && b < |dev| && after[b] == dev[b] {
      assert Says(recs, b, after[b]);
    }
  }
}
