/** Packing of whole metadata blocks, and `unpack`: src/pack/node_encode.rs and src/pack/vm.rs. */
module NodeEncoders {
  import opened Wrappers
  import opened Bytes
  import opened PackVms

  const BLOCK_SIZE: nat := 4096
  const HEADER_SIZE: nat := 32

  type Block = bs: seq<byte> | |bs| == 4096 witness seq(4096, i => 0)

  /** What `summarise_node` reads from the header. */
  datatype Summary = Summary(isLeaf: bool, maxEntries: nat, valueSize: nat) {
    /** The values are packed as a run of u64s, not copied. */
    predicate PacksValues() {
      !isLeaf || valueSize == 8
    }

    /** Where the part that is copied verbatim begins. */
    function TailStart(): nat {
      HEADER_SIZE + (if PacksValues() then 16 else 8) * maxEntries
    }

    predicate Fits() {
      TailStart() <= BLOCK_SIZE
    }

    /** An empty tail is left out only when the values are packed; otherwise it becomes an instruction
        that emits nothing, which comes after the last byte wanted and so is never run. */
    predicate LeavesInstr() {
      !PacksValues() && TailStart() == BLOCK_SIZE
    }
  }

  function Summarise(data: Block): Summary {
    Summary(FromLE(data[4..8]) == 2, FromLE(data[20..24]), FromLE(data[24..28]))
  }

  /** `unpack`: runs a new machine for count bytes.  None stands for its errors and its failed assertions. */
  function Unpacked(input: seq<byte>, count: nat): (r: Option<(seq<byte>, seq<byte>)>)
    ensures r.Some? ==> |r.value.0| == count && |r.value.1| <= |input|
  {
    match Exec(0, input, count)
    case None => None
    case Some(e) => if |e.out| == count then Some((e.out, e.rest)) else None
  }

  method Unpack(r: Reader, count: nat) returns (data: Option<seq<byte>>)
    requires r.Valid()
    modifies r
    ensures r.Valid()
    ensures var u := Unpacked(old(r.Rest()), count);
            data.Some? == u.Some? && (u.Some? ==> (data.value, r.Rest()) == u.value)
  {
    hide Exec;
    var w := new Writer();
    var vm := new VM();
    ghost var e := Exec(0, r.Rest(), count);
    var written := vm.Execute(r, w, count);
    assert written.Some? ==> w.out == [] + e.value.out == e.value.out;
    if written.None? || |w.out| != count || written.value != count {
      return None;
    }
    data := Some(w.out);
  }

  /** Whatever follows the packed bytes, unpacking gives back data and leaves exactly that unread. */
  ghost predicate Framed(packed: seq<byte>, data: seq<byte>) {
    forall rest: seq<byte> :: FramedBefore(packed + rest, data, rest)
  }

  ghost predicate FramedBefore(input: seq<byte>, data: seq<byte>, rest: seq<byte>) {
    Unpacked(input, |data|) == Some((data, rest))
  }

  lemma {:induction false} EncodedIsFramed(packed: seq<byte>, data: seq<byte>)
    requires Encodes(packed, data)
    ensures Framed(packed, data)
  {
    hide Exec;
    forall rest: seq<byte> ensures FramedBefore(packed + rest, data, rest) {
      assert RunsTo(0, packed + rest, data, rest);
    }
  }

  /** Bytes after those that restore the data are never read: with them the packed form is not framed. */
  lemma {:induction false} ExtraIsUnread(packed: seq<byte>, extra: seq<byte>, data: seq<byte>, rest: seq<byte>)
    requires Framed(packed, data)
    ensures Unpacked(packed + extra + rest, |data|) == Some((data, extra + rest))
    ensures Framed(packed + extra, data) <==> extra == []
  {
    hide Unpacked;
    assert packed + extra + rest == packed + (extra + rest);
    assert FramedBefore(packed + (extra + rest), data, extra + rest);
    var none: seq<byte> := [];
    assert packed + extra + none == packed + extra && packed + none == packed;
    assert FramedBefore(packed + extra, data, extra);
    if extra != [] {
      assert !FramedBefore(packed + extra + none, data, none);
    } else {
      assert packed + extra == packed;
    }
  }

  /** `run64`: count u64s at the front of the bytes. */
  method Run64(bs: seq<byte>, count: nat) returns (r: Option<(seq<byte>, seq<u64>)>)
    ensures r.Some? <==> 8 * count <= |bs|
    ensures r.Some? ==> r.value.0 == bs[8 * count..] && |r.value.1| == count && ToLE64(r.value.1) == bs[..8 * count]
  {
    if 8 * count > |bs| {
      return None;
    }
    ToFromLE64(bs[..8 * count]);
    r := Some((bs[8 * count..], FromLE64(bs[..8 * count])));
  }

  /** The values: as one run of an internal node's, or as a nested run of a leaf's high and low parts. */
  method WriteValues(w: Writer, shifted: bool, values: seq<u64>) returns (ghost packed: seq<byte>)
    requires |values| < 4096
    modifies w
    ensures w.out == old(w.out) + packed && if shifted then PacksShifted(packed, values) else PacksRuns(packed, values)
    ensures Encodes(packed, ToLE64(values)) || InstrEncodes(packed, ToLE64(values))
    ensures |packed| <= 2 + 22 * |values|
  {
    if shifted {
      packed := PackShiftedU64s(w, values);
    } else {
      packed := PackU64s(w, values);
    }
  }

  method WriteTail(w: Writer, tail: seq<byte>) returns (ghost packed: seq<byte>)
    requires |tail| <= BLOCK_SIZE
    modifies w
    ensures w.out == old(w.out) + packed
    ensures packed == PackTail(tail) && (tail != [] ==> InstrEncodes(packed, tail))
    ensures |packed| <= 9 + |tail|
  {
    packed := [];
    if tail != [] {
      packed := WriteLiteral(w, tail);
    }
  }

  /** An instruction for the values, then one for the tail: either may emit nothing, but not both. */
  lemma {:induction false} ValuesThenTail(v: seq<byte>, values: seq<byte>, t: seq<byte>, tail: seq<byte>)
    requires Encodes(v, values) || InstrEncodes(v, values)
    requires if tail == [] then t == [] else InstrEncodes(t, tail)
    requires values + tail != []
    ensures Encodes(v + t, values + tail)
  {
    hide Encodes, InstrEncodes;
    if tail == [] {
      assert v + t == v && values + tail == values;
      if InstrEncodes(v, values) {
        InstrIsEnough(v, values);
      }
    } else {
      InstrIsEnough(t, tail);
      if Encodes(v, values) {
        EncodesConcat(v, values, t, tail);
      } else if values == [] {
        assert values + tail == tail;
        EncodesAfter(v, t, tail);
      } else {
        InstrIsEnough(v, values);
        EncodesConcat(v, values, t, tail);
      }
    }
  }

  lemma {:induction false} HeadThenRest(h: seq<byte>, hdr: seq<byte>, k: seq<byte>, keys: seq<byte>)
    requires InstrEncodes(h, hdr) && hdr != [] && Encodes(k, keys)
    ensures Encodes(h + k, hdr + keys)
  {
    hide Encodes, InstrEncodes;
    InstrIsEnough(h, hdr);
    EncodesConcat(h, hdr, k, keys);
  }

  function PackTail(tail: seq<byte>): seq<byte>
    requires |tail| <= BLOCK_SIZE
  {
    if tail == [] then [] else PackLiteral(tail)
  }

  ghost predicate ValuesForm(packed: seq<byte>, values: seq<u64>, info: Summary) {
    if !info.PacksValues() then packed == [] else if info.isLeaf then PacksShifted(packed, values) else PacksRuns(packed, values)
  }

  /** The parts of a node. */
  datatype Parts = Parts(hdr: seq<byte>, keys: seq<u64>, values: seq<u64>, tail: seq<byte>) {
    ghost predicate Of(data: Block) {
      && |hdr| == HEADER_SIZE && |keys| < 4096 && |values| < 4096 && |tail| <= BLOCK_SIZE
      && hdr + ToLE64(keys) + (ToLE64(values) + tail) == data
    }

    /** As many keys as the header says there is room for, and as many values if they are packed. */
    ghost predicate Sized(info: Summary) {
      |keys| == info.maxEntries && |values| == if info.PacksValues() then info.maxEntries else 0
    }

    /** The header copied, the keys as runs, a leaf's values in two parts and an internal node's as runs, the rest copied. */
    ghost predicate PackedAs(packed: seq<byte>, info: Summary)
      requires |hdr| == HEADER_SIZE && |tail| <= BLOCK_SIZE
    {
      var h, t := PackLiteral(hdr), PackTail(tail);
      exists k: seq<byte>, v: seq<byte> :: PacksRuns(k, keys) && ValuesForm(v, values, info) && packed == h + k + (v + t)
    }
  }

  /** What is written for a node. */
  ghost predicate NodeForm(packed: seq<byte>, data: Block) {
    exists parts: Parts :: parts.Of(data) && parts.Sized(Summarise(data)) && parts.PackedAs(packed, Summarise(data))
  }

  method Split(data: Block) returns (r: Option<Parts>)
    ensures r.Some? <==> Summarise(data).Fits()
    ensures r.Some? ==> r.value.Of(data) && r.value.Sized(Summarise(data))
    ensures r.Some? ==> (r.value.tail == [] <==> Summarise(data).TailStart() == BLOCK_SIZE)
  {
    hide FromLE, ToLE64, FromLE64;
    var info := Summarise(data);
    var hdr := data[..HEADER_SIZE];
    var keys := Run64(data[HEADER_SIZE..], info.maxEntries);
    if keys.None? {
      return None;
    }
    var tail, values := keys.value.0, [];
    LE64Nothing();
    if info.PacksValues() {
      var vs := Run64(tail, info.maxEntries);
      if vs.None? {
        return None;
      }
      tail, values := vs.value.0, vs.value.1;
    }
    r := Some(Parts(hdr, keys.value.1, values, tail));
  }

  /** Written after a packed node, and never run. */
  function Unread(data: Block): seq<byte> {
    if Summarise(data).LeavesInstr() then PackLiteral([]) else []
  }

  /** Packs a node, whatever its header claims, or fails having written nothing.  What is written unpacks to
      the block bit for bit.  All of it is read back, unless the node's keys fill the block and its values, not
      being u64s, would be copied. */
  method PackBtreeNode(w: Writer, data: Block) returns (ok: bool, ghost packed: seq<byte>)
    modifies w
    ensures ok <==> Summarise(data).Fits()
    ensures w.out == if ok then old(w.out) + packed + Unread(data) else old(w.out)
    ensures ok ==> Framed(packed, data) && |packed| <= 0x10_0000 && NodeForm(packed, data)
  {
    hide Encodes, InstrEncodes, Framed, Unread, Parts.Of, NodeForm;
    packed := [];
    var parts := Split(data);
    if parts.None? {
      return false, packed;
    }
    ok := true;
    if Summarise(data).PacksValues() {
      packed := WriteWithValues(w, data, parts.value);
      assert w.out == old(w.out) + packed + [];
    } else {
      packed := WriteVerbatim(w, data, parts.value);
    }
  }

  method WriteWithValues(w: Writer, data: Block, parts: Parts) returns (ghost packed: seq<byte>)
    requires parts.Of(data) && parts.Sized(Summarise(data)) && Summarise(data).PacksValues()
    modifies w
    ensures w.out == old(w.out) + packed && Unread(data) == []
    ensures Framed(packed, data) && |packed| <= 0x10_0000 && NodeForm(packed, data)
  {
    hide Encodes, InstrEncodes, Framed, FromLE, ToLE64, PackLiteral, PacksRuns, PacksShifted, NodeForm;
    ghost var h := WriteLiteral(w, parts.hdr);
    ghost var k := PackU64s(w, parts.keys);
    ghost var v := WriteValues(w, Summarise(data).isLeaf, parts.values);
    ghost var t := WriteTail(w, parts.tail);
    PackedValues(parts, data, h, k, v, t);
    packed := h + k + (v + t);
    PartsPacked(parts, data, k, v);
  }

  lemma PartsPacked(parts: Parts, data: Block, k: seq<byte>, v: seq<byte>)
    requires parts.Of(data) && parts.Sized(Summarise(data)) && PacksRuns(k, parts.keys)
    requires ValuesForm(v, parts.values, Summarise(data))
    ensures NodeForm(PackLiteral(parts.hdr) + k + (v + PackTail(parts.tail)), data)
  {
    hide PacksRuns, ValuesForm, PackLiteral, PackTail, ToLE64, Summarise, Parts.Sized;
    assert parts.PackedAs(PackLiteral(parts.hdr) + k + (v + PackTail(parts.tail)), Summarise(data));
  }

  method WriteVerbatim(w: Writer, data: Block, parts: Parts) returns (ghost packed: seq<byte>)
    requires parts.Of(data) && parts.Sized(Summarise(data)) && !Summarise(data).PacksValues()
    requires parts.tail == [] <==> Summarise(data).TailStart() == BLOCK_SIZE
    modifies w
    ensures w.out == old(w.out) + packed + Unread(data)
    ensures Framed(packed, data) && |packed| <= 0x10_0000 && NodeForm(packed, data)
  {
    hide Encodes, InstrEncodes, Framed, FromLE, ToLE64, PackLiteral, PacksRuns, NodeForm;
    ghost var h := WriteLiteral(w, parts.hdr);
    ghost var k := PackU64s(w, parts.keys);
    ghost var t := WriteLiteral(w, parts.tail);
    PackedVerbatim(parts, data, h, k, t);
    packed := h + k + if parts.tail == [] then [] else t;
    PartsPacked(parts, data, k, []);
    assert [] + (if parts.tail == [] then [] else t) == if parts.tail == [] then [] else t;
  }

  lemma {:induction false} PackedValues(parts: Parts, data: Block, h: seq<byte>, k: seq<byte>, v: seq<byte>, t: seq<byte>)
    requires parts.Of(data) && |parts.values| == |parts.keys|
    requires InstrEncodes(h, parts.hdr) && Encodes(k, ToLE64(parts.keys))
    requires Encodes(v, ToLE64(parts.values)) || InstrEncodes(v, ToLE64(parts.values))
    requires if parts.tail == [] then t == [] else InstrEncodes(t, parts.tail)
    ensures Framed(h + k + (v + t), data)
  {
    hide Encodes, InstrEncodes, Framed, ToLE64;
    var Parts(hdr, keys, values, tail) := parts;
    HeadThenRest(h, hdr, k, ToLE64(keys));
    assert |hdr + ToLE64(keys) + (ToLE64(values) + tail)| == BLOCK_SIZE;
    ValuesThenTail(v, ToLE64(values), t, tail);
    EncodesConcat(h + k, hdr + ToLE64(keys), v + t, ToLE64(values) + tail);
    EncodedIsFramed(h + k + (v + t), data);
  }

  lemma {:induction false} PackedVerbatim(parts: Parts, data: Block, h: seq<byte>, k: seq<byte>, t: seq<byte>)
    requires parts.Of(data) && parts.values == []
    requires InstrEncodes(h, parts.hdr) && Encodes(k, ToLE64(parts.keys)) && InstrEncodes(t, parts.tail)
    ensures Framed(h + k + (if parts.tail == [] then [] else t), data)
  {
    hide Encodes, InstrEncodes, Framed;
    var Parts(hdr, keys, _, tail) := parts;
    HeadThenRest(h, hdr, k, ToLE64(keys));
    assert ToLE64([]) + tail == tail;
    if tail == [] {
      assert h + k + [] == h + k && hdr + ToLE64(keys) + [] == hdr + ToLE64(keys);
      EncodedIsFramed(h + k, data);
    } else {
      InstrIsEnough(t, tail);
      EncodesConcat(h + k, hdr + ToLE64(keys), t, tail);
      EncodedIsFramed(h + k + t, data);
    }
  }

  /** What a block's checksum says it is. */
  datatype Kind = Superblock | Node | Index | Bitmap | Array | Unknown

  /** What is written for a block: all of it but a node is copied as it is. */
  ghost predicate PackedForm(kind: Kind, data: Block, packed: seq<byte>) {
    if kind == Node then NodeForm(packed, data) else packed == [0xa2, 0x00, 0x10] + data
  }

  predicate CanPack(kind: Kind, data: Block) {
    kind != Unknown && (kind == Node ==> Summarise(data).Fits())
  }

  /** What follows a packed block and is never run. */
  function Trailer(kind: Kind, data: Block): (bs: seq<byte>)
    ensures |bs| == if kind == Node && Summarise(data).LeavesInstr() then 1 else 0
  {
    if kind == Node then Unread(data) else []
  }

  /** `pack_block`: every kind but a node is copied. */
  method PackBlock(w: Writer, kind: Kind, data: Block) returns (ok: bool, ghost packed: seq<byte>)
    modifies w
    ensures ok <==> CanPack(kind, data)
    ensures w.out == if ok then old(w.out) + packed + Trailer(kind, data) else old(w.out)
    ensures ok ==> Framed(packed, data) && |packed| <= 0x10_0000 && PackedForm(kind, data, packed)
  {
    hide Framed, Unpacked, NodeForm;
    packed := [];
    match kind
    case Unknown => ok := false;
    case Node => ok, packed := PackBtreeNode(w, data);
    case Superblock | Index | Bitmap | Array =>
      ok := true;
      packed := WriteLiteral(w, data);
      LiteralBytes(data);
      InstrIsEnough(packed, data);
      EncodedIsFramed(packed, data);
  }

  /** There is a block that leaves such an instruction: a leaf of 508 keys and values of no size. */
  lemma UnreadInstr() returns (data: Block)
    ensures Summarise(data) == Summary(true, 508, 0) && Summarise(data).Fits() && Summarise(data).LeavesInstr()
  {
    data := seq(4096, i => if i == 4 then 2 else if i == 20 then 252 else if i == 21 then 1 else 0);
    FourBytes(data[4..8]);
    FourBytes(data[20..24]);
    FourBytes(data[24..28]);
  }

  lemma {:induction false} FourBytes(bs: seq<byte>)
    requires |bs| == 4
    ensures FromLE(bs) == bs[0] as int + 0x100 * bs[1] as int + 0x1_0000 * bs[2] as int + 0x100_0000 * bs[3] as int
  {
    assert FromLE(bs[3..]) == bs[3] && FromLE(bs[2..]) == bs[2] + 256 * FromLE(bs[2..][1..]);
    assert bs[2..][1..] == bs[3..] && bs[1..][1..] == bs[2..];
  }

  /** Where the header has what is read from it. */
  lemma {:induction false} HeaderFields(data: Block)
    ensures Summarise(data).isLeaf <==> data[4] == 2 && data[5] == 0 && data[6] == 0 && data[7] == 0
    ensures Summarise(data).maxEntries
            == data[20] as int + 0x100 * data[21] as int + 0x1_0000 * data[22] as int + 0x100_0000 * data[23] as int
    ensures Summarise(data).valueSize
            == data[24] as int + 0x100 * data[25] as int + 0x1_0000 * data[26] as int + 0x100_0000 * data[27] as int
  {
    FourBytes(data[4..8]);
    FourBytes(data[20..24]);
    FourBytes(data[24..28]);
  }

  /** A node with a header that a node check accepts, and values of at least a byte, packs and is read back in full. */
  lemma HonestNodePacks(data: Block)
    requires var s := Summarise(data); s.valueSize >= 1 && (8 + s.valueSize) * s.maxEntries + HEADER_SIZE <= BLOCK_SIZE
    requires !Summarise(data).isLeaf ==> Summarise(data).valueSize == 8
    ensures CanPack(Node, data) && Trailer(Node, data) == []
  {
    var s := Summarise(data);
    if !s.PacksValues() {
      assert (8 + s.valueSize) * s.maxEntries == 9 * s.maxEntries + (s.valueSize - 1) * s.maxEntries;
    }
  }
}
