/** The pack format and its virtual machine: src/pack/vm.rs. */
module PackVms {
  import opened Wrappers
  import opened Bytes
  import opened DeltaLists

  // Instruction tags, in the high nibble of an instruction's first byte.
  const SET := 0
  const POS := 1
  const POS_W := 2
  const NEG := 3
  const NEG_W := 4
  const CONST := 5
  const CONST8 := 6
  const COUNT := 7
  const COUNT8 := 8
  const LIT := 9
  const LIT_W := 10
  const SHIFTED_RUN := 11

  function Tag(tag: nat, nibble: nat): byte
    requires tag < 16 && nibble < 16
  {
    tag * 16 + nibble
  }

  /** The narrowest operand that holds n. */
  function Width(n: u64): (w: nat)
    ensures w <= 8 && n < Pow256(w)
  {
    Powers();
    if n < 0x100 then 1 else if n < 0x1_0000 then 2 else if n < 0x1_0000_0000 then 4 else 8
  }

  function PackWide(tag: nat, n: u64): seq<byte>
    requires tag < 16
  {
    [Tag(tag, Width(n))] + ToLE(n, Width(n))
  }

  /** A twelve bit operand: four bits beside the tag, eight in the next byte. */
  function Pack12(tag: nat, n: nat): seq<byte>
    requires tag < 16 && n < 4096
  {
    [Tag(tag, n / 256), n % 256]
  }

  function PackCount(count: nat): seq<byte>
    requires count < 4096
  {
    if count == 1 then [] else if count < 16 then [Tag(COUNT, count)] else Pack12(COUNT8, count)
  }

  function PackStep(small: nat, wide: nat, delta: u64): seq<byte>
    requires small < 16 && wide < 16
  {
    if delta < 16 then [Tag(small, delta)] else PackWide(wide, delta)
  }

  function PackDelta(d: Delta): seq<byte>
    requires Countable(d, 4095)
  {
    match d
    case Base(n) => PackWide(SET, n)
    case Pos(delta, count) => PackCount(count) + PackStep(POS, POS_W, delta)
    case Neg(delta, count) => PackCount(count) + PackStep(NEG, NEG_W, delta)
    case Const(count) => if count < 16 then [Tag(CONST, count)] else Pack12(CONST8, count)
  }

  function PackDeltas(ds: seq<Delta>): seq<byte>
    requires forall d :: d in ds ==> Countable(d, 4095)
  {
    if ds == [] then [] else PackDeltas(ds[..|ds| - 1]) + PackDelta(ds[|ds| - 1])
  }

  function PackLiteral(bs: seq<byte>): seq<byte>
    requires |bs| < TWO64
  {
    (if |bs| < 16 then [Tag(LIT, |bs|)] else PackWide(LIT_W, |bs|)) + bs
  }

  /** The effect of running some of the input: the base it leaves, the bytes emitted, the input left. */
  datatype Effect = Effect(base: u64, out: seq<byte>, rest: seq<byte>)

  /** An operand of the width given in a nibble; any other width, or too little input, is an error. */
  function ReadWide(nibble: nat, input: seq<byte>): (r: Option<(u64, seq<byte>)>)
    ensures r.Some? ==> |r.value.1| <= |input|
  {
    Powers();
    if nibble in {1, 2, 4, 8} && nibble <= |input| then
      assert FromLE(input[..nibble]) < Pow256(nibble) <= TWO64;
      Some((FromLE(input[..nibble]), input[nibble..]))
    else None
  }

  function Stepped(base: u64, step: int, count: nat, rest: seq<byte>): Effect {
    var ns := Steps(base, step, count);
    Effect(Last(base, ns), ToLE64(ns), rest)
  }

  /** (high << 24) | (low & mask): the shift drops the top 24 bits of high. */
  function Merge(high: u64, low: u64): u64 {
    high % 0x100_0000_0000 * 0x100_0000 + low % 0x100_0000
  }

  function MergeAll(high: seq<u64>, low: seq<u64>, n: nat): (ns: seq<u64>)
    requires n <= |high| && n <= |low|
    ensures |ns| == n
  {
    seq(n, i requires 0 <= i < n => Merge(high[i], low[i]))
  }

  /** Copies bytes from the input: as many as the nibble says, or as the operand of its width says. */
  function Literal(base: u64, input: seq<byte>, short: bool, nibble: nat, count: nat): (r: Option<Effect>)
    ensures r.Some? ==> |r.value.rest| <= |input|
  {
    if count != 1 then None
    else if short then Copy(base, input, nibble)
    else
      match ReadWide(nibble, input)
      case None => None
      case Some((n, rest)) => Copy(base, rest, n)
  }

  function Copy(base: u64, input: seq<byte>, n: nat): (r: Option<Effect>)
    ensures r.Some? ==> |r.value.rest| <= |input|
  {
    if |input| < n then None else Some(Effect(base, input[..n], input[n..]))
  }

  /** One instruction, applied count times.  A bad tag, width or count, or the end of the input, gives None. */
  function Instr(base: u64, input: seq<byte>, count: nat): (r: Option<Effect>)
    ensures r.Some? ==> |r.value.rest| < |input|
    decreases |input|, 0
  {
    if input == [] then None
    else
      var tag: int, nibble: int, rest := input[0] / 16, input[0] % 16, input[1..];
      if tag == SET then
        match ReadWide(nibble, rest)
        case None => None
        case Some((n, rest)) => Some(Stepped(n, 0, count, rest))
      else if tag == POS then Some(Stepped(base, nibble, count, rest))
      else if tag == POS_W then
        match ReadWide(nibble, rest)
        case None => None
        case Some((delta, rest)) => Some(Stepped(base, delta, count, rest))
      else if tag == NEG then Some(Stepped(base, -(nibble as int), count, rest))
      else if tag == NEG_W then
        match ReadWide(nibble, rest)
        case None => None
        case Some((delta, rest)) => Some(Stepped(base, -(delta as int), count, rest))
      else if tag == CONST then
        if count != 1 then None else Some(Stepped(base, 0, nibble, rest))
      else if tag == CONST8 then
        if count != 1 || rest == [] then None else Some(Stepped(base, 0, nibble * 256 + rest[0], rest[1..]))
      else if tag == COUNT then Instr(base, rest, nibble)
      else if tag == COUNT8 then
        if rest == [] then None else Instr(base, rest[1..], nibble * 256 + rest[0])
      else if tag == LIT then Literal(base, rest, true, nibble, count)
      else if tag == LIT_W then Literal(base, rest, false, nibble, count)
      else if tag == SHIFTED_RUN then
        if rest == [] then None else RunShifted(base, rest[1..], nibble * 256 + rest[0])
      else None
  }

  /** Instructions that fail: those with no known tag, or no known width of their operand, and those with a count of
      their own if another is given. */
  lemma {:induction false} InstrRefuses(base: u64, input: seq<byte>, count: nat)
    requires input != []
    ensures input[0] >= 0xc0 ==> Instr(base, input, count) == None
    ensures input[0] / 16 in {0, 2, 4, 10} && input[0] % 16 !in {1, 2, 4, 8} ==> Instr(base, input, count) == None
    ensures input[0] / 16 in {5, 6, 9, 10} && count != 1 ==> Instr(base, input, count) == None
  {
  }

  /** Two nested runs of len values each, merged. */
  function RunShifted(base: u64, input: seq<byte>, len: nat): (r: Option<Effect>)
    ensures r.Some? ==> |r.value.rest| <= |input|
    decreases |input|, 2
  {
    match Exec(base, input, 8 * len)
    case None => None
    case Some(high) =>
      match Exec(high.base, high.rest, 8 * len)
      case None => None
      case Some(low) => Some(Effect(low.base, ToLE64(MergeAll(FromLE64(high.out), FromLE64(low.out), len)), low.rest))
  }

  function Join(first: Effect, more: Option<Effect>): Option<Effect> {
    match more
    case None => None
    case Some(e) => Some(Effect(e.base, first.out + e.out, e.rest))
  }

  /** Runs instructions until at least `want` bytes have been emitted. */
  function Exec(base: u64, input: seq<byte>, want: nat): (r: Option<Effect>)
    ensures r.Some? ==> |r.value.rest| <= |input| && |r.value.out| >= want
    decreases |input|, 1
  {
    if want == 0 then Some(Effect(base, [], input))
    else
      match Instr(base, input, 1)
      case None => None
      case Some(first) =>
        if |first.out| >= want then Some(first)
        else
          Join(first, Exec(first.base, first.rest, want - |first.out|))
  }

  /** Whatever comes before and after them, the packed bytes run to exactly these bytes and no further. */
  ghost predicate Encodes(packed: seq<byte>, out: seq<byte>) {
    forall base: u64, rest: seq<byte> :: RunsTo(base, packed + rest, out, rest)
  }

  ghost predicate RunsTo(base: u64, input: seq<byte>, out: seq<byte>, rest: seq<byte>) {
    Exec(base, input, |out|).Some? && Exec(base, input, |out|).value.(base := 0) == Effect(0, out, rest)
  }

  lemma {:induction false} ExecZero(base: u64, input: seq<byte>)
    ensures Exec(base, input, 0) == Some(Effect(base, [], input))
  {
  }

  lemma {:induction false} ExecOnce(base: u64, input: seq<byte>, want: nat)
    requires want > 0 && Instr(base, input, 1).Some?
    ensures var i := Instr(base, input, 1).value;
            Exec(base, input, want)
            == if |i.out| >= want then Some(i) else Join(i, Exec(i.base, i.rest, want - |i.out|))
  {
  }

  lemma {:induction false} JoinAssoc(a: Effect, b: Effect, r: Option<Effect>)
    ensures Join(a, Join(b, r)) == Join(Join(a, Some(b)).value, r)
  {
    if r.Some? {
      assert a.out + (b.out + r.value.out) == a.out + b.out + r.value.out;
    }
  }

  lemma {:induction false} JoinNothing(a: Effect, r: Option<Effect>)
    ensures a.out == [] ==> Join(a, r) == r
    ensures Join(a, Some(Effect(a.base, [], a.rest))) == Some(a)
  {
    if r.Some? && a.out == [] {
      assert a.out + r.value.out == r.value.out;
    }
    assert a.out + [] == a.out;
  }

  /** Running for a + b bytes is running for b bytes after a run that emitted exactly a. */
  lemma {:induction false} ExecSplit(base: u64, input: seq<byte>, a: nat, b: nat)
    requires Exec(base, input, a).Some? && |Exec(base, input, a).value.out| == a
    ensures var first := Exec(base, input, a).value;
            Exec(base, input, a + b) == Join(first, Exec(first.base, first.rest, b))
    decreases |input|
  {
    hide Instr, Join, Exec;
    var first := Exec(base, input, a).value;
    if a == 0 {
      ExecZero(base, input);
      JoinNothing(first, Exec(base, input, b));
    } else {
      var i := FirstInstr(base, input, a);
      ExecOnce(base, input, a);
      ExecOnce(base, input, a + b);
      if |i.out| < a {
        var mid := Exec(i.base, i.rest, a - |i.out|);
        JoinLength(i, mid);
        ExecSplit(i.base, i.rest, a - |i.out|, b);
        JoinAssoc(i, mid.value, Exec(mid.value.base, mid.value.rest, b));
      } else if b == 0 {
        ExecZero(first.base, first.rest);
        JoinNothing(first, None);
      }
    }
  }

  lemma {:induction false} FirstInstr(base: u64, input: seq<byte>, want: nat) returns (i: Effect)
    requires want > 0 && Exec(base, input, want).Some?
    ensures Instr(base, input, 1) == Some(i) && |i.rest| < |input|
  {
    i := Instr(base, input, 1).value;
  }

  lemma {:induction false} JoinLength(a: Effect, r: Option<Effect>)
    requires Join(a, r).Some?
    ensures r.Some? && |Join(a, r).value.out| == |a.out| + |r.value.out|
    ensures Join(a, r).value.base == r.value.base && Join(a, r).value.rest == r.value.rest
  {
  }

  lemma {:induction false} ReadWideBack(n: u64, rest: seq<byte>)
    ensures ReadWide(Width(n), ToLE(n, Width(n)) + rest) == Some((n, rest))
  {
    var w := Width(n);
    FromToLE(n, w);
    assert (ToLE(n, w) + rest)[..w] == ToLE(n, w) && (ToLE(n, w) + rest)[w..] == rest;
  }

  lemma {:induction false} WideParts(tag: nat, n: u64, rest: seq<byte>)
    requires tag < 16
    ensures var input := PackWide(tag, n) + rest;
            input != [] && input[0] / 16 == tag && input[0] % 16 == Width(n) && ReadWide(Width(n), input[1..]) == Some((n, rest))
  {
    ReadWideBack(n, rest);
    assert (PackWide(tag, n) + rest)[1..] == ToLE(n, Width(n)) + rest;
  }

  lemma TwelveSize(tag: nat, n: nat)
    requires tag < 16 && n < 4096
    ensures |Pack12(tag, n)| <= 2
  {
  }

  lemma TwelveParts(tag: nat, n: nat, rest: seq<byte>)
    requires tag < 16 && n < 4096
    ensures var input := Pack12(tag, n) + rest;
            && input != [] && input[0] / 16 == tag && input[1..] != [] && input[1..][1..] == rest
            && (input[0] % 16) as int * 256 + input[1..][0] == n
  {
    assert (Pack12(tag, n) + rest)[1..] == [n % 256] + rest;
  }

  lemma NibbleParts(tag: nat, n: nat, rest: seq<byte>)
    requires tag < 16 && n < 16
    ensures var input := [Tag(tag, n)] + rest;
            input != [] && input[0] / 16 == tag && input[0] % 16 == n && input[1..] == rest
  {
  }

  lemma {:induction false} CountInstr(base: u64, count: nat, rest: seq<byte>)
    requires 1 <= count < 4096
    ensures Instr(base, PackCount(count) + rest, 1) == Instr(base, rest, count)
  {
    if count == 1 {
      assert PackCount(1) + rest == rest;
    } else if count < 16 {
      NibbleParts(COUNT, count, rest);
    } else {
      TwelveParts(COUNT8, count, rest);
    }
  }

  lemma {:induction false} StepInstr(base: u64, neg: bool, delta: u64, count: nat, rest: seq<byte>)
    ensures Instr(base, (if neg then PackStep(NEG, NEG_W, delta) else PackStep(POS, POS_W, delta)) + rest, count)
            == Some(Stepped(base, if neg then -(delta as int) else delta, count, rest))
  {
    if delta < 16 {
      NibbleParts(if neg then NEG else POS, delta, rest);
    } else {
      WideParts(if neg then NEG_W else POS_W, delta, rest);
    }
  }

  lemma {:induction false} OneStep(n: u64)
    ensures Steps(n, 0, 1) == [n]
  {
    assert Steps(n, 0, 1) == [(n + 0) % TWO64] + Steps((n + 0) % TWO64, 0, 0);
  }

  /** Running a packed delta emits what the delta stands for, and stops. */
  lemma {:induction false} DeltaInstr(base: u64, d: Delta, rest: seq<byte>)
    requires Countable(d, 4095)
    ensures Instr(base, PackDelta(d) + rest, 1) == Some(Effect(Last(base, Run(base, d)), ToLE64(Run(base, d)), rest))
  {
    hide Instr, Steps, ToLE64, PackCount, PackStep;
    match d
    case Base(n) =>
      BaseInstr(base, n, rest);
    case Pos(delta, count) =>
      assert PackDelta(d) + rest == PackCount(count) + (PackStep(POS, POS_W, delta) + rest);
      CountInstr(base, count, PackStep(POS, POS_W, delta) + rest);
      StepInstr(base, false, delta, count, rest);
    case Neg(delta, count) =>
      assert PackDelta(d) + rest == PackCount(count) + (PackStep(NEG, NEG_W, delta) + rest);
      CountInstr(base, count, PackStep(NEG, NEG_W, delta) + rest);
      StepInstr(base, true, delta, count, rest);
    case Const(count) =>
      ConstInstr(base, count, rest);
  }

  lemma {:induction false} BaseInstr(base: u64, n: u64, rest: seq<byte>)
    ensures Instr(base, PackWide(SET, n) + rest, 1) == Some(Effect(n, ToLE64([n]), rest))
  {
    WideParts(SET, n, rest);
    OneStep(n);
  }

  lemma {:induction false} ConstInstr(base: u64, count: nat, rest: seq<byte>)
    requires 1 <= count < 4096
    ensures Instr(base, PackDelta(Const(count)) + rest, 1) == Some(Stepped(base, 0, count, rest))
  {
    if count < 16 {
      NibbleParts(CONST, count, rest);
    } else {
      TwelveParts(CONST8, count, rest);
    }
  }

  lemma RunNonEmpty(base: u64, d: Delta)
    requires Countable(d, 4095)
    ensures |Run(base, d)| > 0
  {
  }

  /** Running packed deltas emits what they stand for and consumes exactly the packed bytes. */
  lemma {:induction false} DeltasExec(base: u64, ds: seq<Delta>, rest: seq<byte>)
    requires forall d :: d in ds ==> Countable(d, 4095)
    ensures var ns := FromDelta(base, ds);
            Exec(base, PackDeltas(ds) + rest, 8 * |ns|) == Some(Effect(Last(base, ns), ToLE64(ns), rest))
  {
    hide Instr, Exec, Run, PackDelta;
    if ds == [] {
      ExecZero(base, rest);
      assert PackDeltas(ds) + rest == rest;
    } else {
      var k := |ds| - 1;
      var d := ds[k];
      var before := FromDelta(base, ds[..k]);
      var mid := Last(base, before);
      var run := Run(mid, d);
      assert ds == ds[..k] + [d];
      FromDeltaPush(base, ds[..k], d);
      assert PackDeltas(ds) + rest == PackDeltas(ds[..k]) + (PackDelta(d) + rest);
      DeltasExec(base, ds[..k], PackDelta(d) + rest);
      DeltaInstr(mid, d, rest);
      RunNonEmpty(mid, d);
      ExecOnce(mid, PackDelta(d) + rest, 8 * |run|);
      ExecSplit(base, PackDeltas(ds) + rest, 8 * |before|, 8 * |run|);
      ToLE64Concat(before, run);
    }
  }

  /** A single instruction that emits exactly these bytes. */
  ghost predicate InstrEncodes(packed: seq<byte>, out: seq<byte>) {
    forall base: u64, rest: seq<byte> :: InstrRunsTo(base, packed + rest, out, rest)
  }

  ghost predicate InstrRunsTo(base: u64, input: seq<byte>, out: seq<byte>, rest: seq<byte>) {
    Instr(base, input, 1).Some? && Instr(base, input, 1).value.out == out && Instr(base, input, 1).value.rest == rest
  }

  lemma {:induction false} InstrIsEnough(packed: seq<byte>, out: seq<byte>)
    requires InstrEncodes(packed, out) && out != []
    ensures Encodes(packed, out)
  {
    forall base: u64, rest: seq<byte> ensures RunsTo(base, packed + rest, out, rest) {
      assert InstrRunsTo(base, packed + rest, out, rest);
      ExecOnce(base, packed + rest, |out|);
    }
  }

  /** Packed pieces one after the other run to the pieces they pack, one after the other. */
  lemma {:induction false} EncodesConcat(p: seq<byte>, a: seq<byte>, q: seq<byte>, b: seq<byte>)
    requires Encodes(p, a) && Encodes(q, b)
    ensures Encodes(p + q, a + b)
  {
    hide Exec;
    forall base: u64, rest: seq<byte> ensures RunsTo(base, p + q + rest, a + b, rest) {
      assert p + q + rest == p + (q + rest);
      assert RunsTo(base, p + (q + rest), a, q + rest);
      var first := Exec(base, p + (q + rest), |a|).value;
      assert RunsTo(first.base, q + rest, b, rest);
      ExecSplit(base, p + (q + rest), |a|, |b|);
    }
  }

  /** An instruction that emits nothing is run on the way to one that emits something. */
  lemma {:induction false} EncodesAfter(p: seq<byte>, q: seq<byte>, b: seq<byte>)
    requires InstrEncodes(p, []) && Encodes(q, b) && b != []
    ensures Encodes(p + q, b)
  {
    hide Exec, Instr;
    forall base: u64, rest: seq<byte> ensures RunsTo(base, p + q + rest, b, rest) {
      assert p + q + rest == p + (q + rest);
      assert InstrRunsTo(base, p + (q + rest), [], q + rest);
      var i := Instr(base, p + (q + rest), 1).value;
      assert RunsTo(i.base, q + rest, b, rest);
      ExecOnce(base, p + (q + rest), |b|);
      JoinNothing(i, Exec(i.base, q + rest, |b|));
    }
  }

  lemma {:induction false} LiteralInstr(bs: seq<byte>)
    requires |bs| < TWO64
    ensures InstrEncodes(PackLiteral(bs), bs)
  {
    forall base: u64, rest: seq<byte> ensures InstrRunsTo(base, PackLiteral(bs) + rest, bs, rest) {
      assert (bs + rest)[..|bs|] == bs && (bs + rest)[|bs|..] == rest;
      if |bs| < 16 {
        assert PackLiteral(bs) + rest == [Tag(LIT, |bs|)] + (bs + rest);
        NibbleParts(LIT, |bs|, bs + rest);
      } else {
        assert PackLiteral(bs) + rest == PackWide(LIT_W, |bs|) + (bs + rest);
        WideParts(LIT_W, |bs|, bs + rest);
      }
    }
  }

  lemma {:induction false} DeltasEncode(ds: seq<Delta>, ns: seq<u64>)
    requires FromDelta(0, ds) == ns && (forall d :: d in ds ==> Countable(d, 4095))
    requires ds == [] || ds[0].Base?
    ensures Encodes(PackDeltas(ds), ToLE64(ns))
  {
    forall base: u64, rest: seq<byte> ensures RunsTo(base, PackDeltas(ds) + rest, ToLE64(ns), rest) {
      assert FromDelta(base, ds) == ns;
      DeltasExec(base, ds, rest);
    }
  }

  function High(ns: seq<u64>): (r: seq<u64>)
    ensures |r| == |ns|
  {
    seq(|ns|, i requires 0 <= i < |ns| => ns[i] / 0x100_0000)
  }

  function Low(ns: seq<u64>): (r: seq<u64>)
    ensures |r| == |ns|
  {
    seq(|ns|, i requires 0 <= i < |ns| => ns[i] % 0x100_0000)
  }

  lemma {:induction false} MergeBack(ns: seq<u64>)
    ensures MergeAll(High(ns), Low(ns), |ns|) == ns
  {
    forall i | 0 <= i < |ns| ensures MergeAll(High(ns), Low(ns), |ns|)[i] == ns[i] {
    }
  }

  lemma {:induction false} ShiftedEffect(base: u64, ns: seq<u64>, high: seq<byte>, low: seq<byte>, rest: seq<byte>)
    requires Encodes(high, ToLE64(High(ns))) && Encodes(low, ToLE64(Low(ns)))
    ensures var r := RunShifted(base, high + (low + rest), |ns|); r.Some? && r.value.out == ToLE64(ns) && r.value.rest == rest
  {
    hide Exec, Instr, ToLE64, FromLE64, MergeAll, High, Low;
    assert RunsTo(base, high + (low + rest), ToLE64(High(ns)), low + rest);
    var first := Exec(base, high + (low + rest), 8 * |ns|).value;
    assert RunsTo(first.base, low + rest, ToLE64(Low(ns)), rest);
    FromToLE64(High(ns));
    FromToLE64(Low(ns));
    MergeBack(ns);
  }

  /** A nested run restores the values from their high and low parts. */
  lemma {:induction false} ShiftedInstr(ns: seq<u64>, high: seq<byte>, low: seq<byte>)
    requires |ns| < 4096 && Encodes(high, ToLE64(High(ns))) && Encodes(low, ToLE64(Low(ns)))
    ensures InstrEncodes(Pack12(SHIFTED_RUN, |ns|) + high + low, ToLE64(ns))
  {
    hide Exec, Instr, RunShifted, Encodes, ToLE64, Pack12, High, Low;
    var packed := Pack12(SHIFTED_RUN, |ns|) + high + low;
    forall base: u64, rest: seq<byte> ensures InstrRunsTo(base, packed + rest, ToLE64(ns), rest) {
      Regroup(Pack12(SHIFTED_RUN, |ns|), high, low, rest);
      ShiftedDispatch(base, |ns|, high + (low + rest));
      ShiftedEffect(base, ns, high, low, rest);
    }
  }

  lemma Regroup(a: seq<byte>, b: seq<byte>, c: seq<byte>, d: seq<byte>)
    ensures a + b + c + d == a + (b + (c + d))
  {
  }

  lemma {:induction false} ShiftedDispatch(base: u64, len: nat, tail: seq<byte>)
    requires len < 4096
    ensures Instr(base, Pack12(SHIFTED_RUN, len) + tail, 1) == RunShifted(base, tail, len)
  {
    hide RunShifted;
    TwelveParts(SHIFTED_RUN, len, tail);
  }

  lemma LE64Nothing()
    ensures ToLE64([]) == []
  {
  }

  lemma {:induction false} LE64One(n: u64)
    ensures ToLE64([n]) == ToLE(n, 8)
  {
    assert ToLE64([n]) == ToLE(n, 8) + ToLE64([n][1..]);
  }

  lemma StepsFirst(base: u64, step: int, count: nat)
    requires count > 0
    ensures var next := (base + step) % TWO64; Steps(base, step, count) == [next] + Steps(next, step, count - 1)
  {
  }

  // ---- the writer, the reader and the machine itself

  class Writer {
    var out: seq<byte>

    constructor ()
      ensures out == []
    {
      out := [];
    }

    method Write(bs: seq<byte>)
      modifies this
      ensures out == old(out) + bs
    {
      out := out + bs;
    }
  }

  class Reader {
    const data: seq<byte>
    var pos: nat

    ghost predicate Valid()
      reads this
    {
      pos <= |data|
    }

    ghost function Rest(): seq<byte>
      reads this
      requires Valid()
    {
      data[pos..]
    }

    constructor (data: seq<byte>)
      ensures this.data == data && Valid() && Rest() == data
    {
      this.data, pos := data, 0;
    }

    /** `read_exact`: the next n bytes, or None at the end of the input. */
    method Read(n: nat) returns (r: Option<seq<byte>>)
      requires Valid()
      modifies this
      ensures Valid() && (r.Some? <==> n <= |old(Rest())|)
      ensures if r.Some? then r.value == old(Rest())[..n] && Rest() == old(Rest())[n..] else Rest() == old(Rest())
    {
      if n > |data| - pos {
        return None;
      }
      r := Some(data[pos..pos + n]);
      pos := pos + n;
    }
  }

  /** The deltas of the longest runs, one after the other. */
  ghost predicate PacksRuns(packed: seq<byte>, ns: seq<u64>) {
    exists ds: seq<Delta> :: DeltasOf(ds, ns) && (forall d :: d in ds ==> Countable(d, 4095)) && packed == PackDeltas(ds)
  }

  /** Packs a run of u64s as deltas.  `packed` names what was written. */
  method PackU64s(w: Writer, ns: seq<u64>) returns (ghost packed: seq<byte>)
    requires |ns| <= 4096
    modifies w
    ensures w.out == old(w.out) + packed && Encodes(packed, ToLE64(ns))
    ensures |packed| <= 11 * |ns| && PacksRuns(packed, ns)
  {
    hide FromDelta, PackDelta, Encodes, Longest, Directed;
    var ds := ToDelta(ns);
    packed := [];
    for i := 0 to |ds|
      invariant forall d :: d in ds ==> Countable(d, 4095)
      invariant packed == PackDeltas(ds[..i]) && w.out == old(w.out) + packed && |packed| <= 11 * i
    {
      PackedSize(ds[i]);
      w.Write(PackDelta(ds[i]));
      packed := packed + PackDelta(ds[i]);
      assert ds[..i + 1][..i] == ds[..i];
    }
    assert ds[..|ds|] == ds;
    EmptyDeltas(ns, ds);
    DeltasEncode(ds, ns);
  }

  lemma {:induction false} PackedSize(d: Delta)
    requires Countable(d, 4095)
    ensures |PackDelta(d)| <= 11
  {
  }

  lemma {:induction false} EmptyDeltas(ns: seq<u64>, ds: seq<Delta>)
    requires FromDelta(0, ds) == ns && (ns != [] ==> ds != [] && ds[0] == Base(ns[0]))
    requires forall d :: d in ds ==> Countable(d, |ns| - 1)
    ensures ds == [] || ds[0].Base?
  {
    if ns == [] && ds != [] {
      assert ds[0] in ds;
    }
  }

  /** Values a fixed step apart pack into twenty bytes, however many they are. */
  lemma {:induction false} EvenlySpacedPacks(packed: seq<byte>, ns: seq<u64>, step: u64)
    requires PacksRuns(packed, ns) && |ns| >= 2
    requires forall i :: 0 <= i < |ns| - 1 ==> Difference(ns[i], ns[i + 1]) == step
    ensures |packed| <= 20
  {
    hide DeltasOf, PackDelta;
    var ds: seq<Delta> :| DeltasOf(ds, ns) && (forall d :: d in ds ==> Countable(d, 4095)) && packed == PackDeltas(ds);
    EvenlySpaced(ds, ns, step);
    PackTwo(ds);
    PackedSize(ds[1]);
    WideSize(ds[0].n);
  }

  lemma {:induction false} PackTwo(ds: seq<Delta>)
    requires |ds| == 2 && forall d :: d in ds ==> Countable(d, 4095)
    ensures PackDeltas(ds) == PackDelta(ds[0]) + PackDelta(ds[1])
  {
    hide PackDelta;
    var one := ds[..1];
    assert one == [ds[0]] && one[..0] == [] && PackDeltas([]) == [];
    assert PackDeltas(one) == PackDeltas(one[..0]) + PackDelta(one[0]) == PackDelta(ds[0]);
  }

  lemma {:induction false} WideSize(n: u64)
    ensures |PackDelta(Base(n))| <= 9
  {
  }

  lemma {:induction false} LowBytes(n: nat)
    ensures ToLE(n, 1) == [n % 256] && ToLE(n, 2) == [n % 256, n / 256 % 256]
  {
    assert ToLE(n, 1) == [n % 256] + ToLE(n / 256, 0);
    assert ToLE(n, 2) == [n % 256] + ToLE(n / 256, 1);
    assert ToLE(n / 256, 1) == [n / 256 % 256] + ToLE(n / 256 / 256, 0);
  }

  /** A wide operand: how wide it is beside the tag, then its bytes, lowest first. */
  lemma {:induction false} WideBytes(tag: nat, n: u64)
    requires tag < 16
    ensures n < 256 ==> PackWide(tag, n) == [tag * 16 + 1, n]
    ensures 256 <= n < 0x1_0000 ==> PackWide(tag, n) == [tag * 16 + 2, n % 256, n / 256]
  {
    hide ToLE, Pow256;
    LowBytes(n);
  }

  lemma {:induction false} BaseBytes(n: u64)
    ensures n < 256 ==> PackDelta(Base(n)) == [0x01, n]
    ensures 256 <= n < 0x1_0000 ==> PackDelta(Base(n)) == [0x02, n % 256, n / 256]
  {
    hide PackWide;
    WideBytes(SET, n);
  }

  /** The bytes of a run of one: a small step beside the tag, a larger one after it. */
  lemma {:induction false} RunBytes(n: u64)
    ensures n < 16 ==> PackDelta(Pos(n, 1)) == [0x10 + n] && PackDelta(Neg(n, 1)) == [0x30 + n]
    ensures 16 <= n < 256 ==> PackDelta(Pos(n, 1)) == [0x21, n] && PackDelta(Neg(n, 1)) == [0x41, n]
    ensures 256 <= n < 0x1_0000 ==> PackDelta(Pos(n, 1)) == [0x22, n % 256, n / 256]
    ensures 256 <= n < 0x1_0000 ==> PackDelta(Neg(n, 1)) == [0x42, n % 256, n / 256]
  {
    hide PackWide;
    WideBytes(POS_W, n);
    WideBytes(NEG_W, n);
  }

  /** The bytes of a longer run: the count goes first. */
  lemma CountBytes(n: u64, count: nat)
    requires n < 16 && 1 < count < 4096
    ensures count < 16 ==> PackDelta(Pos(n, count)) == [0x70 + count, 0x10 + n] && PackDelta(Neg(n, count)) == [0x70 + count, 0x30 + n]
    ensures count >= 16 ==> PackDelta(Pos(n, count)) == [0x80 + count / 256, count % 256, 0x10 + n]
    ensures count >= 16 ==> PackDelta(Neg(n, count)) == [0x80 + count / 256, count % 256, 0x30 + n]
    ensures PackDelta(Const(count)) == if count < 16 then [0x50 + count] else [0x60 + count / 256, count % 256]
  {
  }

  /** The bytes before those of a literal. */
  lemma LiteralBytes(bs: seq<byte>)
    requires |bs| < 0x1_0000
    ensures |bs| < 16 ==> PackLiteral(bs) == [0x90 + |bs|] + bs
    ensures 16 <= |bs| < 256 ==> PackLiteral(bs) == [0xa1, |bs|] + bs
    ensures 256 <= |bs| ==> PackLiteral(bs) == [0xa2, |bs| % 256, |bs| / 256] + bs
  {
    hide PackWide;
    WideBytes(LIT_W, |bs|);
  }

  /** Four keys in a row take four bytes. */
  lemma {:induction false} KeysInARow(packed: seq<byte>)
    requires PacksRuns(packed, [1, 2, 3, 4])
    ensures packed == [0x01, 0x01, 0x73, 0x11]
  {
    hide DeltasOf, PackDelta;
    var ds: seq<Delta> :| DeltasOf(ds, [1, 2, 3, 4]) && (forall d :: d in ds ==> Countable(d, 4095)) && packed == PackDeltas(ds);
    DeltaCases(ds, [1, 2, 3, 4]);
    PackTwo(ds);
    BaseBytes(ds[0].n);
    CountBytes(ds[1].delta, 3);
  }

  /** `unshift_nrs` for 24 bits. */
  method UnshiftNrs(ns: seq<u64>) returns (high: seq<u64>, low: seq<u64>)
    ensures high == High(ns) && low == Low(ns)
  {
    high, low := [], [];
    for i := 0 to |ns|
      invariant |high| == |low| == i
      invariant forall k :: 0 <= k < i ==> high[k] == ns[k] / 0x100_0000 && low[k] == ns[k] % 0x100_0000
    {
      high, low := high + [ns[i] / 0x100_0000], low + [ns[i] % 0x100_0000];
    }
  }

  /** How many there are, then the runs of the values without their lowest 24 bits, then those of these bits. */
  ghost predicate PacksShifted(packed: seq<byte>, ns: seq<u64>) {
    |ns| < 4096
    && exists high: seq<u64>, low: seq<u64>, h: seq<byte>, l: seq<byte> ::
         && |high| == |low| == |ns| && (forall i :: 0 <= i < |ns| ==> ns[i] as int == high[i] as int * 0x100_0000 + low[i] as int)
         && (forall i :: 0 <= i < |ns| ==> low[i] < 0x100_0000)
         && PacksRuns(h, high) && PacksRuns(l, low) && packed == [0xb0 + |ns| / 256, |ns| % 256] + h + l
  }

  /** Packs a run of u64s whose high and low parts follow different patterns. */
  method PackShiftedU64s(w: Writer, ns: seq<u64>) returns (ghost packed: seq<byte>)
    requires |ns| < 4096
    modifies w
    ensures w.out == old(w.out) + packed && InstrEncodes(packed, ToLE64(ns)) && |packed| <= 2 + 22 * |ns|
    ensures PacksShifted(packed, ns)
  {
    hide Encodes, InstrEncodes, Pack12, PacksRuns, PacksShifted;
    TwelveSize(SHIFTED_RUN, |ns|);
    ghost var before, head := w.out, Pack12(SHIFTED_RUN, |ns|);
    w.Write(Pack12(SHIFTED_RUN, |ns|));
    var high, low := UnshiftNrs(ns);
    ghost var h := PackU64s(w, high);
    ghost var l := PackU64s(w, low);
    ShiftedInstr(ns, h, l);
    packed := head + h + l;
    Regrouped(before, head, h, l);
    ShiftedForm(ns, head, h, l);
  }

  lemma {:induction false} ShiftedForm(ns: seq<u64>, head: seq<byte>, h: seq<byte>, l: seq<byte>)
    requires |ns| < 4096 && head == Pack12(SHIFTED_RUN, |ns|) && PacksRuns(h, High(ns)) && PacksRuns(l, Low(ns))
    ensures PacksShifted(head + h + l, ns)
  {
    hide PacksRuns;
    assert head == [0xb0 + |ns| / 256, |ns| % 256];
    assert forall i :: 0 <= i < |ns| ==> ns[i] as int == High(ns)[i] as int * 0x100_0000 + Low(ns)[i] as int && Low(ns)[i] < 0x100_0000;
  }

  lemma Regrouped(a: seq<byte>, b: seq<byte>, c: seq<byte>, d: seq<byte>)
    ensures a + b + c + d == a + (b + c + d) && |b + c + d| == |b| + |c| + |d|
  {
  }

  method WriteLiteral(w: Writer, bs: seq<byte>) returns (ghost packed: seq<byte>)
    requires |bs| < TWO64
    modifies w
    ensures w.out == old(w.out) + packed && packed == PackLiteral(bs) && InstrEncodes(packed, bs)
    ensures |packed| <= 9 + |bs|
  {
    hide PackWide, InstrEncodes;
    LiteralInstr(bs);
    var head := if |bs| < 16 then [Tag(LIT, |bs|)] else PackWide(LIT_W, |bs|);
    WideLength(LIT_W, |bs|);
    packed := head + bs;
    w.Write(head);
    w.Write(bs);
  }

  lemma WideLength(tag: nat, n: u64)
    requires tag < 16
    ensures |PackWide(tag, n)| <= 9
  {
  }

  /** The machine.  Every method either has the effect that the specification gives or, where the source
      would return an error or panic on malformed input, reports failure. */
  class VM {
    var base: u64
    var bytesWritten: nat

    constructor ()
      ensures base == 0 && bytesWritten == 0
    {
      base, bytesWritten := 0, 0;
    }

    method EmitBytes(w: Writer, bs: seq<byte>)
      modifies `bytesWritten, w
      ensures w.out == old(w.out) + bs && bytesWritten == old(bytesWritten) + |bs|
    {
      w.Write(bs);
      bytesWritten := bytesWritten + |bs|;
    }

    /** Emits count values, moving the base by step before each. */
    method EmitSteps(w: Writer, step: int, count: nat)
      modifies `base, `bytesWritten, w
      ensures var ns := Steps(old(base), step, count);
              && base == Last(old(base), ns) && w.out == old(w.out) + ToLE64(ns)
              && bytesWritten == old(bytesWritten) + 8 * count
    {
      hide Steps, ToLE64;
      ghost var all, done: seq<u64> := Steps(base, step, count), [];
      LE64Nothing();
      assert [] + all == all;
      for i := 0 to count
        invariant |done| == i && done + Steps(base, step, count - i) == all && base == Last(old(base), done)
        invariant w.out == old(w.out) + ToLE64(done) && bytesWritten == old(bytesWritten) + 8 * i
      {
        StepsFirst(base, step, count - i);
        ghost var more := Steps((base + step) % TWO64, step, count - i - 1);
        base := (base + step) % TWO64;
        assert done + ([base] + more) == done + [base] + more;
        ToLE64Concat(done, [base]);
        LE64One(base);
        EmitBytes(w, ToLE(base, 8));
        done := done + [base];
      }
      assert |Steps(base, step, 0)| == 0;
      assert done + Steps(base, step, 0) == done;
    }

    method UnpackWithWidth(r: Reader, nibble: nat) returns (n: Option<u64>)
      requires r.Valid()
      modifies r
      ensures r.Valid() && n.Some? == ReadWide(nibble, old(r.Rest())).Some?
      ensures n.Some? ==> ReadWide(nibble, old(r.Rest())) == Some((n.value, r.Rest()))
      ensures |r.Rest()| <= old(|r.Rest()|)
    {
      if nibble != 1 && nibble != 2 && nibble != 4 && nibble != 8 {
        return None;
      }
      var bs := r.Read(nibble);
      if bs.None? {
        return None;
      }
      Powers();
      assert FromLE(bs.value) < Pow256(nibble);
      n := Some(FromLE(bs.value));
    }

    /** What a run of the machine must do: `e` from the old state and input to the new. */
    twostate predicate Did(e: Option<Effect>, r: Reader, w: Writer, ok: bool)
      reads this, r, w
      requires old(r.Valid()) && r.Valid()
    {
      && ok == e.Some?
      && (ok ==> base == e.value.base && w.out == old(w.out) + e.value.out && r.Rest() == e.value.rest
                 && bytesWritten == old(bytesWritten) + |e.value.out|)
    }

    /** One instruction, applied count times. */
    method UnpackInstr(r: Reader, w: Writer, count: nat) returns (ok: bool)
      requires r.Valid()
      modifies this, r, w
      ensures r.Valid() && |r.Rest()| <= old(|r.Rest()|) && (ok ==> |r.Rest()| < old(|r.Rest()|))
      ensures Did(Instr(old(base), old(r.Rest()), count), r, w, ok)
      decreases |r.Rest()|, 0
    {
      hide Exec, RunShifted, Literal, Steps, ToLE64, FromLE, FromLE64;
      var b := r.Read(1);
      if b.None? {
        return false;
      }
      var tag: int, nibble: int := b.value[0] / 16, b.value[0] % 16;
      if tag == SET || tag == POS_W || tag == NEG_W {
        var n := UnpackWithWidth(r, nibble);
        if n.None? {
          return false;
        }
        if tag == SET {
          base := n.value;
        }
        EmitSteps(w, if tag == SET then 0 else if tag == POS_W then n.value else -(n.value as int), count);
        return true;
      } else if tag == POS || tag == NEG {
        EmitSteps(w, if tag == POS then nibble else -nibble, count);
        return true;
      } else if tag == CONST {
        if count == 1 {
          EmitSteps(w, 0, nibble);
        }
        return count == 1;
      } else if tag == COUNT {
        ok := UnpackInstr(r, w, nibble);
      } else if tag == LIT || tag == LIT_W {
        ok := UnpackLiteral(r, w, tag == LIT, nibble, count);
      } else if tag == CONST8 || tag == COUNT8 || tag == SHIFTED_RUN {
        if tag == CONST8 && count != 1 {
          return false;
        }
        var low := r.Read(1);
        if low.None? {
          return false;
        }
        var n := nibble * 256 + low.value[0] as int;
        if tag == CONST8 {
          EmitSteps(w, 0, n);
          return true;
        } else if tag == COUNT8 {
          ok := UnpackInstr(r, w, n);
        } else {
          ok := UnpackShifted(r, w, n);
        }
      } else {
        return false;
      }
    }

    method UnpackLiteral(r: Reader, w: Writer, short: bool, nibble: nat, count: nat) returns (ok: bool)
      requires r.Valid()
      modifies this`bytesWritten, r, w
      ensures r.Valid() && |r.Rest()| <= old(|r.Rest()|)
      ensures Did(Literal(old(base), old(r.Rest()), short, nibble, count), r, w, ok)
    {
      if count != 1 {
        return false;
      }
      var len: nat := nibble;
      if !short {
        var n := UnpackWithWidth(r, nibble);
        if n.None? {
          return false;
        }
        len := n.value;
      }
      var bs := r.Read(len);
      if bs.None? {
        return false;
      }
      EmitBytes(w, bs.value);
      ok := true;
    }

    /** Runs the two nested runs into buffers, taking back what they added to the count of bytes written. */
    method UnpackShifted(r: Reader, w: Writer, len: nat) returns (ok: bool)
      requires r.Valid()
      modifies this, r, w
      ensures r.Valid() && |r.Rest()| <= old(|r.Rest()|)
      ensures Did(RunShifted(old(base), old(r.Rest()), len), r, w, ok)
      decreases |r.Rest()|, 2
    {
      hide Exec, ToLE64, FromLE64, MergeAll;
      var highBytes := new Writer();
      var written := Execute(r, highBytes, 8 * len);
      if written.None? {
        return false;
      }
      assert highBytes.out == Exec(old(base), old(r.Rest()), 8 * len).value.out;
      bytesWritten := bytesWritten - written.value;
      ghost var b, rest := base, r.Rest();
      var high := FromLE64(highBytes.out);
      var lowBytes := new Writer();
      written := Execute(r, lowBytes, 8 * len);
      if written.None? {
        return false;
      }
      assert lowBytes.out == Exec(b, rest, 8 * len).value.out;
      bytesWritten := bytesWritten - written.value;
      var low := FromLE64(lowBytes.out);
      EmitMerged(w, high, low, len);
      ok := true;
    }

    method EmitMerged(w: Writer, high: seq<u64>, low: seq<u64>, len: nat)
      requires len <= |high| && len <= |low|
      modifies `bytesWritten, w
      ensures w.out == old(w.out) + ToLE64(MergeAll(high, low, len)) && bytesWritten == old(bytesWritten) + 8 * len
    {
      for i := 0 to len
        invariant w.out == old(w.out) + ToLE64(MergeAll(high, low, i)) && bytesWritten == old(bytesWritten) + 8 * i
      {
        var n := Merge(high[i], low[i]);
        assert MergeAll(high, low, i + 1) == MergeAll(high, low, i) + [n];
        ToLE64Concat(MergeAll(high, low, i), [n]);
        LE64One(n);
        EmitBytes(w, ToLE(n, 8));
      }
    }

    /** Runs until at least emitBytes bytes have been emitted; returns how many were. */
    method Execute(r: Reader, w: Writer, emitBytes: nat) returns (written: Option<nat>)
      requires r.Valid()
      modifies this, r, w
      ensures r.Valid() && |r.Rest()| <= old(|r.Rest()|)
      ensures Did(Exec(old(base), old(r.Rest()), emitBytes), r, w, written.Some?)
      ensures written.Some? ==> bytesWritten == old(bytesWritten) + written.value
      decreases |r.Rest()|, 1
    {
      hide Instr, Join, Exec;
      var begin := bytesWritten;
      ghost var input, base0, out0 := r.Rest(), base, w.out;
      ghost var sofar: seq<byte> := [];
      NothingYet(Exec(base0, input, emitBytes), base, input);
      ExecZero(base0, input);
      while bytesWritten - begin < emitBytes
        invariant r.Valid() && bytesWritten == begin + |sofar| && w.out == out0 + sofar && |r.Rest()| <= |input|
        invariant |sofar| < emitBytes ==>
                    Exec(base0, input, emitBytes)
                    == Join(Effect(base, sofar, r.Rest()), Exec(base, r.Rest(), emitBytes - |sofar|))
        invariant |sofar| >= emitBytes ==> Exec(base0, input, emitBytes) == Some(Effect(base, sofar, r.Rest()))
        decreases |r.Rest()|
      {
        ghost var acc := Effect(base, sofar, r.Rest());
        RoundDone(acc, emitBytes - |sofar|);
        var ok := UnpackInstr(r, w, 1);
        if !ok {
          return None;
        }
        sofar := sofar + Instr(acc.base, acc.rest, 1).value.out;
      }
      return Some(bytesWritten - begin);
    }
  }

  lemma {:induction false} NothingYet(r: Option<Effect>, base: u64, rest: seq<byte>)
    ensures r == Join(Effect(base, [], rest), r)
  {
    JoinNothing(Effect(base, [], rest), r);
  }

  /** One round of the loop: `acc` has been done, the instruction e comes next. */
  lemma {:induction false} RoundDone(acc: Effect, want: nat)
    requires want > 0
    ensures Instr(acc.base, acc.rest, 1).None? ==> Join(acc, Exec(acc.base, acc.rest, want)) == None
    ensures Instr(acc.base, acc.rest, 1).Some? ==>
              var e := Instr(acc.base, acc.rest, 1).value;
              Join(acc, Exec(acc.base, acc.rest, want))
              == if |e.out| >= want then Some(Effect(e.base, acc.out + e.out, e.rest))
                 else Join(Effect(e.base, acc.out + e.out, e.rest), Exec(e.base, e.rest, want - |e.out|))
  {
    if Instr(acc.base, acc.rest, 1).Some? {
      var e := Instr(acc.base, acc.rest, 1).value;
      ExecOnce(acc.base, acc.rest, want);
      if |e.out| < want {
        JoinAssoc(acc, e, Exec(e.base, e.rest, want - |e.out|));
      }
    }
  }
}
