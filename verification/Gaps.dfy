/** Grouping reads into contiguous batches that take in small gaps, and cutting those batches to length:
    src/io_engine/gaps.rs. */
module Gaps {
  import opened Wrappers
  import opened Sequences

  datatype RunOp = Run(b: nat, e: nat) | Gap(b: nat, e: nat) {
    predicate Ok() {
      b <= e
    }

    function Len(): nat
      requires Ok()
    {
      e - b
    }
  }

  function Span(b: nat, e: nat): (bs: seq<nat>)
    requires b <= e
    ensures |bs| == e - b && forall i :: 0 <= i < |bs| ==> bs[i] == b + i
  {
    seq<nat>(e - b, i requires i >= 0 => b + i)
  }

  function OpBlocks(op: RunOp): seq<nat>
    requires op.Ok()
  {
    if op.Run? then Span(op.b, op.e) else []
  }

  predicate AllOk(ops: seq<RunOp>) {
    forall i :: 0 <= i < |ops| ==> ops[i].Ok()
  }

  /** The blocks that the runs ask for, in order. */
  function RunBlocks(ops: seq<RunOp>): seq<nat>
    requires AllOk(ops)
  {
    if ops == [] then []
    else
      RunBlocks(ops[..|ops| - 1]) + OpBlocks(ops[|ops| - 1])
  }

  /** The number of blocks, gaps included. */
  function Size(ops: seq<RunOp>): nat
    requires AllOk(ops)
  {
    if ops == [] then 0 else Size(ops[..|ops| - 1]) + ops[|ops| - 1].Len()
  }

  predicate Contiguous(ops: seq<RunOp>) {
    forall i :: 0 <= i < |ops| - 1 ==> ops[i].e == ops[i + 1].b
  }

  /** No op is empty, and each gap is between two runs and no longer than the threshold.  No two runs could be one,
      and every gap between ascending runs that is small enough is there. */
  predicate Shaped(ops: seq<RunOp>, threshold: nat) {
    forall i :: 0 <= i < |ops| ==> OpShaped(ops, i, threshold)
  }

  predicate OpShaped(ops: seq<RunOp>, i: nat, threshold: nat)
    requires i < |ops|
  {
    && ops[i].b < ops[i].e
    && (ops[i].Gap? ==>
          && 0 < i < |ops| - 1 && ops[i - 1].Run? && ops[i - 1].e == ops[i].b
          && ops[i + 1].Run? && ops[i].e == ops[i + 1].b && ops[i].e - ops[i].b <= threshold)
    && (ops[i].Run? && i < |ops| - 1 && ops[i + 1].Run? ==>
          ops[i + 1].b < ops[i].e || ops[i + 1].b - ops[i].e > threshold)
  }

  lemma {:induction false} RunBlocksPush(ops: seq<RunOp>, op: RunOp)
    requires AllOk(ops) && op.Ok()
    ensures RunBlocks(ops + [op]) == RunBlocks(ops) + OpBlocks(op)
    ensures Size(ops + [op]) == Size(ops) + op.Len()
  {
    assert (ops + [op])[..|ops|] == ops;
  }

  lemma {:induction false} RunBlocksConcat(a: seq<RunOp>, c: seq<RunOp>)
    requires AllOk(a) && AllOk(c)
    ensures RunBlocks(a + c) == RunBlocks(a) + RunBlocks(c) && Size(a + c) == Size(a) + Size(c)
    decreases |c|
  {
    hide OpBlocks, RunBlocks, Size;
    if c == [] {
      assert a + c == a;
      NoBlocks();
    } else {
      var c', op := c[..|c| - 1], c[|c| - 1];
      RunBlocksConcat(a, c');
      assert a + c == (a + c') + [op] && c == c' + [op];
      RunBlocksPush(a + c', op);
      RunBlocksPush(c', op);
      assert RunBlocks(a) + RunBlocks(c') + OpBlocks(op) == RunBlocks(a) + (RunBlocks(c') + OpBlocks(op));
    }
  }

  lemma NoBlocks()
    ensures RunBlocks([]) == [] && Size([]) == 0
  {
  }

  lemma OneOp(op: RunOp)
    requires op.Ok()
    ensures RunBlocks([op]) == OpBlocks(op) && Size([op]) == op.Len()
  {
    RunBlocksPush([], op);
    assert [] + [op] == [op];
  }

  /** Finds the runs, in the order of the blocks, and the small gaps between ascending ones. */
  method FindRuns(blocks: seq<nat>, gapThreshold: nat) returns (runs: seq<RunOp>)
    ensures Shaped(runs, gapThreshold) && AllOk(runs) && RunBlocks(runs) == blocks && (blocks != [] ==> runs != [])
  {
    hide RunBlocks, Shaped, Span;
    runs := [];
    if blocks == [] {
      NoBlocks();
      assert Shaped([], gapThreshold) by { FirstRun(0, gapThreshold); }
    } else {
      var begin, end := blocks[0], blocks[0] + 1;
      NoBlocks();
      FirstRun(begin, gapThreshold);
      assert blocks[..1] == [blocks[0]];
      for i := 1 to |blocks|
        invariant AllOk(runs) && begin <= end && Shaped(runs + [Run(begin, end)], gapThreshold)
        invariant RunBlocks(runs) + Span(begin, end) == blocks[..i]
      {
        var b := blocks[i];
        assert blocks[..i + 1] == blocks[..i] + [b];
        if b == end {
          Extended(runs, begin, end, gapThreshold);
          assert RunBlocks(runs) + (Span(begin, end) + [b]) == RunBlocks(runs) + Span(begin, end) + [b];
          end := b + 1;
        } else {
          Started(runs, begin, end, b, gapThreshold);
          runs := runs + [Run(begin, end)];
          if b > end {
            var len := b - end;
            if len <= gapThreshold {
              runs := runs + [Gap(end, b)];
            }
          }
          begin, end := b, b + 1;
        }
      }
      assert blocks[..|blocks|] == blocks;
      RunBlocksPush(runs, Run(begin, end));
      runs := runs + [Run(begin, end)];
    }
  }

  lemma FirstRun(b: nat, threshold: nat)
    ensures Shaped([], threshold) && Shaped([] + [Run(b, b + 1)], threshold) && [] + Span(b, b + 1) == [b]
  {
  }

  lemma {:induction false} Extended(runs: seq<RunOp>, begin: nat, end: nat, threshold: nat)
    requires begin <= end && Shaped(runs + [Run(begin, end)], threshold)
    ensures Shaped(runs + [Run(begin, end + 1)], threshold) && Span(begin, end + 1) == Span(begin, end) + [end]
  {
    var was, now := runs + [Run(begin, end)], runs + [Run(begin, end + 1)];
    assert was[|runs|] == Run(begin, end) && now[|runs|] == Run(begin, end + 1);
    forall i | 0 <= i < |now| ensures OpShaped(now, i, threshold) {
      assert OpShaped(was, i, threshold);
      assert i < |runs| ==> was[i] == now[i];
    }
  }

  /** The runs with the last one finished, and the gap after it if it is small. */
  function Finished(runs: seq<RunOp>, begin: nat, end: nat, b: nat, threshold: nat): seq<RunOp> {
    if b > end && b - end <= threshold then runs + [Run(begin, end)] + [Gap(end, b)] else runs + [Run(begin, end)]
  }

  lemma {:induction false} Started(runs: seq<RunOp>, begin: nat, end: nat, b: nat, threshold: nat)
    requires AllOk(runs) && begin <= end && Shaped(runs + [Run(begin, end)], threshold) && b != end
    ensures var now := Finished(runs, begin, end, b, threshold);
            && AllOk(now) && Shaped(now + [Run(b, b + 1)], threshold)
            && RunBlocks(now) + Span(b, b + 1) == RunBlocks(runs) + Span(begin, end) + [b]
  {
    StillShaped(runs, begin, end, b, threshold);
    FinishedBlocks(runs, begin, end, b, threshold);
    FirstRun(b, threshold);
    hide Shaped, RunBlocks, Span, Finished;
    assert Span(b, b + 1) == [b];
  }

  lemma {:induction false} FinishedBlocks(runs: seq<RunOp>, begin: nat, end: nat, b: nat, threshold: nat)
    requires AllOk(runs) && begin <= end
    ensures var now := Finished(runs, begin, end, b, threshold);
            AllOk(now) && RunBlocks(now) == RunBlocks(runs) + Span(begin, end)
  {
    hide RunBlocks, Span;
    RunBlocksPush(runs, Run(begin, end));
    if b > end && b - end <= threshold {
      RunBlocksPush(runs + [Run(begin, end)], Gap(end, b));
      assert RunBlocks(runs + [Run(begin, end)]) + [] == RunBlocks(runs + [Run(begin, end)]);
    }
  }

  lemma {:induction false} StillShaped(runs: seq<RunOp>, begin: nat, end: nat, b: nat, threshold: nat)
    requires Shaped(runs + [Run(begin, end)], threshold) && b != end
    ensures Shaped(Finished(runs, begin, end, b, threshold) + [Run(b, b + 1)], threshold)
  {
    var was := runs + [Run(begin, end)];
    assert was[|was| - 1] == Run(begin, end);
    hide Shaped;
    if b > end && b - end <= threshold {
      PushGapAndRun(was, Gap(end, b), Run(b, b + 1), threshold);
      assert was + [Gap(end, b), Run(b, b + 1)] == was + [Gap(end, b)] + [Run(b, b + 1)];
    } else {
      PushRun(was, Run(b, b + 1), threshold);
    }
  }

  lemma {:induction false} PushRun(ops: seq<RunOp>, run: RunOp, threshold: nat)
    requires Shaped(ops, threshold) && ops != [] && ops[|ops| - 1].Run? && run.Run? && run.b < run.e
    requires run.b < ops[|ops| - 1].e || run.b - ops[|ops| - 1].e > threshold
    ensures Shaped(ops + [run], threshold)
  {
    forall i | 0 <= i < |ops| + 1 ensures OpShaped(ops + [run], i, threshold) {
      assert i < |ops| ==> OpShaped(ops, i, threshold);
    }
  }

  lemma {:induction false} PushGapAndRun(ops: seq<RunOp>, gap: RunOp, run: RunOp, threshold: nat)
    requires Shaped(ops, threshold) && ops != [] && ops[|ops| - 1].Run? && gap.Gap? && run.Run?
    requires ops[|ops| - 1].e == gap.b < gap.e == run.b < run.e && gap.e - gap.b <= threshold
    ensures Shaped(ops + [gap, run], threshold)
  {
    forall i | 0 <= i < |ops| + 2 ensures OpShaped(ops + [gap, run], i, threshold) {
      assert i < |ops| ==> OpShaped(ops, i, threshold);
    }
  }

  /** A contiguous batch that ends with a run. */
  predicate EndsInRun(ops: seq<RunOp>) {
    ops != [] && ops[|ops| - 1].Run? && Contiguous(ops) && forall i :: 0 <= i < |ops| ==> ops[i].b < ops[i].e
  }

  function Begin(ops: seq<RunOp>): nat {
    if ops == [] then 0 else ops[0].b
  }

  function End(ops: seq<RunOp>): nat {
    if ops == [] then 0 else ops[|ops| - 1].e
  }

  /** No batch begins where the one before it ends. */
  predicate Apart(batches: seq<seq<RunOp>>) {
    forall i :: 0 <= i < |batches| - 1 ==> End(batches[i]) != Begin(batches[i + 1])
  }

  lemma {:induction false} ApartPush(result: seq<seq<RunOp>>, batch: seq<RunOp>, next: RunOp)
    requires Apart(result) && (result != [] ==> End(result[|result| - 1]) != Begin(batch)) && End(batch) != next.b
    ensures Apart(result + [batch]) && End((result + [batch])[|result|]) != Begin([next])
  {
  }

  /** Cuts the ops wherever one does not start at the end of the one before: never before a gap or after one. */
  method BatchAdjacent(runs: seq<RunOp>, ghost threshold: nat) returns (result: seq<seq<RunOp>>)
    requires Shaped(runs, threshold)
    ensures Flatten(result) == runs
    ensures forall i :: 0 <= i < |result| ==> EndsInRun(result[i])
    ensures Apart(result)
  {
    hide Apart, EndsInRun, Contiguous, Flatten, Shaped, Filling;
    result := [];
    var batch: seq<RunOp> := [];
    var last: Option<nat> := None;
    NothingYet(runs);
    for i := 0 to |runs|
      invariant Filling(runs[..i], result, batch)
      invariant last == if i == 0 then None else Some(runs[i - 1].e)
    {
      assert runs[..i + 1] == runs[..i] + [runs[i]];
      var r := runs[i];
      OneMore(runs, threshold, i, result, batch);
      if last.Some? && r.b != last.value {
        result, batch := result + [batch], [];
      }
      assert [] + [r] == [r];
      batch, last := batch + [r], Some(r.e);
    }
    assert runs[..|runs|] == runs;
    LastBatch(runs, threshold, result, batch);
    if batch != [] {
      result := result + [batch];
    }
  }

  /** What has been put into batches: whole ones, and one that is being filled. */
  ghost predicate Filling(runs: seq<RunOp>, result: seq<seq<RunOp>>, batch: seq<RunOp>) {
    && Flatten(result) + batch == runs && (runs != [] ==> batch != []) && Contiguous(batch)
    && (forall k :: 0 <= k < |batch| ==> batch[k].b < batch[k].e) && (forall k :: 0 <= k < |result| ==> EndsInRun(result[k]))
    && Apart(result) && (result != [] && batch != [] ==> End(result[|result| - 1]) != Begin(batch))
  }

  lemma {:induction false} NothingYet(runs: seq<RunOp>)
    ensures Filling(runs[..0], [], [])
  {
  }

  lemma {:induction false} OneMore(runs: seq<RunOp>, threshold: nat, i: nat, result: seq<seq<RunOp>>, batch: seq<RunOp>)
    requires i < |runs| && Shaped(runs, threshold) && Filling(runs[..i], result, batch)
    ensures i > 0 && runs[i].b != runs[i - 1].e ==> Filling(runs[..i] + [runs[i]], result + [batch], [runs[i]])
    ensures i == 0 || runs[i].b == runs[i - 1].e ==> Filling(runs[..i] + [runs[i]], result, batch + [runs[i]])
  {
    var r := runs[i];
    assert OpShaped(runs, i, threshold);
    if i > 0 {
      assert OpShaped(runs, i - 1, threshold);
      assert runs[..i][i - 1] == runs[i - 1] == batch[|batch| - 1];
      if r.b != runs[i - 1].e {
        FlattenPush(result, batch);
        ApartPush(result, batch, r);
        hide Apart, Flatten;
        assert runs[i - 1].Run?;
      } else {
        hide Apart, Flatten;
        assert Flatten(result) + (batch + [r]) == Flatten(result) + batch + [r];
      }
    }
  }

  lemma {:induction false} LastBatch(runs: seq<RunOp>, threshold: nat, result: seq<seq<RunOp>>, batch: seq<RunOp>)
    requires Shaped(runs, threshold) && Filling(runs, result, batch)
    ensures var all := if batch == [] then result else result + [batch];
            Flatten(all) == runs && Apart(all) && forall i :: 0 <= i < |all| ==> EndsInRun(all[i])
  {
    if batch != [] {
      FlattenPush(result, batch);
      ApartPush(result, batch, Gap(End(batch) + 1, End(batch) + 1));
      hide Apart, Flatten;
      assert runs[|runs| - 1] == batch[|batch| - 1];
      assert OpShaped(runs, |runs| - 1, threshold);
    }
  }

  /** Takes what fits of an op.  A gap that just fits leaves an empty remainder. */
  function SplitOp(op: RunOp, remaining: nat): (r: (RunOp, Option<RunOp>, nat))
    requires op.Ok() && remaining > 0
    ensures r.0.Ok() && r.0.b == op.b && r.0.Run? == op.Run? && r.0.Len() == remaining - r.2
    ensures r.1.None? ==> r.0 == op
    ensures r.1.Some? ==> r.2 == 0 && r.1.value == (if op.Run? then Run(r.0.e, op.e) else Gap(r.0.e, op.e)) && r.0.e <= op.e
    ensures r.1.Some? && op.Run? ==> r.0.e < op.e
  {
    if (if op.Run? then op.Len() <= remaining else op.Len() < remaining) then (op, None, remaining - op.Len())
    else
      var mid := op.b + remaining;
      if op.Run? then (Run(op.b, mid), Some(Run(mid, op.e)), 0) else (Gap(op.b, mid), Some(Gap(mid, op.e)), 0)
  }

  /** What a batch handed to the device is: contiguous, not empty and not too long. */
  predicate GoodBatch(ops: seq<RunOp>, max: nat) {
    AllOk(ops) && Contiguous(ops) && 0 < Size(ops) <= max
  }

  /** Every batch is full unless the next one does not begin where it ends. */
  predicate Full(batches: seq<seq<RunOp>>, max: nat) {
    forall i :: 0 <= i < |batches| - 1 ==>
      AllOk(batches[i]) && (Size(batches[i]) == max || End(batches[i]) != Begin(batches[i + 1]))
  }

  /** The pieces that a batch has been cut into so far, `batch` being filled and `left` still to come: they are all
      full, the first begins where it begins and the last will end where it ends. */
  ghost predicate Pieces(runs: seq<RunOp>, max: nat, before: seq<seq<RunOp>>, result: seq<seq<RunOp>>, batch: seq<RunOp>,
                         left: seq<RunOp>)
  {
    && before <= result && (forall k :: |before| <= k < |result| ==> AllOk(result[k]) && Size(result[k]) == max)
    && (if |result| > |before| then Begin(result[|before|]) else Begin(batch + left)) == Begin(runs)
    && (if batch + left != [] then End(batch + left) else if |result| > |before| then End(result[|result| - 1]) else End(runs) + 1)
       == End(runs)
  }

  /** The ops still to be dealt with: the current one and those after it. */
  function Rest(op: Option<RunOp>, ops: seq<RunOp>): seq<RunOp> {
    (if op.Some? then [op.value] else []) + ops
  }

  /** How far a batch has been cut: `batch` is being filled and `left` is still to come. */
  ghost predicate Cutting(all: seq<nat>, max: nat, result: seq<seq<RunOp>>, batch: seq<RunOp>, left: seq<RunOp>, remaining: nat)
  {
    && AllOk(batch) && AllOk(left) && Contiguous(batch + left) && 0 < remaining <= max && Size(batch) == max - remaining
    && (left == [] ==> batch == [] || Size(batch) > 0)
    && (left != [] ==> var last := left[|left| - 1]; last.Run? && last.b < last.e)
    && (forall k :: 0 <= k < |result| ==> GoodBatch(result[k], max)) && AllOk(Flatten(result))
    && RunBlocks(Flatten(result)) + (RunBlocks(batch) + RunBlocks(left)) == all
  }

  /** Cuts a contiguous batch into pieces of max blocks, the last one shorter. */
  method SplitContiguous(runs: seq<RunOp>, max: nat, result: seq<seq<RunOp>>) returns (result': seq<seq<RunOp>>)
    requires max > 0 && EndsInRun(runs)
    requires (forall i :: 0 <= i < |result| ==> GoodBatch(result[i], max)) && AllOk(Flatten(result))
    ensures forall i :: 0 <= i < |result'| ==> GoodBatch(result'[i], max)
    ensures AllOk(Flatten(result')) && RunBlocks(Flatten(result')) == RunBlocks(Flatten(result)) + RunBlocks(runs)
    ensures Cut(runs, max, result, result')
  {
    hide Pieces, Cut, Cutting, SplitOp, Size, RunBlocks, Flatten;
    result' := result;
    var remaining := max;
    var batch: seq<RunOp> := [];
    var op, i := Some(runs[0]), 1;
    ghost var all := RunBlocks(Flatten(result)) + RunBlocks(runs);
    assert Rest(op, runs[1..]) == runs;
    CutNothing(max, result, runs);
    NoPieces(runs, max, result);
    while op.Some?
      invariant i <= |runs| && (op.None? ==> i == |runs|) && AllOk(Rest(op, runs[i..])) && 0 < remaining
      invariant Cutting(all, max, result', batch, Rest(op, runs[i..]), remaining)
      invariant Pieces(runs, max, result, result', batch, Rest(op, runs[i..]))
      decreases Size(Rest(op, runs[i..])), |Rest(op, runs[i..])|
    {
      assert Rest(op, runs[i..])[0] == op.value;
      var (first, rest, rem) := SplitOp(op.value, remaining);
      CutOne(all, max, result', batch, op.value, runs[i..], remaining);
      PieceOne(all, runs, max, result, result', batch, op.value, runs[i..], remaining);
      batch, op, remaining := batch + [first], rest, rem;
      if remaining == 0 {
        result', batch, remaining := result' + [batch], [], max;
      }
      if op.None? && i < |runs| {
        assert Rest(None, runs[i..]) == Rest(Some(runs[i]), runs[i + 1..]);
        op, i := Some(runs[i]), i + 1;
      }
    }
    CutLast(all, max, result', batch, remaining);
    LastPiece(all, runs, max, result, result', batch, remaining);
    if batch != [] {
      result' := result' + [batch];
    }
  }

  /** A batch cut up: all pieces but the last are full, the first begins where it does and the last ends where it does. */
  ghost predicate Cut(runs: seq<RunOp>, max: nat, before: seq<seq<RunOp>>, result: seq<seq<RunOp>>) {
    && before <= result && |before| < |result|
    && (forall k :: |before| <= k < |result| - 1 ==> AllOk(result[k]) && Size(result[k]) == max)
    && Begin(result[|before|]) == Begin(runs) && End(result[|result| - 1]) == End(runs)
  }

  lemma {:induction false} NoPieces(runs: seq<RunOp>, max: nat, result: seq<seq<RunOp>>)
    requires EndsInRun(runs)
    ensures Pieces(runs, max, result, result, [], runs)
  {
    assert [] + runs == runs;
  }

  lemma {:induction false} PieceOne(all: seq<nat>, runs: seq<RunOp>, max: nat, before: seq<seq<RunOp>>, result: seq<seq<RunOp>>,
                                    batch: seq<RunOp>, op: RunOp, ops: seq<RunOp>, remaining: nat)
    requires Cutting(all, max, result, batch, Rest(Some(op), ops), remaining)
    requires Pieces(runs, max, before, result, batch, Rest(Some(op), ops))
    ensures op.Ok()
    ensures var (first, rest, rem) := SplitOp(op, remaining);
            if rem == 0 then Pieces(runs, max, before, result + [batch + [first]], [], Rest(rest, ops))
            else Pieces(runs, max, before, result, batch + [first], Rest(rest, ops))
  {
    hide Pieces;
    assert Rest(Some(op), ops)[0] == op && ops == Rest(Some(op), ops)[1..];
    SplitParts(op, remaining);
    var (first, rest, rem) := SplitOp(op, remaining);
    TookSize(batch, op, ops, first, rest);
    hide Size, SplitOp, Cutting;
    SameEnds(batch, op, ops, first, rest);
    hide Rest, Parts, Begin, End;
    if rem == 0 {
      PiecesOf(runs, max, before, result, batch, Rest(Some(op), ops));
      PieceFull(runs, max, before, result, batch + Rest(Some(op), ops), batch + [first], Rest(rest, ops));
    } else {
      PiecesOf(runs, max, before, result, batch, Rest(Some(op), ops));
      PiecesOf(runs, max, before, result, batch + [first], Rest(rest, ops));
    }
  }

  /** Only the two parts together matter. */
  lemma {:induction false} PiecesOf(runs: seq<RunOp>, max: nat, before: seq<seq<RunOp>>, result: seq<seq<RunOp>>,
                                    batch: seq<RunOp>, left: seq<RunOp>)
    ensures Pieces(runs, max, before, result, batch, left) <==> Pieces(runs, max, before, result, [], batch + left)
    ensures batch + left != [] ==>
              (Pieces(runs, max, before, result, batch, left) <==>
               before <= result && (forall k :: |before| <= k < |result| ==> AllOk(result[k]) && Size(result[k]) == max)
               && (if |result| > |before| then Begin(result[|before|]) else Begin(batch + left)) == Begin(runs)
               && End(batch + left) == End(runs))
  {
    assert [] + (batch + left) == batch + left;
  }

  lemma {:induction false} PieceFull(runs: seq<RunOp>, max: nat, before: seq<seq<RunOp>>, result: seq<seq<RunOp>>,
                                     was: seq<RunOp>, piece: seq<RunOp>, left: seq<RunOp>)
    requires Pieces(runs, max, before, result, [], was) && AllOk(piece) && Size(piece) == max && was != []
    requires Begin(piece) == Begin(was) && End(was) == if left == [] then End(piece) else End(left)
    ensures Pieces(runs, max, before, result + [piece], [], left)
  {
    hide Size, Begin, End;
    assert [] + was == was && [] + left == left;
    var result' := result + [piece];
    assert forall k :: 0 <= k < |result| ==> result'[k] == result[k];
  }

  /** Moving a part of the first op over changes neither end. */
  lemma {:induction false} SameEnds(batch: seq<RunOp>, op: RunOp, ops: seq<RunOp>, first: RunOp, rest: Option<RunOp>)
    requires Parts(op, first, rest)
    ensures var was, now, left := batch + Rest(Some(op), ops), batch + [first] + Rest(rest, ops), Rest(rest, ops);
            && was != [] && now != [] && Begin(now) == Begin(was) == Begin(batch + [first]) && End(now) == End(was)
            && End(was) == if left == [] then End(batch + [first]) else End(left)
  {
  }

  lemma {:induction false} LastPiece(all: seq<nat>, runs: seq<RunOp>, max: nat, before: seq<seq<RunOp>>, result: seq<seq<RunOp>>,
                                     batch: seq<RunOp>, remaining: nat)
    requires Pieces(runs, max, before, result, batch, [])
    ensures Cut(runs, max, before, if batch == [] then result else result + [batch])
  {
    assert batch + [] == batch;
  }

  lemma {:induction false} CutNothing(max: nat, result: seq<seq<RunOp>>, runs: seq<RunOp>)
    requires max > 0 && EndsInRun(runs)
    requires (forall i :: 0 <= i < |result| ==> GoodBatch(result[i], max)) && AllOk(Flatten(result))
    ensures Cutting(RunBlocks(Flatten(result)) + RunBlocks(runs), max, result, [], runs, max)
  {
    assert [] + runs == runs;
    assert RunBlocks([]) + RunBlocks(runs) == RunBlocks(runs);
  }

  lemma CutLast(all: seq<nat>, max: nat, result: seq<seq<RunOp>>, batch: seq<RunOp>, remaining: nat)
    requires Cutting(all, max, result, batch, [], remaining)
    ensures var result' := if batch == [] then result else result + [batch];
            && (forall i :: 0 <= i < |result'| ==> GoodBatch(result'[i], max))
            && AllOk(Flatten(result')) && RunBlocks(Flatten(result')) == all
  {
    assert batch + [] == batch && RunBlocks(batch) + [] == RunBlocks(batch);
    if batch != [] {
      FlattenPush(result, batch);
      RunBlocksConcat(Flatten(result), batch);
    }
  }

  /** One round: an op, or what fits of it, is moved to the batch, and a full batch to the result. */
  lemma CutOne(all: seq<nat>, max: nat, result: seq<seq<RunOp>>, batch: seq<RunOp>, op: RunOp, ops: seq<RunOp>, remaining: nat)
    requires Cutting(all, max, result, batch, Rest(Some(op), ops), remaining)
    ensures op.Ok() && AllOk(ops)
    ensures var (first, rest, rem) := SplitOp(op, remaining);
            && AllOk(Rest(rest, ops))
            && (if rem == 0 then Cutting(all, max, result + [batch + [first]], [], Rest(rest, ops), max)
                else Cutting(all, max, result, batch + [first], Rest(rest, ops), rem))
            && Size(Rest(rest, ops)) <= Size(Rest(Some(op), ops))
            && (Size(Rest(rest, ops)) < Size(Rest(Some(op), ops)) || |Rest(rest, ops)| < |Rest(Some(op), ops)|)
  {
    hide Size, RunBlocks, SplitOp, Flatten, EndsInRun;
    var left := Rest(Some(op), ops);
    assert left[0] == op && ops == left[1..];
    SplitParts(op, remaining);
    var (first, rest, rem) := SplitOp(op, remaining);
    TookContiguous(batch, op, ops, first, rest);
    TookSize(batch, op, ops, first, rest);
    TookBlocks(batch, op, ops, first, rest);
    TookLast(op, ops, first, rest);
    hide Contiguous, Parts;
    if rem == 0 {
      CutFull(all, max, result, batch + [first], Rest(rest, ops));
    }
  }

  lemma SplitParts(op: RunOp, remaining: nat)
    requires op.Ok() && remaining > 0
    ensures var (first, rest, rem) := SplitOp(op, remaining);
            && Parts(op, first, rest) && first.Len() == remaining - rem && rem <= remaining
            && (rest.Some? ==> rem == 0 && first.Len() > 0 && (op.Run? ==> first.e < op.e))
  {
  }

  lemma {:induction false} CutFull(all: seq<nat>, max: nat, result: seq<seq<RunOp>>, batch: seq<RunOp>, left: seq<RunOp>)
    requires max > 0 && AllOk(batch) && AllOk(left) && Contiguous(batch) && Contiguous(left) && Size(batch) == max
    requires left != [] ==> var last := left[|left| - 1]; last.Run? && last.b < last.e
    requires (forall k :: 0 <= k < |result| ==> GoodBatch(result[k], max)) && AllOk(Flatten(result))
    requires RunBlocks(Flatten(result)) + (RunBlocks(batch) + RunBlocks(left)) == all
    ensures Cutting(all, max, result + [batch], [], left, max)
  {
    hide Size, RunBlocks, Contiguous, Flatten;
    FlattenPush(result, batch);
    RunBlocksConcat(Flatten(result), batch);
    NoBlocks();
    assert [] + left == left;
    var a, b, c := RunBlocks(Flatten(result)), RunBlocks(batch), RunBlocks(left);
    Regroup(a, b, [], c);
    assert [] + c == c && b + [] == b;
  }

  /** `first`, and `rest` if there is one, are the two parts of op. */
  predicate Parts(op: RunOp, first: RunOp, rest: Option<RunOp>) {
    && op.Ok() && first.Ok() && first.b == op.b && first.Run? == op.Run?
    && (if rest.None? then first == op
        else rest.value.Ok() && rest.value.Run? == op.Run? && rest.value.b == first.e && rest.value.e == op.e)
  }

  lemma TookContiguous(batch: seq<RunOp>, op: RunOp, ops: seq<RunOp>, first: RunOp, rest: Option<RunOp>)
    requires Contiguous(batch + Rest(Some(op), ops)) && Parts(op, first, rest)
    ensures Contiguous(batch + [first]) && Contiguous(batch + [first] + Rest(rest, ops)) && Contiguous(Rest(rest, ops))
  {
    var was := batch + Rest(Some(op), ops);
    var left := Rest(rest, ops);
    var now := batch + [first] + left;
    forall i | 0 <= i < |now| - 1 ensures now[i].e == now[i + 1].b {
      var k := if rest.None? || i <= |batch| then i else i - 1;
      assert k < |was| - 1 ==> was[k].e == was[k + 1].b;
    }
    forall i | 0 <= i < |batch + [first]| - 1 ensures (batch + [first])[i].e == (batch + [first])[i + 1].b {
      assert now[i].e == now[i + 1].b;
    }
    forall i | 0 <= i < |left| - 1 ensures left[i].e == left[i + 1].b {
      assert now[|batch| + 1 + i].e == now[|batch| + 1 + i + 1].b;
    }
  }

  lemma {:induction false} TookSize(batch: seq<RunOp>, op: RunOp, ops: seq<RunOp>, first: RunOp, rest: Option<RunOp>)
    requires AllOk(batch) && AllOk(ops) && Parts(op, first, rest)
    ensures AllOk(batch + [first]) && AllOk(Rest(rest, ops))
    ensures Size(batch + [first]) == Size(batch) + first.Len()
    ensures Size(Rest(rest, ops)) + first.Len() == Size(Rest(Some(op), ops))
  {
    hide RunBlocks, Size;
    RunBlocksPush(batch, first);
    RunBlocksConcat([op], ops);
    OneOp(op);
    if rest.Some? {
      RunBlocksConcat([rest.value], ops);
      OneOp(rest.value);
    } else {
      assert Rest(rest, ops) == ops;
    }
  }

  lemma {:induction false} TookBlocks(batch: seq<RunOp>, op: RunOp, ops: seq<RunOp>, first: RunOp, rest: Option<RunOp>)
    requires AllOk(batch) && AllOk(ops) && Parts(op, first, rest)
    ensures RunBlocks(batch + [first]) + RunBlocks(Rest(rest, ops)) == RunBlocks(batch) + RunBlocks(Rest(Some(op), ops))
  {
    hide RunBlocks, Size;
    RunBlocksPush(batch, first);
    RunBlocksConcat([op], ops);
    OneOp(op);
    if rest.Some? {
      RunBlocksConcat([rest.value], ops);
      OneOp(rest.value);
      assert OpBlocks(op) == OpBlocks(first) + OpBlocks(rest.value);
      Regroup(RunBlocks(batch), OpBlocks(first), OpBlocks(rest.value), RunBlocks(ops));
    } else {
      assert Rest(rest, ops) == ops;
      Regroup(RunBlocks(batch), OpBlocks(first), [], RunBlocks(ops));
      assert OpBlocks(first) + [] == OpBlocks(first) && [] + RunBlocks(ops) == RunBlocks(ops);
    }
  }

  lemma Regroup(a: seq<nat>, b: seq<nat>, c: seq<nat>, d: seq<nat>)
    ensures a + b + (c + d) == a + (b + c + d)
  {
  }

  lemma TookLast(op: RunOp, ops: seq<RunOp>, first: RunOp, rest: Option<RunOp>)
    requires Parts(op, first, rest) && (rest.Some? && op.Run? ==> first.e < op.e)
    requires var left := Rest(Some(op), ops); var last := left[|left| - 1]; last.Run? && last.b < last.e
    ensures var left := Rest(rest, ops); left != [] ==> var last := left[|left| - 1]; last.Run? && last.b < last.e
    ensures Rest(rest, ops) == [] ==> first.b < first.e
  {
  }

  lemma {:induction false} NoneFull(max: nat)
    ensures Full([], max)
  {
  }

  lemma {:induction false} FullMore(runs: seq<RunOp>, max: nat, before: seq<seq<RunOp>>, result: seq<seq<RunOp>>)
    requires Full(before, max) && Cut(runs, max, before, result)
    requires forall k :: 0 <= k < |before| ==> GoodBatch(before[k], max)
    requires before != [] ==> End(before[|before| - 1]) != Begin(runs)
    ensures Full(result, max) && result != [] && End(result[|result| - 1]) == End(runs)
  {
    hide Size;
    forall i | 0 <= i < |result| - 1
      ensures AllOk(result[i]) && (Size(result[i]) == max || End(result[i]) != Begin(result[i + 1]))
    {
      if i < |before| {
        assert result[i] == before[i] && GoodBatch(before[i], max);
        assert i + 1 < |before| ==> result[i + 1] == before[i + 1];
      }
    }
  }

  method SplitBatches(batches: seq<seq<RunOp>>, max: nat) returns (result: seq<seq<RunOp>>)
    requires max > 0 && (forall i :: 0 <= i < |batches| ==> EndsInRun(batches[i])) && AllOk(Flatten(batches)) && Apart(batches)
    ensures (forall i :: 0 <= i < |result| ==> GoodBatch(result[i], max)) && Full(result, max)
    ensures AllOk(Flatten(result)) && RunBlocks(Flatten(result)) == RunBlocks(Flatten(batches))
  {
    hide RunBlocks, GoodBatch, Full, Cut;
    result := [];
    NoneFull(max);
    for i := 0 to |batches|
      invariant Full(result, max) && (i == 0 <==> result == [])
      invariant i > 0 ==> End(result[|result| - 1]) == End(batches[i - 1])
      invariant forall k :: 0 <= k < |result| ==> GoodBatch(result[k], max)
      invariant AllOk(Flatten(result)) && AllOk(Flatten(batches[..i]))
      invariant RunBlocks(Flatten(result)) == RunBlocks(Flatten(batches[..i]))
    {
      assert batches[..i + 1][..i] == batches[..i];
      RunBlocksConcat(Flatten(batches[..i]), batches[i]);
      ghost var before := result;
      result := SplitContiguous(batches[i], max, result);
      FullMore(batches[i], max, before, result);
    }
    assert batches[..|batches|] == batches;
  }

  /** The batches to issue for a list of blocks, in any order and with any repeats. */
  method GenerateRuns(blocks: seq<nat>, gapThreshold: nat, max: nat) returns (batches: seq<seq<RunOp>>)
    requires max > 0
    ensures (forall i :: 0 <= i < |batches| ==> GoodBatch(batches[i], max)) && Full(batches, max)
    ensures AllOk(Flatten(batches)) && RunBlocks(Flatten(batches)) == blocks
  {
    hide RunBlocks, GoodBatch;
    var runs := FindRuns(blocks, gapThreshold);
    batches := BatchAdjacent(runs, gapThreshold);
    batches := SplitBatches(batches, max);
  }
}
