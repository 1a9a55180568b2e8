/** Writing many blocks: `find_runs_nogap` and `write_many_` of src/io_engine/sync.rs, over
    `VectoredBlockIo::write_blocks` of src/io_engine/utils.rs. */
module WriteManys {
  import opened Gaps

  datatype Piece = Piece(begin: nat, len: nat)

  const UIO_MAXIOV: nat := 1024

  /** The blocks of some pieces, in order. */
  function PieceBlocks(ps: seq<Piece>): seq<nat> {
    if ps == [] then [] else PieceBlocks(ps[..|ps| - 1]) + Span(ps[|ps| - 1].begin, ps[|ps| - 1].begin + ps[|ps| - 1].len)
  }

  lemma {:induction false} PieceBlocksPush(ps: seq<Piece>, p: Piece)
    ensures PieceBlocks(ps + [p]) == PieceBlocks(ps) + Span(p.begin, p.begin + p.len)
  {
    assert (ps + [p])[..|ps|] == ps;
  }

  /** No piece is empty or too long, and two are only kept apart if they do not touch or the first is full. */
  ghost predicate Joined(ps: seq<Piece>, max: nat) {
    && (forall i :: 0 <= i < |ps| ==> 1 <= ps[i].len && (ps[i].len == 1 || ps[i].len <= max))
    && forall i :: 0 <= i < |ps| - 1 ==> ps[i + 1].begin == ps[i].begin + ps[i].len ==> ps[i].len >= max
  }

  lemma {:induction false} NoPieces()
    ensures PieceBlocks([]) == []
    ensures forall b, max :: Joined([Piece(b, 1)], max)
    ensures forall max :: Joined([], max)
  {
  }

  lemma {:induction false} JoinedGrows(ps: seq<Piece>, begin: nat, len: nat, max: nat)
    requires Joined(ps + [Piece(begin, len)], max) && len < max
    ensures Joined(ps + [Piece(begin, len + 1)], max)
  {
    var qs, qs' := ps + [Piece(begin, len)], ps + [Piece(begin, len + 1)];
    assert qs[|ps|] == Piece(begin, len);
    assert forall i :: 0 <= i < |ps| ==> qs'[i] == qs[i];
    assert forall i :: 0 <= i < |qs| ==> qs'[i].begin == qs[i].begin;
    forall i | 0 <= i < |qs'| - 1 && qs'[i + 1].begin == qs'[i].begin + qs'[i].len ensures qs'[i].len >= max {
      assert qs[i + 1].begin == qs[i].begin + qs[i].len;
    }
  }

  lemma {:induction false} JoinedPush(ps: seq<Piece>, b: nat, max: nat)
    requires Joined(ps, max) && ps != []
    requires var p := ps[|ps| - 1]; b == p.begin + p.len ==> p.len >= max
    ensures Joined(ps + [Piece(b, 1)], max)
  {
    var qs := ps + [Piece(b, 1)];
    assert forall i :: 0 <= i < |ps| ==> qs[i] == ps[i];
    forall i | 0 <= i < |qs| - 1 && qs[i + 1].begin == qs[i].begin + qs[i].len ensures qs[i].len >= max {
      if i < |ps| - 1 {
        assert ps[i + 1].begin == ps[i].begin + ps[i].len;
      }
    }
  }

  /** The first n blocks are those of some runs and of one more. */
  ghost predicate SoFar(runs: seq<Piece>, p: Piece, locs: seq<nat>, n: nat, max: nat) {
    n <= |locs| && PieceBlocks(runs + [p]) == locs[..n] && Joined(runs + [p], max)
  }

  lemma {:induction false} First(locs: seq<nat>, max: nat)
    requires locs != []
    ensures SoFar([], Piece(locs[0], 1), locs, 1, max)
  {
    var p := Piece(locs[0], 1);
    NoPieces();
    PieceBlocksPush([], p);
    assert [] + [p] == [p] && PieceBlocks([p]) == [] + Span(p.begin, p.begin + 1) == [p.begin];
  }

  lemma {:induction false} Longer(runs: seq<Piece>, p: Piece, locs: seq<nat>, n: nat, max: nat)
    requires SoFar(runs, p, locs, n, max) && n < |locs| && locs[n] == p.begin + p.len && p.len < max
    ensures SoFar(runs, Piece(p.begin, p.len + 1), locs, n + 1, max)
  {
    hide PieceBlocks, Joined, Span;
    PieceBlocksPush(runs, p);
    PieceBlocksPush(runs, Piece(p.begin, p.len + 1));
    SpanGrows(p.begin, p.len);
    JoinedGrows(runs, p.begin, p.len, max);
    assert locs[..n + 1] == locs[..n] + [locs[n]];
  }

  lemma {:induction false} Another(runs: seq<Piece>, p: Piece, locs: seq<nat>, n: nat, max: nat)
    requires SoFar(runs, p, locs, n, max) && n < |locs| && (locs[n] != p.begin + p.len || p.len >= max)
    ensures SoFar(runs + [p], Piece(locs[n], 1), locs, n + 1, max)
  {
    hide PieceBlocks, Joined;
    PieceBlocksPush(runs + [p], Piece(locs[n], 1));
    JoinedPush(runs + [p], locs[n], max);
    assert locs[..n + 1] == locs[..n] + Span(locs[n], locs[n] + 1);
  }

  /** Runs of consecutive blocks, in the order of the blocks; none could be longer. */
  method FindRunsNoGap(locs: seq<nat>, max: nat) returns (runs: seq<Piece>)
    ensures PieceBlocks(runs) == locs && Joined(runs, max)
  {
    hide PieceBlocks, Joined, SoFar;
    runs := [];
    if locs == [] {
      NoPieces();
      return;
    }
    var begin: nat, len: nat := locs[0], 1;
    First(locs, max);
    for i := 1 to |locs|
      invariant SoFar(runs, Piece(begin, len), locs, i, max)
    {
      if locs[i] == begin + len && len < max {
        Longer(runs, Piece(begin, len), locs, i, max);
        len := len + 1;
      } else {
        Another(runs, Piece(begin, len), locs, i, max);
        runs := runs + [Piece(begin, len)];
        begin, len := locs[i], 1;
      }
    }
    Whole(runs, Piece(begin, len), locs, max);
    runs := runs + [Piece(begin, len)];
  }

  lemma {:induction false} Whole(runs: seq<Piece>, p: Piece, locs: seq<nat>, max: nat)
    requires SoFar(runs, p, locs, |locs|, max)
    ensures PieceBlocks(runs + [p]) == locs && Joined(runs + [p], max)
  {
    assert locs[..|locs|] == locs;
  }

  lemma {:induction false} SpanGrows(b: nat, n: nat)
    ensures Span(b, b + n + 1) == Span(b, b + n) + [b + n]
  {
  }

  type Count = n: nat | n > 0 witness 1

  /** What the n'th write of the device does: it takes the first blocks it is given, or it fails, leaving anything
      in them. */
  datatype Outcome<D> = Takes(n: Count) | Fails(junk: nat -> D)

  class Disk<D> {
    var blocks: nat -> D
    const outcome: nat -> Outcome<D>
    var calls: nat

    constructor (blocks: nat -> D, outcome: nat -> Outcome<D>)
      ensures this.blocks == blocks && this.outcome == outcome && calls == 0
    {
      this.blocks, this.outcome, calls := blocks, outcome, 0;
    }

    ghost predicate NeverFails() {
      forall c :: outcome(c).Takes?
    }

    /** The number of blocks taken, if any. */
    method WriteVectoredAt(data: seq<D>, from: nat, pos: nat) returns (n: nat)
      requires from < |data|
      modifies this
      ensures calls == old(calls) + 1 && n <= |data| - from && (n == 0 <==> outcome(old(calls)).Fails?)
      ensures forall j :: from <= j < from + n ==> blocks(pos + (j - from)) == data[j]
      ensures forall b: nat :: b < pos || b >= pos + (|data| - from) ==> blocks(b) == old(blocks)(b)
    {
      var o, was, left := outcome(calls), blocks, |data| - from;
      calls := calls + 1;
      n := if o.Fails? then 0 else if o.n < left then o.n else left;
      blocks := (b: nat) =>
        if b < pos || b >= pos + left then was(b)
        else if o.Fails? then o.junk(b)
        else if b - pos < o.n then data[from + (b - pos)] else was(b);
    }

    /** Each block is on the disk if it is reported as written; reported as failed are exactly those at which a
        failing call began.  Call i began at block begins[i]. */
    method WriteBlocks(data: seq<D>, pos0: nat) returns (results: seq<bool>, ghost begins: seq<nat>)
      modifies this
      ensures |results| == |data| && calls == old(calls) + |begins|
      ensures forall j :: 0 <= j < |data| && results[j] ==> blocks(pos0 + j) == data[j]
      ensures forall b: nat :: b < pos0 || b >= pos0 + |data| ==> blocks(b) == old(blocks)(b)
      ensures forall j :: 0 <= j < |data| ==> (!results[j] <==> Blamed(begins, old(calls), j))
      ensures NeverFails() ==> forall j :: 0 <= j < |data| ==> results[j]
    {
      results, begins := [], [];
      var pos := pos0;
      while |results| < |data|
        invariant |results| <= |data| && pos == pos0 + |results| && calls == old(calls) + |begins|
        invariant forall j :: 0 <= j < |results| && results[j] ==> blocks(pos0 + j) == data[j]
        invariant forall b: nat :: b < pos0 || b >= pos0 + |data| ==> blocks(b) == old(blocks)(b)
        invariant forall i :: 0 <= i < |begins| ==> begins[i] < |results|
        invariant forall j :: 0 <= j < |results| ==> (!results[j] <==> Blamed(begins, old(calls), j))
        invariant NeverFails() ==> forall j :: 0 <= j < |results| ==> results[j]
        decreases |data| - |results|
      {
        ghost var done := |results|;
        var n := WriteVectoredAt(data, |results|, pos);
        Blame(begins, old(calls), done);
        begins := begins + [done];
        if n > 0 {
          results, pos := results + seq(n, _ => true), pos + n;
        } else {
          results, pos := results + [false], pos + 1;
        }
      }
    }

    ghost predicate Blamed(begins: seq<nat>, calls: nat, j: nat) {
      exists i :: 0 <= i < |begins| && begins[i] == j && outcome(calls + i).Fails?
    }

    lemma {:induction false} Blame(begins: seq<nat>, calls: nat, done: nat)
      ensures forall j :: Blamed(begins + [done], calls, j) <==>
                          Blamed(begins, calls, j) || (j == done && outcome(calls + |begins|).Fails?)
    {
      var more := begins + [done];
      forall j ensures Blamed(more, calls, j) <==> Blamed(begins, calls, j) || (j == done && outcome(calls + |begins|).Fails?) {
        if Blamed(begins, calls, j) {
          var i :| 0 <= i < |begins| && begins[i] == j && outcome(calls + i).Fails?;
          assert more[i] == j;
        }
        if j == done && outcome(calls + |begins|).Fails? {
          assert more[|begins|] == j;
        }
      }
    }
  }

  datatype Block<D> = Block(loc: nat, data: D)

  function Locs<D>(blocks: seq<Block<D>>): (locs: seq<nat>)
    ensures |locs| == |blocks| && forall i :: 0 <= i < |blocks| ==> locs[i] == blocks[i].loc
  {
    seq(|blocks|, i requires 0 <= i < |blocks| => blocks[i].loc)
  }

  /** Nothing behind block i goes to the same place. */
  ghost predicate LastThere(locs: seq<nat>, i: nat, n: nat)
    requires i < |locs| && n <= |locs|
  {
    forall k :: i < k < n ==> locs[k] != locs[i]
  }

  /** What is reported as written, of the first so many blocks, is there. */
  ghost predicate There<D>(now: nat -> D, blocks: seq<Block<D>>, results: seq<bool>) {
    |results| <= |blocks| && forall i :: 0 <= i < |results| && results[i] && LastThere(Locs(blocks), i, |results|) ==>
                               now(blocks[i].loc) == blocks[i].data
  }

  /** One result for each block, in order.  What is reported as written is on the disk, unless a later block was for
      the same place, and nothing is changed where no block was for. */
  method WriteMany<D>(disk: Disk<D>, blocks: seq<Block<D>>) returns (results: seq<bool>)
    modifies disk
    ensures |results| == |blocks| && There(disk.blocks, blocks, results)
    ensures forall b: nat :: b !in Locs(blocks) ==> disk.blocks(b) == old(disk.blocks)(b)
    ensures disk.NeverFails() ==> forall i :: 0 <= i < |blocks| ==> results[i]
  {
    hide There, Joined, PieceBlocks, Disk.Blamed;
    var locs := Locs(blocks);
    results := [];
    var batches := FindRunsNoGap(locs, UIO_MAXIOV);
    NothingThere(disk.blocks, blocks, batches);
    for k := 0 to |batches|
      invariant |results| <= |locs| && PieceBlocks(batches[..k]) == locs[..|results|]
      invariant There(disk.blocks, blocks, results)
      invariant forall b: nat :: b !in locs ==> disk.blocks(b) == old(disk.blocks)(b)
      invariant disk.NeverFails() ==> forall i :: 0 <= i < |results| ==> results[i]
    {
      var p, issued := batches[k], |results|;
      NextPiece(batches, k, locs, issued);
      ghost var was := disk.blocks;
      var written;
      ghost var begins;
      written, begins := disk.WriteBlocks(Data(blocks, issued, p), p.begin);
      Further(was, disk.blocks, blocks, results, written, p);
      OutsidePiece(locs, issued, p);
      results := results + written;
    }
    assert batches[..|batches|] == batches;
  }

  function Data<D>(blocks: seq<Block<D>>, issued: nat, p: Piece): seq<D>
    requires issued + p.len <= |blocks|
  {
    seq(p.len, j requires 0 <= j < p.len => blocks[issued + j].data)
  }

  lemma {:induction false} NothingThere<D>(now: nat -> D, blocks: seq<Block<D>>, batches: seq<Piece>)
    ensures There(now, blocks, []) && PieceBlocks(batches[..0]) == Locs(blocks)[..0]
  {
  }

  /** The next blocks are those of a piece. */
  ghost predicate IsPiece(locs: seq<nat>, issued: nat, p: Piece) {
    issued + p.len <= |locs| && locs[issued..issued + p.len] == Span(p.begin, p.begin + p.len)
  }

  lemma {:induction false} PieceAt(locs: seq<nat>, issued: nat, p: Piece, j: nat)
    requires IsPiece(locs, issued, p) && j < p.len
    ensures locs[issued + j] == p.begin + j
  {
    assert locs[issued..issued + p.len][j] == locs[issued + j];
  }

  lemma {:induction false} OutsidePiece(locs: seq<nat>, issued: nat, p: Piece)
    requires IsPiece(locs, issued, p)
    ensures forall b :: b !in locs ==> b < p.begin || b >= p.begin + p.len
  {
    forall b | p.begin <= b < p.begin + p.len ensures b in locs {
      PieceAt(locs, issued, p, b - p.begin);
    }
  }

  /** After one more piece. */
  lemma {:induction false} Further<D>(was: nat -> D, now: nat -> D, blocks: seq<Block<D>>, results: seq<bool>, written: seq<bool>, p: Piece)
    requires There(was, blocks, results) && IsPiece(Locs(blocks), |results|, p) && |written| == p.len
    requires forall j :: 0 <= j < p.len && written[j] ==> now(p.begin + j) == Data(blocks, |results|, p)[j]
    requires forall b: nat :: b < p.begin || b >= p.begin + p.len ==> now(b) == was(b)
    ensures There(now, blocks, results + written)
  {
    var locs, issued, all := Locs(blocks), |results|, results + written;
    forall i | 0 <= i < |all| && all[i] && LastThere(locs, i, |all|) ensures now(blocks[i].loc) == blocks[i].data {
      if i < issued {
        assert LastThere(locs, i, issued);
        NotThere(locs, p, issued, i);
      } else {
        PieceAt(locs, issued, p, i - issued);
        assert written[i - issued] && Data(blocks, issued, p)[i - issued] == blocks[i].data;
      }
    }
  }

  /** A piece holds the blocks that come next. */
  lemma {:induction false} NextPiece(ps: seq<Piece>, k: nat, locs: seq<nat>, issued: nat)
    requires k < |ps| && PieceBlocks(ps) == locs && issued <= |locs| && PieceBlocks(ps[..k]) == locs[..issued]
    ensures IsPiece(locs, issued, ps[k]) && PieceBlocks(ps[..k + 1]) == locs[..issued + ps[k].len]
  {
    var span := Span(ps[k].begin, ps[k].begin + ps[k].len);
    assert ps[..k + 1] == ps[..k] + [ps[k]];
    PieceBlocksPush(ps[..k], ps[k]);
    PiecesPrefix(ps, k + 1);
    assert locs[..issued] + span <= locs;
  }

  lemma {:induction false} PiecesPrefix(ps: seq<Piece>, k: nat)
    requires k <= |ps|
    ensures PieceBlocks(ps[..k]) <= PieceBlocks(ps)
    decreases |ps|
  {
    if k == |ps| {
      assert ps[..k] == ps;
    } else {
      assert ps[..|ps| - 1][..k] == ps[..k];
      PiecesPrefix(ps[..|ps| - 1], k);
    }
  }

  lemma {:induction false} NotThere(locs: seq<nat>, p: Piece, issued: nat, i: nat)
    requires i < issued && IsPiece(locs, issued, p) && LastThere(locs, i, issued + p.len)
    ensures locs[i] < p.begin || locs[i] >= p.begin + p.len
  {
    if p.begin <= locs[i] < p.begin + p.len {
      PieceAt(locs, issued, p, locs[i] - p.begin);
    }
  }
}
