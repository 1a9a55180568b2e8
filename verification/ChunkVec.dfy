/** `mk_chunk_vecs` of src/pack/toplevel.rs: which blocks of a device the packing workers are given. */
module ChunkVecs {
  import opened Bytes
  import opened NodeEncoders
  import opened PackFiles
  import opened PackRounds
  import BlockIo

  /** The blocks of a chunk: so that each job has 64 chunks or so, which are neither small nor large. */
  function ChunkSize(nrBlocks: nat, nrJobs: nat): (size: nat)
    requires nrJobs > 0
    ensures 128 <= size <= 4096
  {
    var n: nat := nrBlocks / (nrJobs * 64);
    if n < 128 then 128 else if n > 4096 then 4096 else n
  }

  /** Chunk i of a device that is cut into chunks. */
  function Piece(nrBlocks: nat, size: nat, i: nat): Range
    requires i * size <= nrBlocks
  {
    Distribute(i, size);
    (i * size, if (i + 1) * size <= nrBlocks then (i + 1) * size else nrBlocks)
  }

  lemma Distribute(i: nat, size: nat)
    ensures (i + 1) * size == i * size + size
  {
  }

  /** The pieces of a device, in order. */
  ghost predicate Pieces(chunks: seq<Range>, nrBlocks: nat, size: nat) {
    forall i :: 0 <= i < |chunks| ==> IsPiece(chunks[i], nrBlocks, size, i)
  }

  ghost predicate IsPiece(r: Range, nrBlocks: nat, size: nat, i: nat) {
    i * size < nrBlocks && r == Piece(nrBlocks, size, i)
  }

  /** A block is in the piece that has its number. */
  lemma {:induction false} InPiece(nrBlocks: nat, size: nat, i: nat, b: nat)
    requires size > 0 && i * size < nrBlocks
    ensures var r := Piece(nrBlocks, size, i); r.0 <= b < r.1 <==> b < nrBlocks && b / size == i
  {
    Distribute(i, size);
    var q := b / size;
    QuotientOf(b, size);
    if i * size <= b < i * size + size {
      BlockIo.DivMod(b, size, i, b - i * size);
    }
  }

  /** Any order of the chunks. */
  method Shuffle(chunks: seq<Range>) returns (r: seq<Range>)
    ensures multiset(r) == multiset(chunks)
  {
    r := [];
    var left := chunks;
    while left != []
      invariant multiset(r) + multiset(left) == multiset(chunks)
      decreases |left|
    {
      var i: nat :| i < |left|;
      assert left == left[..i] + [left[i]] + left[i + 1..];
      r, left := r + [left[i]], left[..i] + left[i + 1..];
    }
  }

  method CutDevice(nrBlocks: nat, size: nat) returns (chunks: seq<Range>)
    requires size > 0
    ensures Pieces(chunks, nrBlocks, size) && |chunks| == nrBlocks / size + if nrBlocks % size == 0 then 0 else 1
  {
    chunks := [];
    var nrChunks: nat := nrBlocks / size;
    QuotientOf(nrBlocks, size);
    for i := 0 to nrChunks
      invariant |chunks| == i && Pieces(chunks, nrBlocks, size)
    {
      Multiple(i, nrChunks, size);
      chunks := chunks + [(i * size, (i + 1) * size)];
      assert IsPiece(chunks[i], nrBlocks, size, i);
    }
    if nrChunks * size < nrBlocks {
      Distribute(nrChunks, size);
      chunks := chunks + [(nrChunks * size, nrBlocks)];
      assert IsPiece(chunks[nrChunks], nrBlocks, size, nrChunks);
    }
  }

  lemma Multiple(i: nat, n: nat, size: nat)
    requires i < n && size > 0
    ensures i * size < (i + 1) * size <= n * size
  {
    Distribute(i, size);
    Sum(i + 1, n - i - 1, size);
  }

  lemma Sum(a: nat, b: nat, size: nat)
    ensures (a + b) * size == a * size + b * size && b * size >= 0
  {
  }

  /** What is left over: nothing if the pieces are all of one size, and otherwise one of them. */
  ghost predicate LeftOver(nrBlocks: nat, size: nat, lost: Range)
    requires size > 0
  {
    if nrBlocks % size == 0 then lost.0 == lost.1
    else lost.0 % size == 0 && lost.0 < nrBlocks && lost.1 == if lost.0 + size <= nrBlocks then lost.0 + size else nrBlocks
  }

  /** Which blocks the workers are given: those of every piece but one when the last is smaller than the others, for then
      one is left over when as many have been dealt out as there are whole pieces.  Only the shuffle says which. */
  method MkChunkVecs(nrBlocks: nat, nrJobs: nat) returns (vs: seq<seq<Range>>, ghost lost: Range)
    requires nrJobs > 0
    ensures |vs| == nrJobs && LeftOver(nrBlocks, ChunkSize(nrBlocks, nrJobs), lost)
    ensures forall b: nat :: InWork(vs, b) <==> b < nrBlocks && !(lost.0 <= b < lost.1)
    ensures nrBlocks < 128 ==> forall b :: !InWork(vs, b)
  {
    hide ChunkSize, Pieces, InRanges, InWork, LeftOver;
    var size := ChunkSize(nrBlocks, nrJobs);
    var chunks := CutDevice(nrBlocks, size);
    ghost var pieces := chunks;
    chunks := Shuffle(chunks);
    SameLength(chunks, pieces);
    vs := DealOut(chunks, nrBlocks / size, nrJobs);
    lost := if nrBlocks / size < |chunks| then chunks[nrBlocks / size] else (0, 0);
    WhatIsLeft(chunks, pieces, nrBlocks, size, lost);
  }

  /** The first n chunks go to the jobs in turn. */
  method DealOut(chunks: seq<Range>, n: nat, nrJobs: nat) returns (vs: seq<seq<Range>>)
    requires nrJobs > 0 && n <= |chunks|
    ensures |vs| == nrJobs && forall b: nat :: InWork(vs, b) <==> InRanges(chunks[..n], b)
  {
    hide InRanges, InWork;
    vs := seq(nrJobs, _ => []);
    NoWork(vs);
    assert chunks[..0] == [];
    for c := 0 to n
      invariant |vs| == nrJobs && forall b: nat :: InWork(vs, b) <==> InRanges(chunks[..c], b)
    {
      DealtMore(vs, c % nrJobs, chunks[..c], chunks[c]);
      assert chunks[..c + 1] == chunks[..c] + [chunks[c]];
      vs := vs[c % nrJobs := vs[c % nrJobs] + [chunks[c]]];
    }
  }

  lemma {:induction false} WhatIsLeft(chunks: seq<Range>, pieces: seq<Range>, nrBlocks: nat, size: nat, lost: Range)
    requires size > 0 && Pieces(pieces, nrBlocks, size) && multiset(chunks) == multiset(pieces)
    requires |chunks| == |pieces| == nrBlocks / size + if nrBlocks % size == 0 then 0 else 1
    requires lost == if nrBlocks / size < |chunks| then chunks[nrBlocks / size] else (0, 0)
    ensures forall b: nat :: InRanges(chunks[..nrBlocks / size], b) <==> b < nrBlocks && !(lost.0 <= b < lost.1)
    ensures LeftOver(nrBlocks, size, lost) && (0 < nrBlocks < size ==> lost == (0, nrBlocks))
  {
    hide Pieces, InRanges;
    var n: nat := nrBlocks / size;
    forall b: nat ensures InRanges(chunks[..n], b) <==> b < nrBlocks && !(lost.0 <= b < lost.1) {
      AllButLost(chunks, pieces, nrBlocks, size, n, b);
    }
    if n < |chunks| {
      LostPiece(chunks, pieces, nrBlocks, size, n);
    }
    if 0 < nrBlocks < size {
      SmallLost(nrBlocks, size, lost);
    }
  }

  lemma NoWork(vs: seq<seq<Range>>)
    requires forall k :: 0 <= k < |vs| ==> vs[k] == []
    ensures forall b :: InWork(vs, b) <==> InRanges([], b)
  {
  }

  lemma {:induction false} LostPiece(chunks: seq<Range>, pieces: seq<Range>, nrBlocks: nat, size: nat, n: nat)
    requires size > 0 && Pieces(pieces, nrBlocks, size) && multiset(chunks) == multiset(pieces) && n < |chunks|
    ensures var lost := chunks[n];
            lost.0 % size == 0 && lost.0 < nrBlocks && lost.1 == if lost.0 + size <= nrBlocks then lost.0 + size else nrBlocks
  {
    assert chunks[n] in multiset(pieces);
    var i :| 0 <= i < |pieces| && pieces[i] == chunks[n];
    assert IsPiece(pieces[i], nrBlocks, size, i);
    Distribute(i, size);
    BlockIo.DivMod(i * size, size, i, 0);
  }

  lemma {:induction false} SmallLost(nrBlocks: nat, size: nat, lost: Range)
    requires 0 < nrBlocks < size && LeftOver(nrBlocks, size, lost)
    ensures lost == (0, nrBlocks)
  {
    BlockIo.DivMod(nrBlocks, size, 0, nrBlocks);
    BlockIo.DivMod(lost.0, size, 0, lost.0);
  }

  /** Packing a device and unpacking what was packed restores its blocks of a known kind, but for those of the piece that
      was left over. */
  lemma {:induction false} AllButLostRestored(kindOf: Block -> Kind, dev: seq<Block>, work: seq<seq<Range>>, lost: Range, outs: seq<seq<byte>>,
                                              file: seq<Chunk>, shares: seq<seq<Chunk>>, writes: seq<Record>, b: nat)
    requires forall b: nat :: InWork(work, b) <==> b < |dev| && !(lost.0 <= b < lost.1)
    requires |work| == |outs| && forall j :: 0 <= j < |outs| ==> Crunched(kindOf, dev, work[j], outs[j])
    requires MergedFrom(file, outs) && Dealt(file, shares) && WritesOf(kindOf, shares, writes)
    ensures b in Written(writes) <==> b < |dev| && kindOf(dev[b]) != Unknown && !(lost.0 <= b < lost.1)
    ensures b in Written(writes) ==> Written(writes)[b] == dev[b]
  {
    hide Crunched, MergedFrom, Dealt, WritesOf, Written;
    PackedAndUnpacked(kindOf, dev, work, outs, file, shares, writes, b);
  }

  lemma SameLength(a: seq<Range>, b: seq<Range>)
    requires multiset(a) == multiset(b)
    ensures |a| == |b|
  {
    assert |multiset(a)| == |a| && |multiset(b)| == |b|;
  }

  lemma {:induction false} InRangesPush(ranges: seq<Range>, r: Range, b: nat)
    ensures InRanges(ranges + [r], b) <==> InRanges(ranges, b) || r.0 <= b < r.1
  {
    assert forall q :: q in ranges + [r] <==> q in ranges || q == r;
  }

  lemma {:induction false} DealtMore(vs: seq<seq<Range>>, j: nat, before: seq<Range>, r: Range)
    requires j < |vs| && forall b: nat :: InWork(vs, b) <==> InRanges(before, b)
    ensures forall b: nat :: InWork(vs[j := vs[j] + [r]], b) <==> InRanges(before + [r], b)
  {
    hide InRanges;
    var more := vs[j := vs[j] + [r]];
    forall b: nat ensures InWork(more, b) <==> InRanges(before + [r], b) {
      InRangesPush(before, r, b);
      InRangesPush(vs[j], r, b);
      assert forall k :: 0 <= k < |vs| && k != j ==> more[k] == vs[k];
      if InWork(vs, b) {
        var k :| 0 <= k < |vs| && InRanges(vs[k], b);
        assert InRanges(more[k], b);
      }
      if r.0 <= b < r.1 {
        assert InRanges(more[j], b);
      }
    }
  }

  /** The first n of the pieces, in whatever order, have the blocks that are not in the one left over. */
  lemma {:induction false} AllButLost(chunks: seq<Range>, pieces: seq<Range>, nrBlocks: nat, size: nat, n: nat, b: nat)
    requires size > 0 && Pieces(pieces, nrBlocks, size) && multiset(chunks) == multiset(pieces)
    requires |chunks| == |pieces| == nrBlocks / size + if nrBlocks % size == 0 then 0 else 1
    requires n == nrBlocks / size
    ensures InRanges(chunks[..n], b) <==> b < nrBlocks && !(n < |chunks| && chunks[n].0 <= b < chunks[n].1)
  {
    var i := b / size;
    forall r | r in chunks ensures r.0 <= b < r.1 <==> b < nrBlocks && i < |pieces| && r == pieces[i] {
      assert r in multiset(pieces);
      ThePiece(pieces, nrBlocks, size, r, b);
    }
    if b < nrBlocks {
      InsidePieces(nrBlocks, size, b);
      var k := OnePlace(chunks, pieces, nrBlocks, size, i);
      Taken(chunks, n, b, k);
    } else {
      forall r | r in chunks[..n] ensures r in chunks {
      }
      assert n < |chunks| ==> chunks[n] in chunks;
    }
  }

  /** A piece has one place among the chunks. */
  lemma {:induction false} OnePlace(chunks: seq<Range>, pieces: seq<Range>, nrBlocks: nat, size: nat, i: nat) returns (k: nat)
    requires size > 0 && Pieces(pieces, nrBlocks, size) && multiset(chunks) == multiset(pieces) && i < |pieces|
    ensures k < |chunks| && chunks[k] == pieces[i] && forall j :: 0 <= j < |chunks| && chunks[j] == pieces[i] ==> j == k
  {
    assert pieces[i] in multiset(chunks);
    k :| 0 <= k < |chunks| && chunks[k] == pieces[i];
    OnlyOnce(pieces, nrBlocks, size, i);
    forall j | 0 <= j < |chunks| && chunks[j] == pieces[i] ensures j == k {
      if j != k {
        TwoPlaces(chunks, if j < k then j else k, if j < k then k else j);
      }
    }
  }

  lemma Taken(chunks: seq<Range>, n: nat, b: nat, k: nat)
    requires n <= |chunks| <= n + 1 && k < |chunks|
    requires forall j :: 0 <= j < |chunks| ==> (chunks[j].0 <= b < chunks[j].1 <==> j == k)
    ensures InRanges(chunks[..n], b) <==> !(n < |chunks| && chunks[n].0 <= b < chunks[n].1)
  {
    if k < n {
      assert chunks[k] in chunks[..n];
    }
    assert forall r :: r in chunks[..n] ==> exists j :: 0 <= j < n && chunks[j] == r;
  }

  lemma {:induction false} ThePiece(pieces: seq<Range>, nrBlocks: nat, size: nat, r: Range, b: nat)
    requires size > 0 && Pieces(pieces, nrBlocks, size) && r in pieces
    ensures r.0 <= b < r.1 <==> b < nrBlocks && b / size < |pieces| && r == pieces[b / size]
  {
    hide Piece;
    var k :| 0 <= k < |pieces| && pieces[k] == r;
    assert IsPiece(pieces[k], nrBlocks, size, k);
    InPiece(nrBlocks, size, k, b);
    var i := b / size;
    if b < nrBlocks && i < |pieces| && r == pieces[i] {
      assert IsPiece(pieces[i], nrBlocks, size, i);
      InPiece(nrBlocks, size, i, b);
    }
  }

  lemma {:induction false} InsidePieces(nrBlocks: nat, size: nat, b: nat)
    requires size > 0 && b < nrBlocks
    ensures b / size < nrBlocks / size + if nrBlocks % size == 0 then 0 else 1
  {
    QuotientOf(b, size);
    QuotientOf(nrBlocks, size);
    var q, n := b / size, nrBlocks / size;
    if q > n {
      assert q * size == (n + 1) * size + (q - n - 1) * size;
      Distribute(n, size);
    }
  }

  /** No piece is there twice. */
  lemma {:induction false} OnlyOnce(pieces: seq<Range>, nrBlocks: nat, size: nat, i: nat)
    requires size > 0 && Pieces(pieces, nrBlocks, size) && i < |pieces|
    ensures multiset(pieces)[pieces[i]] == 1
  {
    var r := pieces[i];
    forall k | 0 <= k < |pieces| && k != i ensures pieces[k] != r {
      assert IsPiece(pieces[k], nrBlocks, size, k) && IsPiece(pieces[i], nrBlocks, size, i);
      if k < i {
        Multiple(k, i, size);
      } else {
        Multiple(i, k, size);
      }
    }
    assert pieces == pieces[..i] + [r] + pieces[i + 1..];
    assert r !in pieces[..i] && r !in pieces[i + 1..];
    assert multiset(pieces) == multiset(pieces[..i]) + multiset{r} + multiset(pieces[i + 1..]);
  }

  lemma TwoPlaces(s: seq<Range>, i: nat, j: nat)
    requires i < j < |s| && s[i] == s[j]
    ensures multiset(s)[s[i]] >= 2
  {
    assert s == s[..j] + [s[j]] + s[j + 1..];
    assert multiset(s) == multiset(s[..j]) + multiset{s[j]} + multiset(s[j + 1..]);
    assert s[i] in s[..j];
  }
}
