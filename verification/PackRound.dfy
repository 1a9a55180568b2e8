/** `pack` and `unpack`, with several workers each: src/pack/toplevel.rs. */
module PackRounds {
  import opened Wrappers
  import opened Sequences
  import opened Bytes
  import opened NodeEncoders
  import opened PackFiles
  import BlockIo

  type Chunk = seq<byte>

  /** Each worker packed some ranges into some chunks. */
  datatype Job = Job(ranges: seq<Range>, chunks: seq<Chunk>, groups: seq<seq<Record>>) {
    ghost predicate Done(kindOf: Block -> Kind, dev: seq<Block>) {
      && |dev| < 0x10_0000_0000_0000 && Inside(dev, ranges)
      && HoldAll(kindOf, chunks, groups) && Flatten(groups) == KnownIn(kindOf, dev, ranges)
    }

    ghost predicate AllReadable(kindOf: Block -> Kind) {
      forall g :: g in groups ==> Readable(kindOf, g)
    }
  }

  /** A worker that came to its end has done its job. */
  lemma {:induction false} CrunchedIsDone(kindOf: Block -> Kind, dev: seq<Block>, ranges: seq<Range>, out: seq<byte>, groups: seq<seq<Record>>)
    returns (job: Job)
    requires |dev| < 0x10_0000_0000_0000 && Inside(dev, ranges)
    requires Chunked(kindOf, out, groups) && Flatten(groups) == KnownIn(kindOf, dev, ranges)
    ensures job.Done(kindOf, dev) && job.ranges == ranges && job.groups == groups && out == FileBytes(job.chunks)
  {
    var chunks :| out == FileBytes(chunks) && HoldAll(kindOf, chunks, groups);
    job := Job(ranges, chunks, groups);
  }

  ghost predicate Packed(jobs: seq<Job>, b: nat) {
    exists j :: 0 <= j < |jobs| && InRanges(jobs[j].ranges, b)
  }

  /** The file has the workers' chunks, in whatever order they came to write them. */
  ghost predicate Merged(file: seq<Chunk>, jobs: seq<Job>) {
    forall c :: c in file <==> exists j :: 0 <= j < |jobs| && c in jobs[j].chunks
  }

  /** The chunks were dealt out to the decoders. */
  ghost predicate Dealt(file: seq<Chunk>, shares: seq<seq<Chunk>>) {
    forall c :: c in file <==> exists i :: 0 <= i < |shares| && c in shares[i]
  }

  /** The loop of `unpack`: to each decoder in turn. */
  method DealOut(file: seq<Chunk>, nrJobs: nat) returns (shares: seq<seq<Chunk>>)
    requires nrJobs > 0
    ensures |shares| == nrJobs && Dealt(file, shares)
    ensures forall i :: 0 <= i < nrJobs ==> shares[i] == EveryNth(file, nrJobs, i)
  {
    shares := seq(nrJobs, i => []);
    var next := 0;
    assert file[..0] == [];
    assert forall i :: 0 <= i < nrJobs ==> EveryNth([], nrJobs, i) == [];
    for k := 0 to |file|
      invariant |shares| == nrJobs && next == k % nrJobs
      invariant forall i :: 0 <= i < nrJobs ==> shares[i] == EveryNth(file[..k], nrJobs, i)
      invariant Dealt(file[..k], shares)
    {
      assert file[..k + 1][..k] == file[..k];
      DealtMore(file[..k], shares, next, file[k]);
      assert file[..k + 1] == file[..k] + [file[k]];
      shares := shares[next := shares[next] + [file[k]]];
      NextTurn(k, nrJobs);
      next := (next + 1) % nrJobs;
    }
    assert file[..|file|] == file;
  }

  lemma {:induction false} NextTurn(k: nat, n: nat)
    requires n > 0
    ensures (k % n + 1) % n == (k + 1) % n
  {
    var q, r := k / n, k % n;
    QuotientOf(k, n);
    if r + 1 == n {
      assert (q + 1) * n == q * n + n;
      BlockIo.DivMod(k + 1, n, q + 1, 0);
      BlockIo.DivMod(n, n, 1, 0);
    } else {
      BlockIo.DivMod(k + 1, n, q, r + 1);
      BlockIo.DivMod(r + 1, n, 0, r + 1);
    }
  }

  lemma {:induction false} QuotientOf(k: nat, n: nat)
    requires n > 0
    ensures k == k / n * n + k % n && 0 <= k % n < n
  {
  }

  /** The chunks at positions i, i + n, i + 2n and so on. */
  function EveryNth(file: seq<Chunk>, n: nat, i: nat): seq<Chunk>
    requires n > 0
  {
    if file == [] then []
    else
      var k := |file| - 1;
      EveryNth(file[..k], n, i) + if k % n == i then [file[k]] else []
  }

  lemma {:induction false} DealtMore(file: seq<Chunk>, shares: seq<seq<Chunk>>, i: nat, c: Chunk)
    requires Dealt(file, shares) && i < |shares|
    ensures Dealt(file + [c], shares[i := shares[i] + [c]])
  {
    var more := shares[i := shares[i] + [c]];
    forall d ensures d in file + [c] <==> exists k :: 0 <= k < |more| && d in more[k] {
      if d in file {
        var k :| 0 <= k < |shares| && d in shares[k];
        assert d in more[k];
      }
      if d == c {
        assert d in more[i];
      }
      if exists k :: 0 <= k < |more| && d in more[k] {
        var k :| 0 <= k < |more| && d in more[k];
        assert k != i ==> more[k] == shares[k];
      }
    }
  }

  // ---- what the decoders make of the chunks

  /** A job's chunk decodes to the records it was made of, if at all. */
  lemma {:induction false} JobChunk(kindOf: Block -> Kind, dev: seq<Block>, job: Job, k: nat)
    requires job.Done(kindOf, dev) && k < |job.chunks|
    ensures |job.groups| == |job.chunks|
    ensures ChunkRecords(kindOf, job.chunks[k]) == if Readable(kindOf, job.groups[k]) then Some(job.groups[k]) else None
  {
    hide Holds, Readable, ChunkRecords;
    assert HoldsSome(kindOf, job.chunks[k], job.groups[k]);
    var packs :| Holds(kindOf, job.chunks[k], job.groups[k], packs);
    ChunkDecodes(kindOf, job.chunks[k], job.groups[k], packs);
  }

  lemma {:induction false} RecordsOf(kindOf: Block -> Kind, chunks: seq<Chunk>)
    ensures AllRecords(kindOf, chunks).Some? <==> forall c :: c in chunks ==> ChunkRecords(kindOf, c).Some?
    ensures AllRecords(kindOf, chunks).Some? ==>
              forall r :: r in AllRecords(kindOf, chunks).value <==> InSome(kindOf, chunks, r)
  {
    hide ChunkRecords;
    if chunks != [] {
      var k := |chunks| - 1;
      RecordsOf(kindOf, chunks[..k]);
      assert chunks == chunks[..k] + [chunks[k]];
      assert forall c :: c in chunks <==> c in chunks[..k] || c == chunks[k];
      assert AllRecords(kindOf, chunks).Some? <==> AllRecords(kindOf, chunks[..k]).Some? && ChunkRecords(kindOf, chunks[k]).Some?;
      if forall c :: c in chunks ==> ChunkRecords(kindOf, c).Some? {
        assert chunks[k] in chunks;
        assert AllRecords(kindOf, chunks).Some?;
      }
      if AllRecords(kindOf, chunks).Some? {
        forall r ensures r in AllRecords(kindOf, chunks).value <==> InSome(kindOf, chunks, r) {
          InSomeLast(kindOf, chunks, r);
        }
      }
    }
  }

  /** Some chunk decodes to records of which this is one. */
  ghost predicate InSome(kindOf: Block -> Kind, chunks: seq<Chunk>, r: Record) {
    exists c :: c in chunks && Has(kindOf, c, r)
  }

  ghost predicate Has(kindOf: Block -> Kind, c: Chunk, r: Record) {
    ChunkRecords(kindOf, c).Some? && r in ChunkRecords(kindOf, c).value
  }

  lemma {:induction false} InSomeLast(kindOf: Block -> Kind, chunks: seq<Chunk>, r: Record)
    requires chunks != []
    ensures InSome(kindOf, chunks, r) <==> InSome(kindOf, chunks[..|chunks| - 1], r) || Has(kindOf, chunks[|chunks| - 1], r)
  {
    hide Has;
    assert chunks == chunks[..|chunks| - 1] + [chunks[|chunks| - 1]];
  }

  lemma {:induction false} InGroup(groups: seq<seq<Record>>, r: Record)
    ensures r in Flatten(groups) <==> exists k :: 0 <= k < |groups| && r in groups[k]
  {
    if groups != [] {
      InGroup(groups[..|groups| - 1], r);
      assert forall k :: 0 <= k < |groups| - 1 ==> groups[..|groups| - 1][k] == groups[k];
    }
  }

  ghost predicate AllDecoded(kindOf: Block -> Kind, shares: seq<seq<Chunk>>) {
    forall i :: 0 <= i < |shares| ==> AllRecords(kindOf, shares[i]).Some?
  }

  ghost predicate Done(kindOf: Block -> Kind, dev: seq<Block>, jobs: seq<Job>) {
    forall j :: 0 <= j < |jobs| ==> jobs[j].Done(kindOf, dev)
  }

  lemma {:induction false} ChunkOrigin(kindOf: Block -> Kind, dev: seq<Block>, jobs: seq<Job>, file: seq<Chunk>, c: Chunk)
    returns (j: nat, k: nat)
    requires Done(kindOf, dev, jobs) && Merged(file, jobs) && c in file
    ensures j < |jobs| && k < |jobs[j].chunks| == |jobs[j].groups| && jobs[j].chunks[k] == c
    ensures ChunkRecords(kindOf, c) == if Readable(kindOf, jobs[j].groups[k]) then Some(jobs[j].groups[k]) else None
  {
    hide Readable, ChunkRecords, Job.Done;
    j :| 0 <= j < |jobs| && c in jobs[j].chunks;
    k :| 0 <= k < |jobs[j].chunks| && jobs[j].chunks[k] == c;
    JobChunk(kindOf, dev, jobs[j], k);
  }

  /** The decoders all come to their end exactly when in no chunk a record before the last leaves an instruction
      unread. */
  lemma {:induction false} DecodedWhen(kindOf: Block -> Kind, dev: seq<Block>, jobs: seq<Job>, file: seq<Chunk>, shares: seq<seq<Chunk>>)
    requires Done(kindOf, dev, jobs) && Merged(file, jobs) && Dealt(file, shares)
    ensures AllDecoded(kindOf, shares) <==> forall j :: 0 <= j < |jobs| ==> jobs[j].AllReadable(kindOf)
  {
    hide Readable, ChunkRecords, AllRecords, Job.Done;
    if forall j :: 0 <= j < |jobs| ==> jobs[j].AllReadable(kindOf) {
      forall i | 0 <= i < |shares| ensures AllRecords(kindOf, shares[i]).Some? {
        forall c | c in shares[i] ensures ChunkRecords(kindOf, c).Some? {
          var j, k := ChunkOrigin(kindOf, dev, jobs, file, c);
          assert jobs[j].groups[k] in jobs[j].groups;
        }
        RecordsOf(kindOf, shares[i]);
      }
    }
    if AllDecoded(kindOf, shares) {
      forall j | 0 <= j < |jobs| ensures jobs[j].AllReadable(kindOf) {
        forall g | g in jobs[j].groups ensures Readable(kindOf, g) {
          assert jobs[j].Done(kindOf, dev);
          GroupDecoded(kindOf, dev, jobs, file, shares, j, g);
        }
      }
    }
  }

  lemma {:induction false} GroupDecoded(kindOf: Block -> Kind, dev: seq<Block>, jobs: seq<Job>, file: seq<Chunk>, shares: seq<seq<Chunk>>,
                                        j: nat, g: seq<Record>)
    requires Merged(file, jobs) && Dealt(file, shares) && AllDecoded(kindOf, shares)
    requires j < |jobs| && jobs[j].Done(kindOf, dev) && g in jobs[j].groups
    ensures Readable(kindOf, g) && exists c :: c in file && ChunkRecords(kindOf, c) == Some(g)
  {
    var k :| 0 <= k < |jobs[j].groups| && jobs[j].groups[k] == g;
    JobChunk(kindOf, dev, jobs[j], k);
    hide Readable, ChunkRecords, AllRecords, Job.Done;
    var c := jobs[j].chunks[k];
    assert c in file;
    var i :| 0 <= i < |shares| && c in shares[i];
    RecordsOf(kindOf, shares[i]);
  }

  // ---- what is in the file that the decoders write

  function Written(writes: seq<Record>): map<nat, Block> {
    if writes == [] then map[]
    else
      var r := writes[|writes| - 1];
      Written(writes[..|writes| - 1])[r.b as nat := r.data]
  }

  lemma {:induction false} WrittenSays(writes: seq<Record>, b: nat)
    ensures b in Written(writes) <==> exists r :: r in writes && r.b == b
    ensures b in Written(writes) ==> exists r :: r in writes && r.b == b && r.data == Written(writes)[b]
  {
    if writes != [] {
      var last := writes[|writes| - 1];
      WrittenSays(writes[..|writes| - 1], b);
      assert writes == writes[..|writes| - 1] + [last];
      assert last in writes;
    }
  }

  /** The decoders' writes, in whatever order: each record that a decoder found is written. */
  ghost predicate WritesOf(kindOf: Block -> Kind, shares: seq<seq<Chunk>>, writes: seq<Record>) {
    && AllDecoded(kindOf, shares)
    && forall r :: r in writes <==> exists i :: 0 <= i < |shares| && r in AllRecords(kindOf, shares[i]).value
  }

  /** What is written are the known blocks of the jobs. */
  lemma {:induction false} WritesAreKnown(kindOf: Block -> Kind, dev: seq<Block>, jobs: seq<Job>, file: seq<Chunk>, shares: seq<seq<Chunk>>,
                                          writes: seq<Record>, r: Record)
    requires Done(kindOf, dev, jobs) && Merged(file, jobs) && Dealt(file, shares) && WritesOf(kindOf, shares, writes)
    ensures r in writes <==> exists j :: 0 <= j < |jobs| && r in Flatten(jobs[j].groups)
  {
    hide Readable, ChunkRecords, AllRecords, Job.Done;
    if r in writes {
      var i :| 0 <= i < |shares| && r in AllRecords(kindOf, shares[i]).value;
      RecordsOf(kindOf, shares[i]);
      var c :| c in shares[i] && Has(kindOf, c, r);
      var j, k := ChunkOrigin(kindOf, dev, jobs, file, c);
      assert r in jobs[j].groups[k];
      InGroup(jobs[j].groups, r);
    }
    if exists j :: 0 <= j < |jobs| && r in Flatten(jobs[j].groups) {
      var j :| 0 <= j < |jobs| && r in Flatten(jobs[j].groups);
      InGroup(jobs[j].groups, r);
      var k :| 0 <= k < |jobs[j].groups| && r in jobs[j].groups[k];
      GroupDecoded(kindOf, dev, jobs, file, shares, j, jobs[j].groups[k]);
      var c :| c in file && ChunkRecords(kindOf, c) == Some(jobs[j].groups[k]);
      var i :| 0 <= i < |shares| && c in shares[i];
      RecordsOf(kindOf, shares[i]);
      assert Has(kindOf, c, r);
    }
  }

  /** However the workers that packed took turns to write, and the decoders to write back: if the decoders come to
      their end, each block of a known kind in the ranges packed is restored, and no other is written. */
  lemma {:induction false} RoundTrip(kindOf: Block -> Kind, dev: seq<Block>, jobs: seq<Job>, file: seq<Chunk>, shares: seq<seq<Chunk>>,
                                     writes: seq<Record>, b: nat)
    requires Done(kindOf, dev, jobs) && Merged(file, jobs) && Dealt(file, shares) && WritesOf(kindOf, shares, writes)
    ensures b in Written(writes) <==> Packed(jobs, b) && b < |dev| && kindOf(dev[b]) != Unknown
    ensures b in Written(writes) ==> Written(writes)[b] == dev[b]
  {
    WrittenSays(writes, b);
    hide WritesOf, Merged, Dealt, Written, Flatten, KnownIn;
    if b in Written(writes) {
      var r :| r in writes && r.b == b && r.data == Written(writes)[b];
      WritesAreKnown(kindOf, dev, jobs, file, shares, writes, r);
      var j :| 0 <= j < |jobs| && r in Flatten(jobs[j].groups);
      assert jobs[j].Done(kindOf, dev);
      KnownInRecords(kindOf, dev, jobs[j].ranges);
      KnownInIsKnown(kindOf, dev, jobs[j].ranges, r);
    }
    if Packed(jobs, b) && b < |dev| && kindOf(dev[b]) != Unknown {
      var j :| 0 <= j < |jobs| && InRanges(jobs[j].ranges, b);
      assert jobs[j].Done(kindOf, dev);
      KnownInRecords(kindOf, dev, jobs[j].ranges);
      var n: u64 := b;
      assert Record(n, dev[b]) in Flatten(jobs[j].groups);
      WritesAreKnown(kindOf, dev, jobs, file, shares, writes, Record(n, dev[b]));
    }
  }

  lemma {:induction false} KnownInIsKnown(kindOf: Block -> Kind, dev: seq<Block>, ranges: seq<Range>, r: Record)
    requires Inside(dev, ranges) && |dev| < 0x10_0000_0000_0000 && r in KnownIn(kindOf, dev, ranges)
    ensures kindOf(r.data) != Unknown
    decreases |ranges|
  {
    var k := |ranges| - 1;
    if r in KnownIn(kindOf, dev, ranges[..k]) {
      KnownInIsKnown(kindOf, dev, ranges[..k], r);
    } else {
      KnownIsKnown(kindOf, dev, ranges[k].0, ranges[k].1, r);
    }
  }

  lemma {:induction false} KnownIsKnown(kindOf: Block -> Kind, dev: seq<Block>, lo: nat, hi: nat, r: Record)
    requires lo <= hi <= |dev| < 0x10_0000_0000_0000 && r in Known(kindOf, dev, lo, hi)
    ensures kindOf(r.data) != Unknown
    decreases hi - lo
  {
    if r in Known(kindOf, dev, lo, hi - 1) {
      KnownIsKnown(kindOf, dev, lo, hi - 1, r);
    }
  }

  // ---- from the workers' own promises

  /** What a worker that came to its end has written: see `Crunch`. */
  ghost predicate Crunched(kindOf: Block -> Kind, dev: seq<Block>, ranges: seq<Range>, out: seq<byte>) {
    && |dev| < 0x10_0000_0000_0000 && Inside(dev, ranges)
    && exists groups :: Chunked(kindOf, out, groups) && Flatten(groups) == KnownIn(kindOf, dev, ranges)
  }

  /** The chunks a worker wrote are those read from what it wrote. */
  lemma {:induction false} OwnChunks(kindOf: Block -> Kind, chunks: seq<Chunk>, groups: seq<seq<Record>>)
    requires HoldAll(kindOf, chunks, groups)
    ensures FileChunks(FileBytes(chunks)) == Some(chunks)
  {
    hide FileChunks, FileBytes, Holds;
    forall c | c in chunks ensures |c| < TWO64 {
      var k :| 0 <= k < |chunks| && chunks[k] == c;
      assert HoldsSome(kindOf, chunks[k], groups[k]);
    }
    FileChunksBack(chunks, []);
    EndOfFile();
    assert FileBytes(chunks) + [] == FileBytes(chunks) && chunks + [] == chunks;
  }

  lemma {:induction false} JobsOf(kindOf: Block -> Kind, dev: seq<Block>, work: seq<seq<Range>>, outs: seq<seq<byte>>) returns (jobs: seq<Job>)
    requires |work| == |outs| && forall j :: 0 <= j < |outs| ==> Crunched(kindOf, dev, work[j], outs[j])
    ensures |jobs| == |outs| && Done(kindOf, dev, jobs)
    ensures forall j :: 0 <= j < |outs| ==> jobs[j].ranges == work[j] && FileChunks(outs[j]) == Some(jobs[j].chunks)
    decreases |outs|
  {
    hide Crunched, Job.Done, FileChunks, FileBytes;
    if outs == [] {
      jobs := [];
    } else {
      var k := |outs| - 1;
      jobs := JobsOf(kindOf, dev, work[..k], outs[..k]);
      assert Crunched(kindOf, dev, work[k], outs[k]);
      var job := JobOf(kindOf, dev, work[k], outs[k]);
      jobs := jobs + [job];
    }
  }

  lemma {:induction false} JobOf(kindOf: Block -> Kind, dev: seq<Block>, ranges: seq<Range>, out: seq<byte>) returns (job: Job)
    requires Crunched(kindOf, dev, ranges, out)
    ensures job.Done(kindOf, dev) && job.ranges == ranges && FileChunks(out) == Some(job.chunks)
  {
    var groups :| Chunked(kindOf, out, groups) && Flatten(groups) == KnownIn(kindOf, dev, ranges);
    job := CrunchedIsDone(kindOf, dev, ranges, out, groups);
    OwnChunks(kindOf, job.chunks, job.groups);
  }

  /** The file has the chunks that the workers wrote, in whatever order. */
  ghost predicate MergedFrom(file: seq<Chunk>, outs: seq<seq<byte>>) {
    forall c :: c in file <==> exists j :: 0 <= j < |outs| && FileChunks(outs[j]).Some? && c in FileChunks(outs[j]).value
  }

  ghost predicate InWork(work: seq<seq<Range>>, b: nat) {
    exists j :: 0 <= j < |work| && InRanges(work[j], b)
  }

  /** Workers that came to their ends, whose chunks went to one file, and decoders that came to theirs: each block of a
      known kind that was to be packed is restored, and no other is written. */
  lemma {:induction false} PackedAndUnpacked(kindOf: Block -> Kind, dev: seq<Block>, work: seq<seq<Range>>, outs: seq<seq<byte>>, file: seq<Chunk>,
                                             shares: seq<seq<Chunk>>, writes: seq<Record>, b: nat)
    requires |work| == |outs| && forall j :: 0 <= j < |outs| ==> Crunched(kindOf, dev, work[j], outs[j])
    requires MergedFrom(file, outs) && Dealt(file, shares) && WritesOf(kindOf, shares, writes)
    ensures b in Written(writes) <==> InWork(work, b) && b < |dev| && kindOf(dev[b]) != Unknown
    ensures b in Written(writes) ==> Written(writes)[b] == dev[b]
  {
    hide Crunched, Job.Done, FileChunks, WritesOf, Dealt, Written;
    var jobs := JobsOf(kindOf, dev, work, outs);
    assert Merged(file, jobs) by {
      forall c ensures c in file <==> exists j :: 0 <= j < |jobs| && c in jobs[j].chunks {
        if j :| 0 <= j < |jobs| && c in jobs[j].chunks {
          assert FileChunks(outs[j]).Some? && c in FileChunks(outs[j]).value;
        }
      }
    }
    assert Packed(jobs, b) <==> InWork(work, b);
    RoundTrip(kindOf, dev, jobs, file, shares, writes, b);
  }
}
