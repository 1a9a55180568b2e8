/** Copying the dirty blocks of a cache back to its origin: src/cache/writeback.rs. */
module Writebacks {
  import opened Wrappers
  import opened Sequences
  import opened Copiers
  import opened CopySafeties

  /** Where the cache's blocks belong on the origin device. */
  type Mappings = map<nat, nat>

  /** No other block tried belongs where c does. */
  ghost predicate Unshared(m: Mappings, tried: set<nat>, c: nat)
    requires c in m
  {
    forall a :: a in tried && a in m && a != c ==> m[a] != m[c]
  }

  /** No two of the blocks tried belong in one place. */
  ghost predicate Injective(m: Mappings, tried: set<nat>)
    requires tried <= m.Keys
  {
    forall c :: c in tried ==> Unshared(m, tried, c)
  }

  datatype Stats = Stats(readErrors: seq<CopyOp>, writeErrors: seq<CopyOp>)

  function Srcs(ops: seq<CopyOp>): set<nat> {
    set op | op in ops :: op.src
  }

  function Dsts(ops: seq<CopyOp>): set<nat> {
    set op | op in ops :: op.dst
  }

  ghost predicate Same(a: map<nat, Data>, b: map<nat, Data>, block: nat) {
    (block in a <==> block in b) && (block in a ==> a[block] == b[block])
  }

  /** A block's data is where it belongs. */
  ghost predicate Home(fast: map<nat, Data>, origin: map<nat, Data>, op: CopyOp) {
    op.src in fast && op.dst in origin && origin[op.dst] == fast[op.src]
  }

  /** No other op writes the block that this one writes. */
  ghost predicate SoleOp(ops: seq<CopyOp>, op: CopyOp) {
    forall o :: o in ops && o != op ==> o.dst != op.dst
  }

  ghost predicate DistinctOps(ops: seq<CopyOp>) {
    forall i, j :: 0 <= i < j < |ops| ==> ops[i] != ops[j]
  }

  /** What a copier promises: its errors are among the ops, every other op's data is copied if no other op writes its
      block, and no block but those of the ops is touched. */
  ghost predicate CopyDone(ops: seq<CopyOp>, fast: map<nat, Data>, before: map<nat, Data>, after: map<nat, Data>, stats: Stats) {
    && (forall op :: op in stats.readErrors ==> op in ops && op !in stats.writeErrors)
    && (forall op :: op in stats.writeErrors ==> op in ops)
    && (forall op :: op in ops && op !in stats.readErrors && op !in stats.writeErrors && SoleOp(ops, op) ==> Home(fast, after, op))
    && (forall b :: b !in Dsts(ops) ==> Same(before, after, b))
  }

  // ---- the pipeline keeps the promise

  ghost predicate HasFate(chunks: seq<seq<CopyOp>>, fate: Fates, n: nat, what: Fate, op: CopyOp) {
    exists k: nat, i: nat :: k < n && k < |chunks| && i < |chunks[k]| && chunks[k][i] == op && FateIs(fate, k, what)(i)
  }

  lemma {:induction false} PickMember(chunk: seq<CopyOp>, n: nat, p: nat -> bool, op: CopyOp)
    requires n <= |chunk|
    ensures op in Pick(chunk, n, p) <==> exists i: nat :: i < n && chunk[i] == op && p(i)
  {
    if n > 0 {
      PickMember(chunk, n - 1, p, op);
    }
  }

  lemma {:induction false} WithFateMember(chunks: seq<seq<CopyOp>>, n: nat, fate: Fates, what: Fate, op: CopyOp)
    requires n <= |chunks|
    ensures op in WithFate(chunks, n, fate, what) <==> HasFate(chunks, fate, n, what, op)
  {
    hide FateIs, Pick;
    if n > 0 {
      WithFateMember(chunks, n - 1, fate, what, op);
      PickMember(chunks[n - 1], |chunks[n - 1]|, FateIs(fate, n - 1, what), op);
    }
  }

  function Device(dev: map<Place, Data>, n: nat): map<nat, Data> {
    map p | p in dev && p.dev == n :: p.block := dev[p]
  }

  lemma {:induction false} AllOpsMember(chunks: seq<seq<CopyOp>>, op: CopyOp)
    ensures op in Flatten(chunks) <==> exists k: nat, i: nat :: k < |chunks| && i < |chunks[k]| && chunks[k][i] == op
    decreases |chunks|
  {
    if chunks != [] {
      var n := |chunks| - 1;
      AllOpsMember(chunks[..n], op);
      if op in chunks[n] {
        var i :| 0 <= i < |chunks[n]| && chunks[n][i] == op;
      }
      assert forall k :: 0 <= k < n ==> chunks[..n][k] == chunks[k];
    }
  }

  /** Between two devices, whatever the schedule, the two threads keep the copier's promise. */
  lemma PipelineDone(job: Job, ss: seq<State>)
    requires Run(job, ss) && Terminal(job, ss[|ss| - 1]) && !job.inFile && DistinctOps(Flatten(job.chunks))
    ensures var s, before := ss[|ss| - 1], ss[0].dev;
            CopyDone(Flatten(job.chunks), Device(before, 1), Device(before, 0), Device(s.dev, 0), Stats(s.readErrors, s.writeErrors))
  {
    assert ss != [];
    var s, before := ss[|ss| - 1], ss[0].dev;
    CopyOutcome(job, ss);
    hide Run, Terminal, WithFate, Flatten;
    FatesDone(job, before, s);
  }

  lemma FatesDone(job: Job, before: map<Place, Data>, s: State)
    requires DistinctOps(Flatten(job.chunks)) && !job.inFile && s.reading == |job.chunks| && OthersOk(job, before, s)
    requires s.readErrors == WithFate(job.chunks, |job.chunks|, s.fate, ReadFailed)
    requires s.writeErrors == WithFate(job.chunks, |job.chunks|, s.fate, WriteFailed)
    requires forall k: nat, i: nat :: job.Has(k, i) ==> (k, i) in s.fate && DevOk(job, before, s, k, i)
    ensures CopyDone(Flatten(job.chunks), Device(before, 1), Device(before, 0), Device(s.dev, 0), Stats(s.readErrors, s.writeErrors))
  {
    hide WithFate, Flatten, CopyDone;
    var ops := Flatten(job.chunks);
    var n := |job.chunks|;
    var fast, was, now := Device(before, 1), Device(before, 0), Device(s.dev, 0);
    forall op ensures op in s.readErrors ==> op in ops && op !in s.writeErrors {
      WithFateMember(job.chunks, n, s.fate, ReadFailed, op);
      WithFateMember(job.chunks, n, s.fate, WriteFailed, op);
      AllOpsMember(job.chunks, op);
      if op in s.readErrors && op in s.writeErrors {
        var k: nat, i: nat :| job.Has(k, i) && job.chunks[k][i] == op && FateIs(s.fate, k, ReadFailed)(i);
        var l: nat, j: nat :| job.Has(l, j) && job.chunks[l][j] == op && FateIs(s.fate, l, WriteFailed)(j);
        SameOp(job, k, i, l, j);
      }
    }
    forall op ensures op in s.writeErrors ==> op in ops {
      WithFateMember(job.chunks, n, s.fate, WriteFailed, op);
      AllOpsMember(job.chunks, op);
    }
    forall op | op in ops && op !in s.readErrors && op !in s.writeErrors && SoleOp(ops, op) ensures Home(fast, now, op) {
      WithFateMember(job.chunks, n, s.fate, ReadFailed, op);
      WithFateMember(job.chunks, n, s.fate, WriteFailed, op);
      AllOpsMember(job.chunks, op);
      CopiedHome(job, before, s, op);
    }
    forall b | b !in Dsts(ops) ensures Same(was, now, b) {
      if job.Target(s.reading, Place(0, b)) {
        TargetIsDst(job, b);
      }
    }
    assert CopyDone(ops, fast, was, now, Stats(s.readErrors, s.writeErrors)) by { Promise(ops, fast, was, now, s); }
  }

  lemma SameOp(job: Job, k: nat, i: nat, l: nat, j: nat)
    requires DistinctOps(Flatten(job.chunks)) && job.Has(k, i) && job.Has(l, j) && job.chunks[k][i] == job.chunks[l][j]
    ensures k == l && i == j
  {
    OpAt(job.chunks, k, i);
    OpAt(job.chunks, l, j);
    FlattenLonger(job.chunks, k, l);
    FlattenLonger(job.chunks, l, k);
  }

  /** Where op i of chunk k is in the list of all. */
  lemma {:induction false} OpAt(chunks: seq<seq<CopyOp>>, k: nat, i: nat)
    requires k < |chunks| && i < |chunks[k]|
    ensures |Flatten(chunks[..k])| + i < |Flatten(chunks)| && Flatten(chunks)[|Flatten(chunks[..k])| + i] == chunks[k][i]
  {
    FlattenPrefix(chunks, k);
    var before, all := Flatten(chunks[..k]), Flatten(chunks);
    assert all[..|before| + |chunks[k]|] == before + chunks[k];
    assert all[|before| + i] == (before + chunks[k])[|before| + i];
  }

  lemma {:induction false} FlattenLonger(chunks: seq<seq<CopyOp>>, k: nat, l: nat)
    requires k < |chunks| && l < |chunks|
    ensures k < l ==> |Flatten(chunks[..k])| + |chunks[k]| <= |Flatten(chunks[..l])|
    decreases l
  {
    if k < l {
      FlattenPrefix(chunks, l - 1);
      FlattenLonger(chunks, k, l - 1);
    }
  }

  lemma TargetIsDst(job: Job, b: nat)
    requires job.Target(|job.chunks|, Place(0, b))
    ensures b in Dsts(Flatten(job.chunks))
  {
    var k: nat, i: nat :| k < |job.chunks| && job.Has(k, i) && job.To(k, i) == Place(0, b);
    AllOpsMember(job.chunks, job.chunks[k][i]);
    assert job.chunks[k][i] in Flatten(job.chunks);
  }

  lemma Promise(ops: seq<CopyOp>, fast: map<nat, Data>, was: map<nat, Data>, now: map<nat, Data>, s: State)
    requires forall op :: op in s.readErrors ==> op in ops && op !in s.writeErrors
    requires forall op :: op in s.writeErrors ==> op in ops
    requires forall op :: op in ops && op !in s.readErrors && op !in s.writeErrors && SoleOp(ops, op) ==> Home(fast, now, op)
    requires forall b :: b !in Dsts(ops) ==> Same(was, now, b)
    ensures CopyDone(ops, fast, was, now, Stats(s.readErrors, s.writeErrors))
  {
  }

  lemma CopiedHome(job: Job, before: map<Place, Data>, s: State, op: CopyOp)
    requires !job.inFile && exists k: nat, i: nat :: job.Has(k, i) && job.chunks[k][i] == op
    requires DistinctOps(Flatten(job.chunks)) && SoleOp(Flatten(job.chunks), op)
    requires !HasFate(job.chunks, s.fate, |job.chunks|, ReadFailed, op)
    requires !HasFate(job.chunks, s.fate, |job.chunks|, WriteFailed, op)
    requires forall k: nat, i: nat :: job.Has(k, i) ==> (k, i) in s.fate && DevOk(job, before, s, k, i)
    ensures Home(Device(before, 1), Device(s.dev, 0), op)
  {
    var k: nat, i: nat :| job.Has(k, i) && job.chunks[k][i] == op;
    assert DevOk(job, before, s, k, i);
    assert !FateIs(s.fate, k, ReadFailed)(i) && !FateIs(s.fate, k, WriteFailed)(i);
    assert Known(s, k, i, Copied);
    IsSole(job, k, i);
    assert job.From(k, i) == Place(1, op.src) && job.To(k, i) == Place(0, op.dst);
  }

  lemma {:induction false} IsSole(job: Job, k: nat, i: nat)
    requires job.Has(k, i) && !job.inFile && DistinctOps(Flatten(job.chunks)) && SoleOp(Flatten(job.chunks), job.chunks[k][i])
    ensures job.Sole(k, i) && job.Stable(k, i)
  {
    forall l: nat, j: nat | job.Has(l, j) && (l, j) != (k, i) ensures job.To(l, j) != job.To(k, i) {
      if job.chunks[l][j] == job.chunks[k][i] {
        SameOp(job, k, i, l, j);
      }
      AllOpsMember(job.chunks, job.chunks[l][j]);
    }
  }

  // ---- the stages

  class Devices {
    const fast: map<nat, Data>
    var origin: map<nat, Data>

    constructor (fast: map<nat, Data>, origin: map<nat, Data>)
      ensures this.fast == fast && this.origin == origin
    {
      this.fast, this.origin := fast, origin;
    }

    /** Any copier that writes one op at a time: it may fail as a whole, fail on any op, and leave anything in the
        block of a failed write. */
    method Copy(ops: seq<CopyOp>) returns (stats: Option<Stats>)
      requires DistinctOps(ops)
      modifies this
      ensures stats.Some? ==> CopyDone(ops, fast, old(origin), origin, stats.value)
      ensures forall b :: b !in Dsts(ops) ==> Same(old(origin), origin, b)
    {
      var readErrors: seq<CopyOp>, writeErrors: seq<CopyOp> := [], [];
      var alive: bool := *;
      for i := 0 to |ops|
        invariant forall op :: op in readErrors ==> op in ops[..i] && op !in writeErrors
        invariant forall op :: op in writeErrors ==> op in ops[..i]
        invariant forall op :: op in ops[..i] && op !in readErrors && op !in writeErrors && SoleOp(ops, op) ==> Home(fast, origin, op)
        invariant forall b :: b !in Dsts(ops) ==> Same(old(origin), origin, b)
      {
        var op := ops[i];
        assert op in ops && op.dst in Dsts(ops) && ops[..i + 1] == ops[..i] + [op];
        assert op !in ops[..i];
        var readOk: bool, writeOk: bool, torn: Data := *, *, *;
        if !readOk || op.src !in fast {
          readErrors := readErrors + [op];
        } else if !writeOk {
          writeErrors, origin := writeErrors + [op], origin[op.dst := torn];
        } else {
          origin := origin[op.dst := fast[op.src]];
        }
      }
      assert ops[..|ops|] == ops;
      stats := if alive then Some(Stats(readErrors, writeErrors)) else None;
    }
  }

  /** The op for each of some cache blocks. */
  function OpsFor(blocks: seq<nat>, m: Mappings): (ops: seq<CopyOp>)
    requires forall c :: c in blocks ==> c in m
    ensures |ops| == |blocks| && forall i :: 0 <= i < |ops| ==> ops[i] == CopyOp(blocks[i], m[blocks[i]])
  {
    seq(|blocks|, i requires 0 <= i < |blocks| => CopyOp(blocks[i], m[blocks[i]]))
  }

  /** What became of the cache blocks tried. */
  datatype Outcome = Outcome(cleaned: set<nat>, readFailed: set<nat>, writeFailed: set<nat>) {
    function Failed(): set<nat> {
      readFailed + writeFailed
    }

    /** Each block met one fate; the data of the cleaned ones is at home, unless another block that was tried belongs
        in the same place; and only the blocks tried were touched. */
    ghost predicate Ok(tried: set<nat>, m: Mappings, fast: map<nat, Data>, before: map<nat, Data>, after: map<nat, Data>) {
      && cleaned + Failed() == tried && cleaned !! Failed() && readFailed !! writeFailed && tried <= m.Keys
      && (forall c :: c in cleaned && Unshared(m, tried, c) ==> Home(fast, after, CopyOp(c, m[c])))
      && (forall b :: !Targets(m, tried, b) ==> Same(before, after, b))
    }

    /** A batch's blocks are taken to be clean, and then its errors are taken out. */
    function With(batch: seq<nat>, stats: Stats): Outcome {
      Outcome(cleaned + Members(batch) - Srcs(stats.readErrors) - Srcs(stats.writeErrors),
        readFailed + Srcs(stats.readErrors), writeFailed + Srcs(stats.writeErrors))
    }
  }

  ghost predicate Targets(m: Mappings, blocks: set<nat>, b: nat) {
    exists c :: c in blocks && c in m && m[c] == b
  }

  lemma OpsDistinct(batch: seq<nat>, m: Mappings)
    requires NoRepeats(batch) && forall c :: c in batch ==> c in m
    ensures var ops := OpsFor(batch, m);
            && DistinctOps(ops) && Srcs(ops) == Members(batch)
            && (forall op :: op in ops ==> op.src in m && op == CopyOp(op.src, m[op.src]))
            && (forall c :: c in batch ==> CopyOp(c, m[c]) in ops)
            && (forall b :: b in Dsts(ops) <==> Targets(m, Members(batch), b))
  {
    var ops := OpsFor(batch, m);
    forall c | c in batch ensures CopyOp(c, m[c]) in ops && c in Srcs(ops) {
      var i :| 0 <= i < |batch| && batch[i] == c;
      assert ops[i] == CopyOp(c, m[c]) && ops[i] in ops;
    }
    forall b | Targets(m, Members(batch), b) ensures b in Dsts(ops) {
      var c :| c in Members(batch) && m[c] == b;
      assert CopyOp(c, m[c]) in ops;
    }
    forall b | b in Dsts(ops) ensures Targets(m, Members(batch), b) {
      var op :| op in ops && op.dst == b;
      assert op.src in Members(batch) && m[op.src] == b;
    }
  }

  /** One batch, after those tried before. */
  lemma BatchOk(o: Outcome, batch: seq<nat>, stats: Stats, tried: set<nat>, m: Mappings, fast: map<nat, Data>,
                before: map<nat, Data>, mid: map<nat, Data>, after: map<nat, Data>)
    requires NoRepeats(batch) && (forall c :: c in batch ==> c in m) && Members(batch) !! tried
    requires o.Ok(tried, m, fast, before, mid) && CopyDone(OpsFor(batch, m), fast, mid, after, stats)
    ensures o.With(batch, stats).Ok(tried + Members(batch), m, fast, before, after)
  {
    var ops, o' := OpsFor(batch, m), o.With(batch, stats);
    OpsDistinct(batch, m);
    hide OpsFor, Targets, Home, Same, Unshared;
    assert Srcs(stats.readErrors) <= Members(batch) && Srcs(stats.writeErrors) <= Members(batch);
    forall c | c in Srcs(stats.readErrors) ensures c !in Srcs(stats.writeErrors) {
      assert CopyOp(c, m[c]) in stats.readErrors;
    }
    forall c | c in o'.cleaned && Unshared(m, tried + Members(batch), c) ensures Home(fast, after, CopyOp(c, m[c])) {
      if c in batch {
        IsSoleOp(batch, tried, m, c);
      } else {
        StillHome(batch, tried, m, fast, mid, after, c);
      }
    }
    forall b | !Targets(m, tried + Members(batch), b) ensures Same(before, after, b) {
      Untouched(batch, tried, m, b);
      SameSame(before, mid, after, b);
    }
  }

  lemma StillHome(batch: seq<nat>, tried: set<nat>, m: Mappings, fast: map<nat, Data>, mid: map<nat, Data>, after: map<nat, Data>, c: nat)
    requires c in m && c !in batch && Unshared(m, tried + Members(batch), c) && (forall b :: b in batch ==> b in m)
    requires Unshared(m, tried, c) ==> Home(fast, mid, CopyOp(c, m[c]))
    requires forall b :: b !in Dsts(OpsFor(batch, m)) ==> Same(mid, after, b)
    ensures Home(fast, after, CopyOp(c, m[c]))
  {
    assert m[c] !in Dsts(OpsFor(batch, m));
  }

  lemma {:induction false} IsSoleOp(batch: seq<nat>, tried: set<nat>, m: Mappings, c: nat)
    requires (forall b :: b in batch ==> b in m) && c in batch && Unshared(m, tried + Members(batch), c)
    ensures CopyOp(c, m[c]) in OpsFor(batch, m) && SoleOp(OpsFor(batch, m), CopyOp(c, m[c]))
  {
    var i :| 0 <= i < |batch| && batch[i] == c;
    assert OpsFor(batch, m)[i] == CopyOp(c, m[c]);
  }

  lemma Untouched(batch: seq<nat>, tried: set<nat>, m: Mappings, b: nat)
    requires !Targets(m, tried + Members(batch), b)
    ensures !Targets(m, tried, b) && !Targets(m, Members(batch), b)
  {
  }

  lemma SameSame(a: map<nat, Data>, b: map<nat, Data>, c: map<nat, Data>, block: nat)
    requires Same(a, b, block) && Same(b, c, block)
    ensures Same(a, c, block)
  {
  }

  /** `run_`: copies batch after batch. */
  method RunBatches(dev: Devices, batches: seq<seq<nat>>, m: Mappings) returns (r: Option<Outcome>)
    requires (forall c :: c in Flatten(batches) ==> c in m) && NoRepeats(Flatten(batches))
    modifies dev
    ensures r.Some? ==> r.value.Ok(Members(Flatten(batches)), m, dev.fast, old(dev.origin), dev.origin)
  {
    hide CopyDone, Outcome.Ok;
    var o := Outcome({}, {}, {});
    NothingTried(m, dev.fast, dev.origin);
    for i := 0 to |batches|
      invariant o.Ok(Members(Flatten(batches[..i])), m, dev.fast, old(dev.origin), dev.origin)
    {
      ghost var tried := Flatten(batches[..i]);
      NextBatch(batches, i, m);
      var ops := OpsFor(batches[i], m);
      OpsDistinct(batches[i], m);
      ghost var mid := dev.origin;
      var stats := dev.Copy(ops);
      if stats.None? {
        return None;
      }
      BatchOk(o, batches[i], stats.value, Members(tried), m, dev.fast, old(dev.origin), mid, dev.origin);
      o := Absorb(o, batches[i], stats.value);
    }
    assert batches[..|batches|] == batches;
    r := Some(o);
  }

  lemma NothingTried(m: Mappings, fast: map<nat, Data>, origin: map<nat, Data>)
    ensures Outcome({}, {}, {}).Ok(Members(Flatten([])), m, fast, origin, origin)
  {
  }

  lemma {:induction false} NextBatch(batches: seq<seq<nat>>, i: nat, m: Mappings)
    requires i < |batches| && NoRepeats(Flatten(batches)) && forall c :: c in Flatten(batches) ==> c in m
    ensures NoRepeats(batches[i]) && (forall c :: c in batches[i] ==> c in m)
    ensures Members(batches[i]) !! Members(Flatten(batches[..i]))
    ensures Members(Flatten(batches[..i + 1])) == Members(Flatten(batches[..i])) + Members(batches[i])
  {
    FlattenPrefix(batches, i);
    Parts(Flatten(batches[..i]), batches[i], Flatten(batches));
    hide NoRepeats;
    var a, b := Flatten(batches[..i]), batches[i];
    assert Members(a + b) == Members(a) + Members(b);
  }

  lemma Parts(a: seq<nat>, b: seq<nat>, all: seq<nat>)
    requires a + b <= all && NoRepeats(all)
    ensures NoRepeats(b) && Members(a) !! Members(b) && forall c :: c in b ==> c in all
  {
    assert forall k :: 0 <= k < |b| ==> b[k] == all[|a| + k];
    assert forall k :: 0 <= k < |a| ==> a[k] == all[k];
    forall c | c in b ensures c in all && c !in a {
      var k :| 0 <= k < |b| && b[k] == c;
      assert all[|a| + k] == c;
    }
  }

  /** The loops over a batch's ops and over its errors. */
  method Absorb(o: Outcome, batch: seq<nat>, stats: Stats) returns (o': Outcome)
    ensures o' == o.With(batch, stats)
  {
    var cleaned := o.cleaned;
    for i := 0 to |batch|
      invariant cleaned == o.cleaned + Members(batch[..i])
    {
      cleaned := cleaned + {batch[i]};
    }
    assert batch[..|batch|] == batch;
    var readFailed, writeFailed := o.readFailed, o.writeFailed;
    ghost var assumed := cleaned;
    for i := 0 to |stats.readErrors|
      invariant cleaned == assumed - Srcs(stats.readErrors[..i]) && readFailed == o.readFailed + Srcs(stats.readErrors[..i])
    {
      cleaned, readFailed := cleaned - {stats.readErrors[i].src}, readFailed + {stats.readErrors[i].src};
      SrcsPush(stats.readErrors, i);
    }
    assert stats.readErrors[..|stats.readErrors|] == stats.readErrors;
    ghost var left := cleaned;
    for i := 0 to |stats.writeErrors|
      invariant cleaned == left - Srcs(stats.writeErrors[..i]) && writeFailed == o.writeFailed + Srcs(stats.writeErrors[..i])
    {
      cleaned, writeFailed := cleaned - {stats.writeErrors[i].src}, writeFailed + {stats.writeErrors[i].src};
      SrcsPush(stats.writeErrors, i);
    }
    assert stats.writeErrors[..|stats.writeErrors|] == stats.writeErrors;
    o' := Outcome(cleaned, readFailed, writeFailed);
  }

  lemma SrcsPush(ops: seq<CopyOp>, i: nat)
    requires i < |ops|
    ensures Srcs(ops[..i + 1]) == Srcs(ops[..i]) + {ops[i].src}
  {
    assert ops[..i + 1] == ops[..i] + [ops[i]];
    assert ops[i] in ops[..i + 1];
  }

  const BATCH_SIZE: nat := 1_000_000

  /** The blocks of a part, by destination. */
  ghost predicate BatchOf(batch: seq<nat>, part: seq<nat>, m: Mappings) {
    multiset(batch) == multiset(part) && ByDestination(batch, m)
  }

  ghost predicate ByDestination(batch: seq<nat>, m: Mappings) {
    forall i, j :: 0 <= i < j < |batch| ==> batch[i] in m && batch[j] in m && m[batch[i]] <= m[batch[j]]
  }

  /** The blocks in order, cut into parts that are full but for the last, which is not. */
  ghost predicate Cut(parts: seq<seq<nat>>, blocks: seq<nat>) {
    && Flatten(parts) == blocks && parts != [] && |parts[|parts| - 1]| < BATCH_SIZE
    && forall i :: 0 <= i < |parts| - 1 ==> |parts[i]| == BATCH_SIZE
  }

  /** `CopyOpBatcher`: sends a batch whenever it is full, and what is left, even if that is nothing, at the end. */
  method MakeBatches(blocks: seq<nat>, m: Mappings) returns (batches: seq<seq<nat>>, ghost parts: seq<seq<nat>>)
    requires forall c :: c in blocks ==> c in m
    ensures Cut(parts, blocks) && |batches| == |parts| && forall i :: 0 <= i < |parts| ==> BatchOf(batches[i], parts[i], m)
    ensures multiset(Flatten(batches)) == multiset(blocks)
  {
    hide BatchOf, Flatten;
    assert Flatten<nat>([]) == [] by { NoParts(); }
    batches, parts := [], [];
    var ops: seq<nat> := [];
    for i := 0 to |blocks|
      invariant Flatten(parts) + ops == blocks[..i] && |ops| < BATCH_SIZE && forall c :: c in ops ==> c in m
      invariant |batches| == |parts| && forall i :: 0 <= i < |parts| ==> BatchOf(batches[i], parts[i], m)
      invariant forall i :: 0 <= i < |parts| ==> |parts[i]| == BATCH_SIZE
    {
      ops := ops + [blocks[i]];
      if |ops| >= BATCH_SIZE {
        FlattenPush(parts, ops);
        var batch := SendOps(ops, m);
        batches, parts, ops := batches + [batch], parts + [ops], [];
      }
    }
    assert blocks[..|blocks|] == blocks;
    FlattenPush(parts, ops);
    var batch := SendOps(ops, m);
    batches, parts := batches + [batch], parts + [ops];
    SameBlocks(batches, parts, m);
  }

  lemma {:induction false} NoParts()
    ensures Flatten<nat>([]) == []
  {
  }

  method SendOps(ops: seq<nat>, m: Mappings) returns (batch: seq<nat>)
    requires forall c :: c in ops ==> c in m
    ensures BatchOf(batch, ops, m)
  {
    batch := SortBy(ops, c => if c in m then m[c] else 0);
    assert forall c :: c in multiset(batch) ==> c in multiset(ops);
    assert forall i :: 0 <= i < |batch| ==> batch[i] in multiset(batch);
  }

  lemma {:induction false} SameBlocks(batches: seq<seq<nat>>, parts: seq<seq<nat>>, m: Mappings)
    requires |batches| == |parts| && forall i :: 0 <= i < |parts| ==> BatchOf(batches[i], parts[i], m)
    ensures multiset(Flatten(batches)) == multiset(Flatten(parts))
  {
    if parts != [] {
      var k := |parts| - 1;
      SameBlocks(batches[..k], parts[..k], m);
      assert BatchOf(batches[k], parts[k], m);
    }
  }

  /** A list in another order. */
  lemma {:induction false} Reordered(a: seq<nat>, b: seq<nat>)
    requires multiset(a) == multiset(b) && NoRepeats(b)
    ensures NoRepeats(a) && Members(a) == Members(b)
  {
    assert forall c :: c in a <==> c in multiset(a);
    assert forall c :: c in b <==> c in multiset(b);
    forall i, j | 0 <= i < j < |a| ensures a[i] != a[j] {
      OnceEach(b, a[i]);
      assert a == a[..j] + a[j..] && a[i] in a[..j] && a[j] in a[j..];
      assert multiset(a)[a[j]] == multiset(a[..j])[a[j]] + multiset(a[j..])[a[j]];
    }
  }

  lemma {:induction false} OnceEach(b: seq<nat>, c: nat)
    requires NoRepeats(b)
    ensures multiset(b)[c] <= 1
    decreases |b|
  {
    if b != [] {
      var k := |b| - 1;
      assert b == b[..k] + [b[k]];
      OnceEach(b[..k], c);
      assert c == b[k] ==> c !in b[..k];
    }
  }

  method CopyBlocks(dev: Devices, blocks: seq<nat>, m: Mappings) returns (r: Option<Outcome>)
    requires NoRepeats(blocks) && forall c :: c in blocks ==> c in m
    modifies dev
    ensures r.Some? ==> r.value.Ok(Members(blocks), m, dev.fast, old(dev.origin), dev.origin)
  {
    hide Outcome.Ok;
    var batches;
    ghost var parts;
    batches, parts := MakeBatches(blocks, m);
    Reordered(Flatten(batches), blocks);
    forall c | c in Flatten(batches) ensures c in m {
      assert c in Members(Flatten(batches));
    }
    r := RunBatches(dev, batches, m);
  }

  /** A bitmap's members, in some order. */
  method Listed(bs: set<nat>) returns (list: seq<nat>)
    ensures Members(list) == bs && NoRepeats(list)
  {
    list := [];
    var left := bs;
    while left != {}
      invariant NoRepeats(list) && Members(list) !! left && Members(list) + left == bs
      decreases |left|
    {
      var b :| b in left;
      assert b !in Members(list);
      assert Members(list + [b]) == Members(list) + {b};
      list, left := list + [b], left - {b};
    }
  }

  /** A later stage that tries what is left to try adds to what is clean, and replaces the failures. */
  lemma StageOk(o: Outcome, c: Outcome, tried: set<nat>, m: Mappings, fast: map<nat, Data>,
                before: map<nat, Data>, mid: map<nat, Data>, after: map<nat, Data>)
    requires o.Ok(tried, m, fast, before, mid) && c.Ok(o.Failed(), m, fast, mid, after)
    ensures Outcome(o.cleaned + c.cleaned, c.readFailed, c.writeFailed).Ok(tried, m, fast, before, after)
  {
    var o' := Outcome(o.cleaned + c.cleaned, c.readFailed, c.writeFailed);
    forall x | x in o'.cleaned && Unshared(m, tried, x) ensures Home(fast, after, CopyOp(x, m[x])) {
      if x in o.cleaned {
        assert !Targets(m, o.Failed(), m[x]);
      } else {
        assert Unshared(m, o.Failed(), x);
      }
    }
    forall b | !Targets(m, tried, b) ensures Same(before, after, b) {
      assert !Targets(m, o.Failed(), b);
    }
  }

  method Retry(dev: Devices, o: Outcome, m: Mappings, ghost tried: set<nat>, ghost before: map<nat, Data>)
    returns (r: Option<Outcome>)
    requires o.Ok(tried, m, dev.fast, before, dev.origin)
    modifies dev
    ensures r.Some? ==> r.value.Ok(tried, m, dev.fast, before, dev.origin)
  {
    var failed := Listed(o.readFailed + o.writeFailed);
    assert forall c :: c in failed ==> c in Members(failed);
    ghost var mid := dev.origin;
    var c := CopyBlocks(dev, failed, m);
    if c.None? {
      return None;
    }
    hide Outcome.Ok;
    StageOk(o, c.value, tried, m, dev.fast, before, mid, dev.origin);
    r := Some(Outcome(o.cleaned + c.value.cleaned, c.value.readFailed, c.value.writeFailed));
  }

  /** All the stages.  In the end the blocks to copy are divided into those cleaned and those that failed, and the
      data of every cleaned block that shares its place with no other is at home. */
  method CopyDirtyBlocks(dev: Devices, dirty: seq<nat>, m: Mappings, retryCount: nat) returns (r: Option<Outcome>)
    requires NoRepeats(dirty) && forall c :: c in dirty ==> c in m
    modifies dev
    ensures r.Some? ==> r.value.Ok(Members(dirty), m, dev.fast, old(dev.origin), dev.origin)
  {
    hide Outcome.Ok;
    r := CopyBlocks(dev, dirty, m);
    if r.None? {
      return;
    }
    if r.value.readFailed != {} || r.value.writeFailed != {} {
      r := Retry(dev, r.value, m, Members(dirty), old(dev.origin));
      if r.None? {
        return;
      }
    }
    var retries := 0;
    while (r.value.readFailed != {} || r.value.writeFailed != {}) && retries < retryCount
      invariant r.Some? && r.value.Ok(Members(dirty), m, dev.fast, old(dev.origin), dev.origin)
    {
      r := Retry(dev, r.value, m, Members(dirty), old(dev.origin));
      if r.None? {
        return;
      }
      retries := retries + 1;
    }
  }

  // ---- when every cleaned block is at home

  /** The two threads, given the blocks tried, leave every block that they count as copied at home in every run, from
      any contents, if and only if no two of the blocks tried belong in one place. */
  lemma {:induction false} SafeWhenInjective(job: Job, tried: seq<nat>, m: Mappings, dev: map<Place, Data>)
    requires NoRepeats(tried) && (forall c :: c in tried ==> c in m)
    requires !job.inFile && Flatten(job.chunks) == OpsFor(tried, m) && job.Inside(dev)
    ensures (forall ss: seq<State> :: Whole(job, dev, ss) ==> AllHome(job, ss)) <==> Injective(m, Members(tried))
  {
    SafeExactly(job, dev);
    OpsDistinct(tried, m);
    hide Whole, AllHome;
    if job.Separate() {
      forall c, a | c in Members(tried) && a in Members(tried) && a != c ensures m[a] != m[c] {
        var i :| 0 <= i < |tried| && tried[i] == c;
        var j :| 0 <= j < |tried| && tried[j] == a;
        PlacesDiffer(job, OpsFor(tried, m), i, j);
      }
    }
    if Injective(m, Members(tried)) {
      forall k: nat, i: nat | job.Has(k, i) ensures job.Sole(k, i) && job.Stable(k, i) {
        var op := job.chunks[k][i];
        AllOpsMember(job.chunks, op);
        assert Unshared(m, Members(tried), op.src);
        IsSoleOp(tried, {}, m, op.src);
        IsSole(job, k, i);
      }
    }
  }

  lemma {:induction false} PlacesDiffer(job: Job, ops: seq<CopyOp>, i: nat, j: nat)
    requires job.Separate() && ops == Flatten(job.chunks) && i < |ops| && j < |ops| && ops[i] != ops[j]
    ensures ops[i].dst != ops[j].dst
  {
    AllOpsMember(job.chunks, ops[i]);
    AllOpsMember(job.chunks, ops[j]);
    var k: nat, a: nat :| k < |job.chunks| && a < |job.chunks[k]| && job.chunks[k][a] == ops[i];
    var l: nat, b: nat :| l < |job.chunks| && b < |job.chunks[l]| && job.chunks[l][b] == ops[j];
    assert job.Sole(k, a) && job.Has(l, b);
    assert job.To(k, a) != job.To(l, b);
  }
}
