/** When a whole write back is safe, with batches and retries: src/cache/writeback.rs. */
module CopyStages {
  import opened Wrappers
  import opened Sequences
  import opened Copiers
  import opened CopySafeties
  import opened Writebacks

  /** Both devices. */
  function Both(fast: map<nat, Data>, origin: map<nat, Data>): map<Place, Data> {
    (map b | b in fast :: Place(1, b) := fast[b]) + (map b | b in origin :: Place(0, b) := origin[b])
  }

  lemma {:induction false} BothAre(fast: map<nat, Data>, origin: map<nat, Data>)
    ensures Device(Both(fast, origin), 1) == fast && Device(Both(fast, origin), 0) == origin
  {
    var dev := Both(fast, origin);
    hide Both;
    forall b: nat
      ensures (b in Device(dev, 1) <==> b in fast) && (b in fast ==> Device(dev, 1)[b] == fast[b])
      ensures (b in Device(dev, 0) <==> b in origin) && (b in origin ==> Device(dev, 0)[b] == origin[b])
    {
      BothAt(fast, origin, b);
    }
  }

  lemma {:induction false} BothAt(fast: map<nat, Data>, origin: map<nat, Data>, b: nat)
    ensures var dev := Both(fast, origin);
            && (Place(1, b) in dev <==> b in fast) && (b in fast ==> dev[Place(1, b)] == fast[b])
            && (Place(0, b) in dev <==> b in origin) && (b in origin ==> dev[Place(0, b)] == origin[b])
  {
  }

  type Cutter = seq<CopyOp> -> seq<seq<CopyOp>>

  type Planner = set<nat> -> seq<seq<nat>>

  /** How the ops of a batch are cut into chunks: in any way that keeps them, in order. */
  ghost predicate Cuts(cut: Cutter) {
    forall ops: seq<CopyOp> :: Flatten(cut(ops)) == ops
  }

  ghost predicate CopyRunIs(cut: Cutter, ops: seq<CopyOp>, fast: map<nat, Data>, before: map<nat, Data>,
                            stats: Stats, after: map<nat, Data>, ss: seq<State>)
  {
    && Whole(Job(cut(ops), false), Both(fast, before), ss)
    && var s := ss[|ss| - 1]; stats == Stats(s.readErrors, s.writeErrors) && after == Device(s.dev, 0)
  }

  /** One call of the copier: any run of its two threads. */
  ghost predicate CopyRun(cut: Cutter, ops: seq<CopyOp>, fast: map<nat, Data>, before: map<nat, Data>,
                          stats: Stats, after: map<nat, Data>)
  {
    exists ss: seq<State> :: CopyRunIs(cut, ops, fast, before, stats, after, ss)
  }

  /** `run_` over some batches, each after the other. */
  ghost predicate BatchesRun(cut: Cutter, m: Mappings, batches: seq<seq<nat>>, fast: map<nat, Data>,
                             before: map<nat, Data>, o: Outcome, after: map<nat, Data>)
  {
    if batches == [] then o == Outcome({}, {}, {}) && after == before
    else
      var k := |batches| - 1;
      (forall c :: c in batches[k] ==> c in m)
      && exists o1: Outcome, mid: map<nat, Data>, stats: Stats ::
           && BatchesRun(cut, m, batches[..k], fast, before, o1, mid)
           && CopyRun(cut, OpsFor(batches[k], m), fast, mid, stats, after) && o == o1.With(batches[k], stats)
  }

  lemma {:induction false} RunIsDone(cut: Cutter, ops: seq<CopyOp>, fast: map<nat, Data>, before: map<nat, Data>,
                                     stats: Stats, after: map<nat, Data>)
    requires Cuts(cut) && CopyRun(cut, ops, fast, before, stats, after) && DistinctOps(ops)
    ensures CopyDone(ops, fast, before, after, stats)
  {
    var ss :| CopyRunIs(cut, ops, fast, before, stats, after, ss);
    BothAre(fast, before);
    hide Both, CopyDone, Run, Terminal;
    PipelineDone(Job(cut(ops), false), ss);
  }

  lemma {:induction false} BatchesOk(cut: Cutter, m: Mappings, batches: seq<seq<nat>>, fast: map<nat, Data>,
                                     before: map<nat, Data>, o: Outcome, after: map<nat, Data>)
    requires Cuts(cut) && NoRepeats(Flatten(batches)) && forall c :: c in Flatten(batches) ==> c in m
    requires BatchesRun(cut, m, batches, fast, before, o, after)
    ensures o.Ok(Members(Flatten(batches)), m, fast, before, after)
  {
    hide CopyRun, CopyDone, Cuts, Outcome.Ok, Outcome.With;
    if batches == [] {
      NothingTried(m, fast, before);
    } else {
      var k := |batches| - 1;
      var o1: Outcome, mid: map<nat, Data>, stats: Stats :|
        && BatchesRun(cut, m, batches[..k], fast, before, o1, mid)
        && CopyRun(cut, OpsFor(batches[k], m), fast, mid, stats, after) && o == o1.With(batches[k], stats);
      FewerBatches(batches, m);
      BatchesOk(cut, m, batches[..k], fast, before, o1, mid);
      OpsDistinct(batches[k], m);
      RunIsDone(cut, OpsFor(batches[k], m), fast, mid, stats, after);
      BatchOk(o1, batches[k], stats, Members(Flatten(batches[..k])), m, fast, before, mid, after);
    }
  }

  lemma {:induction false} FewerBatches(batches: seq<seq<nat>>, m: Mappings)
    requires batches != [] && NoRepeats(Flatten(batches)) && forall c :: c in Flatten(batches) ==> c in m
    ensures var k := |batches| - 1;
            && NoRepeats(Flatten(batches[..k])) && (forall c :: c in Flatten(batches[..k]) ==> c in m)
            && NoRepeats(batches[k]) && (forall c :: c in batches[k] ==> c in m)
            && Members(batches[k]) !! Members(Flatten(batches[..k]))
            && Members(Flatten(batches)) == Members(Flatten(batches[..k])) + Members(batches[k])
  {
    var k := |batches| - 1;
    NextBatch(batches, k, m);
    assert batches[..k + 1] == batches;
    var a, all := Flatten(batches[..k]), Flatten(batches);
    assert all == a + batches[k];
    assert forall i :: 0 <= i < |a| ==> a[i] == all[i];
  }

  // ---- runs that go wrong

  /** Every block there is. */
  ghost predicate There(m: Mappings, blocks: set<nat>, fast: map<nat, Data>, origin: map<nat, Data>) {
    forall c :: c in blocks ==> c in m && c in fast && m[c] in origin
  }

  lemma {:induction false} OpsInside(cut: Cutter, ops: seq<CopyOp>, fast: map<nat, Data>, origin: map<nat, Data>)
    requires Cuts(cut) && forall op :: op in ops ==> op.src in fast && op.dst in origin
    ensures Job(cut(ops), false).Inside(Both(fast, origin))
  {
    var job := Job(cut(ops), false);
    assert Flatten(job.chunks) == ops;
    hide Cuts, Flatten, Both;
    forall k: nat, i: nat | job.Has(k, i) ensures job.From(k, i) in Both(fast, origin) && job.To(k, i) in Both(fast, origin) {
      AllOpsMember(job.chunks, job.chunks[k][i]);
      BothAt(fast, origin, job.chunks[k][i].src);
      BothAt(fast, origin, job.chunks[k][i].dst);
    }
  }

  /** What the statistics of a planned run say. */
  lemma {:induction false} PlannedStats(job: Job, dev: map<Place, Data>, plan: Plan, ss: seq<State>)
    requires Whole(job, dev, ss) && AsPlanned(plan, ss[|ss| - 1])
    ensures ss != []
    ensures var s := ss[|ss| - 1];
            && s.readErrors == []
            && (plan.l >= |job.chunks| ==> s.writeErrors == [])
            && (job.Has(plan.l, plan.j) ==> forall op :: op in s.writeErrors ==> op == job.chunks[plan.l][plan.j])
            && (job.Has(plan.l, plan.j) ==> job.chunks[plan.l][plan.j] in s.writeErrors)
            && s.dev.Keys == dev.Keys && forall p :: p in dev && !job.Target(|job.chunks|, p) ==> s.dev[p] == dev[p]
  {
    var s := ss[|ss| - 1];
    CopyOutcome(job, ss);
    hide Run, WithFate, AsPlanned, DevOk;
    forall op ensures op !in s.readErrors && (op in s.writeErrors <==> job.Has(plan.l, plan.j) && op == job.chunks[plan.l][plan.j]) {
      PlannedFate(job, plan, s, op);
    }
    Empty(s.readErrors);
    if plan.l >= |job.chunks| {
      Empty(s.writeErrors);
    }
  }

  lemma {:induction false} PlannedFate(job: Job, plan: Plan, s: State, op: CopyOp)
    requires AsPlanned(plan, s) && forall k: nat, i: nat :: job.Has(k, i) ==> (k, i) in s.fate
    requires s.readErrors == WithFate(job.chunks, |job.chunks|, s.fate, ReadFailed)
    requires s.writeErrors == WithFate(job.chunks, |job.chunks|, s.fate, WriteFailed)
    ensures op !in s.readErrors && (op in s.writeErrors <==> job.Has(plan.l, plan.j) && op == job.chunks[plan.l][plan.j])
  {
    hide WithFate;
    WithFateMember(job.chunks, |job.chunks|, s.fate, ReadFailed, op);
    WithFateMember(job.chunks, |job.chunks|, s.fate, WriteFailed, op);
    if job.Has(plan.l, plan.j) {
      assert (plan.l, plan.j) in s.fate;
      assert FateIs(s.fate, plan.l, WriteFailed)(plan.j);
    }
  }

  lemma {:induction false} Empty(ops: seq<CopyOp>)
    ensures (forall op :: op !in ops) ==> ops == []
  {
    assert ops != [] ==> ops[0] in ops;
  }

  lemma {:induction false} Untouched(job: Job, ops: seq<CopyOp>, before: map<Place, Data>, after: map<Place, Data>, b: nat)
    requires Flatten(job.chunks) == ops && !job.inFile && after.Keys == before.Keys
    requires forall p :: p in before && !job.Target(|job.chunks|, p) ==> after[p] == before[p]
    ensures b !in Dsts(ops) ==> Same(Device(before, 0), Device(after, 0), b)
  {
    if job.Target(|job.chunks|, Place(0, b)) {
      TargetIsDst(job, b);
    }
  }

  /** A call in which everything is copied. */
  lemma {:induction false} GoodRun(cut: Cutter, ops: seq<CopyOp>, fast: map<nat, Data>, before: map<nat, Data>)
    returns (after: map<nat, Data>)
    requires Cuts(cut) && forall op :: op in ops ==> op.src in fast && op.dst in before
    ensures CopyRun(cut, ops, fast, before, Stats([], []), after)
    ensures after.Keys == before.Keys && forall b :: b !in Dsts(ops) ==> Same(before, after, b)
  {
    var job, dev := Job(cut(ops), false), Both(fast, before);
    OpsInside(cut, ops, fast, before);
    var plan := Plan(|job.chunks|, 0, [0], 0, None);
    var ss := PlannedRun(job, dev, plan);
    PlannedStats(job, dev, plan, ss);
    BothAre(fast, before);
    after := Device(ss[|ss| - 1].dev, 0);
    hide Both, Whole, AsPlanned, Good, Dsts;
    assert CopyRunIs(cut, ops, fast, before, Stats([], []), after, ss);
    KeysAre(dev, ss[|ss| - 1].dev);
    forall b | b !in Dsts(ops) ensures Same(before, after, b) {
      Untouched(job, ops, dev, ss[|ss| - 1].dev, b);
    }
  }

  lemma {:induction false} KeysAre(a: map<Place, Data>, b: map<Place, Data>)
    requires a.Keys == b.Keys
    ensures Device(a, 0).Keys == Device(b, 0).Keys
  {
    forall n: nat ensures n in Device(a, 0) <==> n in Device(b, 0) {
      assert Place(0, n) in a <==> Place(0, n) in a.Keys;
      assert Place(0, n) in b <==> Place(0, n) in b.Keys;
    }
  }

  /** A call in which the last write to a block fails, and spoils it; everything else is copied. */
  lemma {:induction false} TornRun(cut: Cutter, ops: seq<CopyOp>, fast: map<nat, Data>, before: map<nat, Data>,
                                   dst: nat, torn: Data)
    returns (x: CopyOp, stats: Stats, after: map<nat, Data>)
    requires Cuts(cut) && (forall op :: op in ops ==> op.src in fast && op.dst in before) && dst in Dsts(ops)
    ensures CopyRun(cut, ops, fast, before, stats, after) && x in ops && x.dst == dst
    ensures stats.readErrors == [] && forall op :: op in stats.writeErrors <==> op == x
    ensures after.Keys == before.Keys && dst in after && after[dst] == torn
  {
    hide Both, Whole, Cuts, Flatten;
    var job, dev := Job(cut(ops), false), Both(fast, before);
    OpsInside(cut, ops, fast, before);
    IsTarget(cut, ops, job, dst);
    var ss, a, b := TornJob(job, dev, dst, torn);
    x := job.chunks[a][b];
    IsOp(cut, ops, job, a, b);
    var s := ss[|ss| - 1];
    BothAre(fast, before);
    stats, after := Stats(s.readErrors, s.writeErrors), Device(s.dev, 0);
    assert CopyRunIs(cut, ops, fast, before, stats, after, ss);
    KeysAre(dev, s.dev);
  }

  lemma {:induction false} TornJob(job: Job, dev: map<Place, Data>, dst: nat, torn: Data) returns (ss: seq<State>, a: nat, b: nat)
    requires job.Inside(dev) && !job.inFile && job.Target(|job.chunks|, Place(0, dst))
    ensures Whole(job, dev, ss) && ss != [] && job.Has(a, b) && job.chunks[a][b].dst == dst
    ensures var s := ss[|ss| - 1];
            && s.readErrors == [] && (forall op :: op in s.writeErrors <==> op == job.chunks[a][b])
            && s.dev.Keys == dev.Keys && Place(0, dst) in s.dev && s.dev[Place(0, dst)] == torn
  {
    a, b := LastWriter(job, |job.chunks|, Place(0, dst));
    var plan := Plan(a, b, torn, |job.chunks|, None);
    assert plan.Ok(job);
    hide Plan.Ok, Job.Inside, Job.Target, Spoilt, AsPlanned, Inv;
    ss := PlannedRun(job, dev, plan);
    assert AsPlanned(plan, ss[|ss| - 1]);
    Tears(job, dev, plan, ss[|ss| - 1]);
    hide Good, Run, Terminal;
    PlannedStats(job, dev, plan, ss);
  }

  lemma {:induction false} IsTarget(cut: Cutter, ops: seq<CopyOp>, job: Job, dst: nat)
    requires Cuts(cut) && job == Job(cut(ops), false) && dst in Dsts(ops)
    ensures job.Target(|job.chunks|, Place(0, dst))
  {
    assert Flatten(job.chunks) == ops;
    var op :| op in ops && op.dst == dst;
    AllOpsMember(job.chunks, op);
    var k: nat, i: nat :| k < |job.chunks| && i < |job.chunks[k]| && job.chunks[k][i] == op;
    assert job.Has(k, i) && job.To(k, i) == Place(0, dst);
  }

  lemma {:induction false} IsOp(cut: Cutter, ops: seq<CopyOp>, job: Job, k: nat, i: nat)
    requires Cuts(cut) && job == Job(cut(ops), false) && job.Has(k, i)
    ensures job.chunks[k][i] in ops
  {
    assert Flatten(job.chunks) == ops;
    AllOpsMember(job.chunks, job.chunks[k][i]);
  }

  lemma {:induction false} Tears(job: Job, dev: map<Place, Data>, plan: Plan, s: State)
    requires Good(job, dev, plan, s) && plan.Ok(job) && Terminal(job, s) && plan.until == |job.chunks|
    ensures job.To(plan.l, plan.j) in s.dev && s.dev[job.To(plan.l, plan.j)] == plan.torn
  {
    assert FateOk(job, s, plan.l, plan.j);
  }

  // ---- batches

  lemma {:induction false} BatchThere(batch: seq<nat>, m: Mappings, fast: map<nat, Data>, origin: map<nat, Data>)
    requires There(m, Members(batch), fast, origin)
    ensures (forall c :: c in batch ==> c in m) && forall op :: op in OpsFor(batch, m) ==> op.src in fast && op.dst in origin
    ensures forall op :: op in OpsFor(batch, m) ==> op.src in batch && op == CopyOp(op.src, m[op.src])
    ensures forall b :: b in Dsts(OpsFor(batch, m)) <==> exists c :: c in batch && m[c] == b
  {
    assert forall c :: c in batch ==> c in Members(batch);
    var ops := OpsFor(batch, m);
    forall b | b in Dsts(ops) ensures exists c :: c in batch && m[c] == b {
      var op :| op in ops && op.dst == b;
      var i :| 0 <= i < |ops| && ops[i] == op;
      assert batch[i] in batch && m[batch[i]] == b;
    }
    forall b, c | c in batch && m[c] == b ensures b in Dsts(ops) {
      var i :| 0 <= i < |batch| && batch[i] == c;
      assert ops[i] in ops && ops[i].dst == b;
    }
  }

  lemma {:induction false} ThereAfter(m: Mappings, blocks: set<nat>, some: set<nat>, fast: map<nat, Data>, before: map<nat, Data>,
                                      after: map<nat, Data>)
    requires There(m, blocks, fast, before) && some <= blocks && after.Keys == before.Keys
    ensures There(m, some, fast, after)
  {
    forall c | c in some ensures c in m && c in fast && m[c] in after {
      assert m[c] in before.Keys;
    }
  }

  /** Batches in which everything is copied. */
  lemma {:induction false} GoodBatches(cut: Cutter, m: Mappings, batches: seq<seq<nat>>, fast: map<nat, Data>,
                                       before: map<nat, Data>) returns (o: Outcome, after: map<nat, Data>)
    requires Cuts(cut) && There(m, Members(Flatten(batches)), fast, before)
    ensures BatchesRun(cut, m, batches, fast, before, o, after) && o.Failed() == {} && after.Keys == before.Keys
  {
    hide Cuts, CopyRun, There;
    if batches == [] {
      o, after := Outcome({}, {}, {}), before;
    } else {
      var k := |batches| - 1;
      Split(batches);
      ThereAfter(m, Members(Flatten(batches)), Members(Flatten(batches[..k])), fast, before, before);
      var o1, mid := GoodBatches(cut, m, batches[..k], fast, before);
      ThereAfter(m, Members(Flatten(batches)), Members(batches[k]), fast, before, mid);
      BatchThere(batches[k], m, fast, mid);
      after := GoodRun(cut, OpsFor(batches[k], m), fast, mid);
      o := o1.With(batches[k], Stats([], []));
    }
  }

  lemma {:induction false} Split(batches: seq<seq<nat>>)
    requires batches != []
    ensures var k := |batches| - 1; Members(Flatten(batches)) == Members(Flatten(batches[..k])) + Members(batches[k])
  {
  }

  /** Batches of which the last that writes a block fails to, and spoils it; everything else is copied. */
  lemma {:induction false} TornBatches(cut: Cutter, m: Mappings, batches: seq<seq<nat>>, fast: map<nat, Data>,
                                       before: map<nat, Data>, dst: nat, torn: Data)
    returns (x: nat, o: Outcome, after: map<nat, Data>)
    requires Cuts(cut) && There(m, Members(Flatten(batches)), fast, before)
    requires exists c :: c in Members(Flatten(batches)) && c in m && m[c] == dst
    ensures BatchesRun(cut, m, batches, fast, before, o, after) && o.Failed() == {x} && after.Keys == before.Keys
    ensures x in Members(Flatten(batches)) && m[x] == dst && dst in after && after[dst] == torn
  {
    hide Cuts, CopyRun, There;
    var k := |batches| - 1;
    Split(batches);
    ThereAfter(m, Members(Flatten(batches)), Members(Flatten(batches[..k])), fast, before, before);
    if exists c :: c in batches[k] && c in m && m[c] == dst {
      x, o, after := TornLast(cut, m, batches, fast, before, dst, torn);
    } else {
      var c :| c in Members(Flatten(batches)) && c in m && m[c] == dst;
      assert c in Members(Flatten(batches[..k]));
      var o1, mid;
      x, o1, mid := TornBatches(cut, m, batches[..k], fast, before, dst, torn);
      ThereAfter(m, Members(Flatten(batches)), Members(batches[k]), fast, before, mid);
      BatchThere(batches[k], m, fast, mid);
      after := GoodRun(cut, OpsFor(batches[k], m), fast, mid);
      assert Same(mid, after, dst);
      o := o1.With(batches[k], Stats([], []));
    }
  }

  lemma {:induction false} TornLast(cut: Cutter, m: Mappings, batches: seq<seq<nat>>, fast: map<nat, Data>,
                                    before: map<nat, Data>, dst: nat, torn: Data)
    returns (x: nat, o: Outcome, after: map<nat, Data>)
    requires batches != [] && Cuts(cut) && There(m, Members(Flatten(batches)), fast, before)
    requires exists c :: c in batches[|batches| - 1] && c in m && m[c] == dst
    ensures BatchesRun(cut, m, batches, fast, before, o, after) && o.Failed() == {x} && after.Keys == before.Keys
    ensures x in Members(Flatten(batches)) && x in m && m[x] == dst && dst in after && after[dst] == torn
  {
    hide Cuts, CopyRun, There;
    var k := |batches| - 1;
    Split(batches);
    ThereAfter(m, Members(Flatten(batches)), Members(batches[k]), fast, before, before);
    ThereAfter(m, Members(Flatten(batches)), Members(Flatten(batches[..k])), fast, before, before);
    var o1, mid := GoodBatches(cut, m, batches[..k], fast, before);
    ThereAfter(m, Members(Flatten(batches)), Members(batches[k]), fast, before, mid);
    BatchThere(batches[k], m, fast, mid);
    var op, stats;
    op, stats, after := TornRun(cut, OpsFor(batches[k], m), fast, mid, dst, torn);
    x, o := op.src, o1.With(batches[k], stats);
    OneFailed(stats, op);
  }

  lemma {:induction false} OneFailed(stats: Stats, op: CopyOp)
    requires stats.readErrors == [] && forall x :: x in stats.writeErrors <==> x == op
    ensures Srcs(stats.readErrors) == {} && Srcs(stats.writeErrors) == {op.src}
  {
  }

  /** The data of every block taken to be clean is where it belongs. */
  ghost predicate AllClean(m: Mappings, fast: map<nat, Data>, o: Outcome, after: map<nat, Data>) {
    forall c :: c in o.cleaned ==> c in m && Home(fast, after, CopyOp(c, m[c]))
  }

  lemma {:induction false} CleanIfInjective(m: Mappings, tried: set<nat>, fast: map<nat, Data>, o: Outcome, before: map<nat, Data>,
                                            after: map<nat, Data>)
    requires o.Ok(tried, m, fast, before, after) && tried <= m.Keys && Injective(m, tried)
    ensures AllClean(m, fast, o, after)
  {
  }

  /** The other block that belongs where x does counts as clean, and is not there. */
  lemma {:induction false} NotClean(m: Mappings, tried: set<nat>, fast: map<nat, Data>, o: Outcome, before: map<nat, Data>,
                                    after: map<nat, Data>, c: nat, a: nat, x: nat)
    requires o.Ok(tried, m, fast, before, after) && c in tried && a in tried && c != a && m[c] == m[a]
    requires o.Failed() == {x} && c in fast && a in fast && m[c] in after
    requires after[m[c]] != fast[c] && after[m[c]] != fast[a]
    ensures !AllClean(m, fast, o, after)
  {
    var other := if x == c then a else c;
    assert other in o.cleaned && !Home(fast, after, CopyOp(other, m[other]));
  }

  /** Data of neither block. */
  function Neither(d: Data, e: Data): (r: Data)
    ensures r != d && r != e && (|d| == |e| ==> |r| == |d|)
  {
    var b: bv8 := if d[0] != 0 && e[0] != 0 then 0 else if d[0] != 1 && e[0] != 1 then 1 else 2;
    assert d[0 := b][0] != d[0] && d[0 := b][0] != e[0];
    d[0 := b]
  }

  /** Whatever the batches: in every run all blocks taken to be clean are at home if and only if no two of the blocks
      tried belong in one place. */
  lemma {:induction false} BatchesSafe(cut: Cutter, m: Mappings, batches: seq<seq<nat>>, fast: map<nat, Data>,
                                       before: map<nat, Data>)
    requires Cuts(cut) && NoRepeats(Flatten(batches)) && There(m, Members(Flatten(batches)), fast, before)
    ensures Members(Flatten(batches)) <= m.Keys
    ensures (forall o: Outcome, after: map<nat, Data> :: BatchesRun(cut, m, batches, fast, before, o, after) ==> AllClean(m, fast, o, after))
            <==> Injective(m, Members(Flatten(batches)))
  {
    var tried := Members(Flatten(batches));
    assert forall c :: c in Flatten(batches) ==> c in tried;
    hide Cuts, BatchesRun, AllClean, Flatten, Outcome.Ok;
    if Injective(m, tried) {
      forall o: Outcome, after: map<nat, Data> | BatchesRun(cut, m, batches, fast, before, o, after) ensures AllClean(m, fast, o, after) {
        BatchesOk(cut, m, batches, fast, before, o, after);
        CleanIfInjective(m, tried, fast, o, before, after);
      }
    } else {
      var c, a :| c in tried && a in tried && a != c && m[a] == m[c];
      var x, o, after := TornBatches(cut, m, batches, fast, before, m[c], Neither(fast[c], fast[a]));
      BatchesOk(cut, m, batches, fast, before, o, after);
      NotClean(m, tried, fast, o, before, after, c, a, x);
    }
  }

  // ---- retries

  /** How the blocks to try are listed and cut into batches: in any way that has each of them once. */
  ghost predicate Plans(plan: Planner) {
    forall bs: set<nat> :: NoRepeats(Flatten(plan(bs))) && Members(Flatten(plan(bs))) == bs
  }

  /** The retries: while there are failures, and so many times at most, these are tried again. */
  ghost predicate RetriesRun(cut: Cutter, plan: Planner, m: Mappings, fast: map<nat, Data>,
                             o: Outcome, origin: map<nat, Data>, left: nat, o': Outcome, origin': map<nat, Data>)
    decreases left
  {
    if o.Failed() == {} || left == 0 then o' == o && origin' == origin
    else
      exists c: Outcome, mid: map<nat, Data> ::
        && BatchesRun(cut, m, plan(o.Failed()), fast, origin, c, mid)
        && RetriesRun(cut, plan, m, fast, Later(o, c), mid, left - 1, o', origin')
  }

  function Later(o: Outcome, c: Outcome): Outcome {
    Outcome(o.cleaned + c.cleaned, c.readFailed, c.writeFailed)
  }

  /** `copy_dirty_blocks`: the first try, one more if anything failed, and then so many. */
  ghost predicate WriteBackRun(cut: Cutter, plan: Planner, m: Mappings, fast: map<nat, Data>,
                               dirty: set<nat>, retryCount: nat, before: map<nat, Data>, o: Outcome, after: map<nat, Data>)
  {
    exists c: Outcome, mid: map<nat, Data> ::
      && BatchesRun(cut, m, plan(dirty), fast, before, c, mid)
      && RetriesRun(cut, plan, m, fast, c, mid, retryCount + 1, o, after)
  }

  lemma {:induction false} StageRunOk(cut: Cutter, plan: Planner, m: Mappings, bs: set<nat>,
                                      fast: map<nat, Data>, before: map<nat, Data>, o: Outcome, after: map<nat, Data>)
    requires Cuts(cut) && Plans(plan) && bs <= m.Keys && BatchesRun(cut, m, plan(bs), fast, before, o, after)
    ensures o.Ok(bs, m, fast, before, after)
  {
    hide Cuts, BatchesRun, Outcome.Ok;
    assert Members(Flatten(plan(bs))) == bs;
    forall c | c in Flatten(plan(bs)) ensures c in m {
      assert c in Members(Flatten(plan(bs)));
    }
    BatchesOk(cut, m, plan(bs), fast, before, o, after);
  }

  lemma {:induction false} NoRetry(cut: Cutter, plan: Planner, m: Mappings, fast: map<nat, Data>,
                                   o: Outcome, origin: map<nat, Data>, left: nat, o': Outcome, origin': map<nat, Data>)
    requires o.Failed() == {} || left == 0
    ensures RetriesRun(cut, plan, m, fast, o, origin, left, o', origin') <==> o' == o && origin' == origin
  {
  }

  lemma {:induction false} FirstRetry(cut: Cutter, plan: Planner, m: Mappings, fast: map<nat, Data>,
                                      o: Outcome, origin: map<nat, Data>, left: nat, o': Outcome, origin': map<nat, Data>)
    returns (c: Outcome, mid: map<nat, Data>)
    requires o.Failed() != {} && left > 0 && RetriesRun(cut, plan, m, fast, o, origin, left, o', origin')
    ensures BatchesRun(cut, m, plan(o.Failed()), fast, origin, c, mid)
    ensures RetriesRun(cut, plan, m, fast, Later(o, c), mid, left - 1, o', origin')
  {
    hide BatchesRun;
    c, mid :|
      && BatchesRun(cut, m, plan(o.Failed()), fast, origin, c, mid)
      && RetriesRun(cut, plan, m, fast, Later(o, c), mid, left - 1, o', origin');
  }

  lemma {:induction false} OneRetry(cut: Cutter, plan: Planner, m: Mappings, fast: map<nat, Data>,
                                    o: Outcome, origin: map<nat, Data>, left: nat, o': Outcome, origin': map<nat, Data>,
                                    c: Outcome, mid: map<nat, Data>)
    requires o.Failed() != {} && left > 0 && BatchesRun(cut, m, plan(o.Failed()), fast, origin, c, mid)
    requires RetriesRun(cut, plan, m, fast, Later(o, c), mid, left - 1, o', origin')
    ensures RetriesRun(cut, plan, m, fast, o, origin, left, o', origin')
  {
    hide BatchesRun;
  }

  lemma {:induction false} RetriesOk(cut: Cutter, plan: Planner, m: Mappings, tried: set<nat>,
                                     fast: map<nat, Data>, before: map<nat, Data>, o: Outcome, origin: map<nat, Data>, left: nat, o': Outcome,
                                     origin': map<nat, Data>)
    requires Cuts(cut) && Plans(plan) && o.Ok(tried, m, fast, before, origin)
    requires RetriesRun(cut, plan, m, fast, o, origin, left, o', origin')
    ensures o'.Ok(tried, m, fast, before, origin')
    decreases left
  {
    hide Cuts, Plans, BatchesRun, RetriesRun, Outcome.Ok;
    if o.Failed() == {} || left == 0 {
      NoRetry(cut, plan, m, fast, o, origin, left, o', origin');
    } else {
      var c, mid := FirstRetry(cut, plan, m, fast, o, origin, left, o', origin');
      FailedKnown(o, tried, m, fast, before, origin);
      StageRunOk(cut, plan, m, o.Failed(), fast, origin, c, mid);
      StageOk(o, c, tried, m, fast, before, origin, mid);
      RetriesOk(cut, plan, m, tried, fast, before, Later(o, c), mid, left - 1, o', origin');
    }
  }

  lemma {:induction false} FailedKnown(o: Outcome, tried: set<nat>, m: Mappings, fast: map<nat, Data>, before: map<nat, Data>, after: map<nat, Data>)
    requires o.Ok(tried, m, fast, before, after)
    ensures o.Failed() <= tried <= m.Keys
  {
  }

  /** A block that fails again and again, and is spoilt each time. */
  lemma {:induction false} TornRetries(cut: Cutter, plan: Planner, m: Mappings, fast: map<nat, Data>,
                                       o: Outcome, origin: map<nat, Data>, left: nat, x: nat, torn: Data)
    returns (o': Outcome, origin': map<nat, Data>)
    requires Cuts(cut) && Plans(plan) && o.Failed() == {x} && There(m, {x}, fast, origin) && x in m && m[x] in origin
    requires origin[m[x]] == torn
    ensures RetriesRun(cut, plan, m, fast, o, origin, left, o', origin')
    ensures o'.Failed() == {x} && m[x] in origin' && origin'[m[x]] == torn
    decreases left
  {
    hide Cuts, Plans, BatchesRun, RetriesRun, There;
    if left == 0 {
      o', origin' := o, origin;
      NoRetry(cut, plan, m, fast, o, origin, left, o', origin');
    } else {
      var c, mid := TornAgain(cut, plan, m, fast, origin, x, torn);
      assert Later(o, c).Failed() == c.Failed();
      o', origin' := TornRetries(cut, plan, m, fast, Later(o, c), mid, left - 1, x, torn);
      OneRetry(cut, plan, m, fast, o, origin, left, o', origin', c, mid);
    }
  }

  lemma {:induction false} TornAgain(cut: Cutter, plan: Planner, m: Mappings, fast: map<nat, Data>,
                                     origin: map<nat, Data>, x: nat, torn: Data)
    returns (c: Outcome, mid: map<nat, Data>)
    requires Cuts(cut) && Plans(plan) && There(m, {x}, fast, origin) && x in m
    ensures BatchesRun(cut, m, plan({x}), fast, origin, c, mid) && c.Failed() == {x}
    ensures There(m, {x}, fast, mid) && m[x] in mid && mid[m[x]] == torn
  {
    PlanHas(plan, {x});
    hide Cuts, Plans, BatchesRun, Flatten, There;
    assert x in Members(Flatten(plan({x})));
    var y;
    y, c, mid := TornBatches(cut, m, plan({x}), fast, origin, m[x], torn);
    ThereAfter(m, {x}, {x}, fast, origin, mid);
  }

  lemma {:induction false} PlanHas(plan: Planner, bs: set<nat>)
    requires Plans(plan)
    ensures Members(Flatten(plan(bs))) == bs && NoRepeats(Flatten(plan(bs)))
  {
  }

  /** Whatever the batches and however often failures are retried: in every run all blocks taken to be clean are at
      home if and only if no two of the dirty blocks belong in one place. */
  lemma {:induction false} WriteBackSafe(cut: Cutter, plan: Planner, m: Mappings, fast: map<nat, Data>,
                                         dirty: set<nat>, retryCount: nat, before: map<nat, Data>)
    requires Cuts(cut) && Plans(plan) && There(m, dirty, fast, before)
    ensures dirty <= m.Keys
    ensures (forall o: Outcome, after: map<nat, Data> ::
               WriteBackRun(cut, plan, m, fast, dirty, retryCount, before, o, after) ==> AllClean(m, fast, o, after))
            <==> Injective(m, dirty)
  {
    hide Cuts, BatchesRun, RetriesRun, AllClean, Outcome.Ok;
    if Injective(m, dirty) {
      forall o: Outcome, after: map<nat, Data> | WriteBackRun(cut, plan, m, fast, dirty, retryCount, before, o, after)
        ensures AllClean(m, fast, o, after)
      {
        RunOk(cut, plan, m, fast, dirty, retryCount, before, o, after);
        CleanIfInjective(m, dirty, fast, o, before, after);
      }
    } else {
      var c, a :| c in dirty && a in dirty && a != c && m[a] == m[c];
      var torn := Neither(fast[c], fast[a]);
      assert Members(Flatten(plan(dirty))) == dirty;
      assert c in Members(Flatten(plan(dirty)));
      var x, o1, mid := TornBatches(cut, m, plan(dirty), fast, before, m[c], torn);
      ThereAfter(m, dirty, {x}, fast, before, mid);
      var o, after := TornRetries(cut, plan, m, fast, o1, mid, retryCount + 1, x, torn);
      assert WriteBackRun(cut, plan, m, fast, dirty, retryCount, before, o, after);
      RunOk(cut, plan, m, fast, dirty, retryCount, before, o, after);
      NotClean(m, dirty, fast, o, before, after, c, a, x);
    }
  }

  lemma {:induction false} RunOk(cut: Cutter, plan: Planner, m: Mappings, fast: map<nat, Data>,
                                 dirty: set<nat>, retryCount: nat, before: map<nat, Data>, o: Outcome, after: map<nat, Data>)
    requires Cuts(cut) && Plans(plan) && dirty <= m.Keys && WriteBackRun(cut, plan, m, fast, dirty, retryCount, before, o, after)
    ensures o.Ok(dirty, m, fast, before, after)
  {
    hide Cuts, BatchesRun, RetriesRun, Outcome.Ok, Plans;
    var c: Outcome, mid: map<nat, Data> :|
      && BatchesRun(cut, m, plan(dirty), fast, before, c, mid)
      && RetriesRun(cut, plan, m, fast, c, mid, retryCount + 1, o, after);
    StageRunOk(cut, plan, m, dirty, fast, before, c, mid);
    RetriesOk(cut, plan, m, dirty, fast, before, c, mid, retryCount + 1, o, after);
  }
}
