/** The two threads of `SyncCopier::copy` in src/copier/sync_copier.rs, and `aggregate_ops`. */
module Copiers {
  import opened Wrappers

  // what a block holds
  type Data = d: seq<bv8> | d != [] witness [0]

  datatype CopyOp = CopyOp(src: nat, dst: nat)

  // ---- joining adjacent blocks

  /** A run of blocks, with the number of the buffer that each uses. */
  datatype Op = Op(begin: nat, end: nat, indexes: seq<nat>) {
    predicate Ok() {
      begin < end && end - begin == |indexes|
    }

    /** Each block with its buffer. */
    function Pairs(): (ps: seq<(nat, nat)>) {
      seq(|indexes|, i requires 0 <= i < |indexes| => (begin + i, indexes[i]))
    }
  }

  function AllPairs(ops: seq<Op>): seq<(nat, nat)> {
    if ops == [] then [] else AllPairs(ops[..|ops| - 1]) + ops[|ops| - 1].Pairs()
  }

  lemma {:induction false} AllPairsPush(ops: seq<Op>, op: Op)
    ensures AllPairs(ops + [op]) == AllPairs(ops) + op.Pairs()
  {
    assert (ops + [op])[..|ops|] == ops;
  }

  lemma NoPairs()
    ensures AllPairs([]) == []
  {
  }

  lemma Joined(before: seq<(nat, nat)>, l: Op, op: Op)
    requires l.Ok() && op.Ok() && l.end == op.begin
    ensures Op(l.begin, op.end, l.indexes + op.indexes).Ok()
    ensures before + Op(l.begin, op.end, l.indexes + op.indexes).Pairs() == before + l.Pairs() + op.Pairs()
  {
  }

  /** Joins each op to the one before it where they touch: every block keeps its buffer, and no two neighbours of
      the result could still be joined. */
  method AggregateOps(ops: seq<Op>) returns (r: seq<Op>)
    requires forall i :: 0 <= i < |ops| ==> ops[i].Ok()
    ensures AllPairs(r) == AllPairs(ops)
    ensures forall i :: 0 <= i < |r| ==> r[i].Ok()
    ensures forall i :: 0 <= i < |r| - 1 ==> r[i].end != r[i + 1].begin
  {
    hide AllPairs, Op.Pairs;
    r := [];
    NoPairs();
    if ops == [] {
      return;
    }
    var l := ops[0];
    AllPairsPush([], l);
    assert ops[..1] == [] + [l];
    for i := 1 to |ops|
      invariant AllPairs(r) + l.Pairs() == AllPairs(ops[..i])
      invariant l.Ok() && (r != [] ==> r[|r| - 1].end != l.begin)
      invariant forall k :: 0 <= k < |r| ==> r[k].Ok()
      invariant forall k :: 0 <= k < |r| - 1 ==> r[k].end != r[k + 1].begin
    {
      var op := ops[i];
      assert ops[..i + 1] == ops[..i] + [op];
      AllPairsPush(ops[..i], op);
      if l.end == op.begin {
        Joined(AllPairs(r), l, op);
        l := Op(l.begin, op.end, l.indexes + op.indexes);
      } else {
        AllPairsPush(r, l);
        r, l := r + [l], op;
      }
    }
    assert ops[..|ops|] == ops;
    AllPairsPush(r, l);
    r := r + [l];
  }

  // ---- the pipeline

  /** What became of an op. */
  datatype Fate = ReadFailed | Copied | WriteFailed

  /** A block of one of the devices. */
  datatype Place = Place(dev: nat, block: nat)

  /** The ops, in the chunks that fit the buffer, and whether they copy within one device. */
  datatype Job = Job(chunks: seq<seq<CopyOp>>, inFile: bool) {
    ghost predicate Has(k: nat, i: nat) {
      k < |chunks| && i < |chunks[k]|
    }

    function From(k: nat, i: nat): Place
      requires k < |chunks| && i < |chunks[k]|
    {
      Place(if inFile then 0 else 1, chunks[k][i].src)
    }

    function To(k: nat, i: nat): Place
      requires k < |chunks| && i < |chunks[k]|
    {
      Place(0, chunks[k][i].dst)
    }

    /** No other op writes the block that this one writes. */
    ghost predicate Sole(k: nat, i: nat)
      requires Has(k, i)
    {
      forall l: nat, j: nat :: Has(l, j) && (l, j) != (k, i) ==> To(l, j) != To(k, i)
    }

    /** No op of an earlier chunk writes the block that this one reads. */
    ghost predicate Stable(k: nat, i: nat)
      requires Has(k, i)
    {
      !Target(k, From(k, i))
    }

    /** Some op of the first n chunks writes this block. */
    ghost predicate Target(n: nat, p: Place) {
      exists l: nat, j: nat :: l < n && Has(l, j) && To(l, j) == p
    }

    /** No two ops write one block, and no op reads a block that an op of an earlier chunk writes. */
    ghost predicate Separate() {
      forall k: nat, i: nat :: Has(k, i) ==> Sole(k, i) && Stable(k, i)
    }

    ghost predicate Inside(dev: map<Place, Data>) {
      forall k: nat, i: nat :: Has(k, i) ==> From(k, i) in dev && To(k, i) in dev
    }
  }

  /** What goes through the channel: a chunk's number, and a buffer for each of its ops that was read. */
  datatype Msg = Msg(k: nat, bufs: map<nat, Data>)

  datatype Writer = Idle | Writing(msg: Msg, wrote: map<nat, bool>)

  type Fates = map<(nat, nat), Fate>

  /** Both threads.  The reader is at chunk `reading`, of which `got` holds what has been read or has failed, and
      `recorded` whether the failures have been added to the statistics.  The writer has finished `done` chunks.
      `fate` is a record of what became of op i of chunk k. */
  datatype State = State(dev: map<Place, Data>, reading: nat, got: map<nat, Option<Data>>, recorded: bool,
                         channel: seq<Msg>, writer: Writer, done: nat,
                         readErrors: seq<CopyOp>, writeErrors: seq<CopyOp>, nrCopied: nat, fate: Fates)

  /** The first n ops of a chunk that are picked, in order. */
  function Pick(chunk: seq<CopyOp>, n: nat, p: nat -> bool): seq<CopyOp>
    requires n <= |chunk|
  {
    if n == 0 then [] else Pick(chunk, n - 1, p) + if p(n - 1) then [chunk[n - 1]] else []
  }

  function FateIs(fate: Fates, k: nat, what: Fate): nat -> bool {
    i => (k, i) in fate && fate[(k, i)] == what
  }

  /** The ops of the first n chunks that met this fate. */
  function WithFate(chunks: seq<seq<CopyOp>>, n: nat, fate: Fates, what: Fate): seq<CopyOp>
    requires n <= |chunks|
  {
    if n == 0 then []
    else WithFate(chunks, n - 1, fate, what) + Pick(chunks[n - 1], |chunks[n - 1]|, FateIs(fate, n - 1, what))
  }

  /** Each thread reads or writes one block, updates the shared statistics, or passes on a chunk.  The blocks of a
      chunk are read and written in any order. */
  datatype Action =
    | Read(i: nat, ok: bool)
    | RecordReads
    | Send
    | Receive
    | Write(i: nat, ok: bool, torn: Data)
    | RecordWrites

  ghost predicate Enabled(job: Job, s: State, a: Action) {
    match a
    case Read(i, _) => job.Has(s.reading, i) && i !in s.got && job.From(s.reading, i) in s.dev
    case RecordReads =>
      s.reading < |job.chunks| && !s.recorded && forall i :: 0 <= i < |job.chunks[s.reading]| ==> i in s.got
    case Send => s.recorded && s.channel == []
    case Receive => s.writer.Idle? && s.channel != []
    case Write(i, _, _) => s.writer.Writing? && i in s.writer.msg.bufs && i !in s.writer.wrote && job.Has(s.writer.msg.k, i)
    case RecordWrites => s.writer.Writing? && s.writer.msg.bufs.Keys == s.writer.wrote.Keys && s.writer.msg.k < |job.chunks|
  }

  function Success(got: map<nat, Option<Data>>): map<nat, Data> {
    map i | i in got && got[i].Some? :: got[i].value
  }

  /** The ops whose read failed; those that were read, but whose write failed; and those whose write succeeded. */
  function ReadLost(got: map<nat, Option<Data>>): nat -> bool {
    i => i in got && got[i].None?
  }

  function WriteLost(m: Msg, wrote: map<nat, bool>): nat -> bool {
    i => i in m.bufs && !(i in wrote && wrote[i])
  }

  function WriteDone(wrote: map<nat, bool>): nat -> bool {
    i => i in wrote && wrote[i]
  }

  ghost function Next(job: Job, s: State, a: Action): State
    requires Enabled(job, s, a)
  {
    match a
    case Read(i, ok) =>
      if ok then s.(got := s.got[i := Some(s.dev[job.From(s.reading, i)])])
      else s.(got := s.got[i := None], fate := s.fate[(s.reading, i) := ReadFailed])
    case RecordReads =>
      var chunk := job.chunks[s.reading];
      s.(recorded := true, readErrors := s.readErrors + Pick(chunk, |chunk|, ReadLost(s.got)))
    case Send =>
      s.(channel := [Msg(s.reading, Success(s.got))], reading := s.reading + 1, got := map[], recorded := false)
    case Receive => s.(channel := s.channel[1..], writer := Writing(s.channel[0], map[]))
    case Write(i, ok, torn) =>
      var m := s.writer.msg;
      s.(dev := s.dev[job.To(m.k, i) := if ok then m.bufs[i] else torn],
         writer := Writing(m, s.writer.wrote[i := ok]), fate := s.fate[(m.k, i) := if ok then Copied else WriteFailed])
    case RecordWrites =>
      var Writing(m, wrote) := s.writer;
      var chunk := job.chunks[m.k];
      s.(writer := Idle, done := s.done + 1,
         writeErrors := s.writeErrors + Pick(chunk, |chunk|, WriteLost(m, wrote)),
         nrCopied := s.nrCopied + |Pick(chunk, |chunk|, WriteDone(wrote))|)
  }

  ghost predicate Step(job: Job, s: State, s': State) {
    exists a :: Enabled(job, s, a) && s' == Next(job, s, a)
  }

  ghost predicate Init(job: Job, s: State) {
    s == State(s.dev, 0, map[], false, [], Idle, 0, [], [], 0, map[]) && job.Inside(s.dev)
  }

  ghost predicate Terminal(job: Job, s: State) {
    s.reading == |job.chunks| && s.channel == [] && s.writer.Idle?
  }

  // ---- what every step keeps

  /** Where the chunks are: those done, one being written, one in the channel, one being read, and the others. */
  ghost predicate Places(job: Job, s: State) {
    && |s.channel| <= 1 && s.reading <= |job.chunks|
    && s.reading == s.done + (if s.writer.Writing? then 1 else 0) + |s.channel|
    && (s.writer.Writing? ==> s.writer.msg.k == s.done)
    && (s.channel != [] ==> s.channel[0].k == s.reading - 1)
    && (s.recorded ==> s.reading < |job.chunks| && forall i :: 0 <= i < |job.chunks[s.reading]| ==> i in s.got)
    && (s.reading == |job.chunks| ==> s.got == map[])
    && (forall i: nat :: i in s.got ==> job.Has(s.reading, i))
  }

  ghost predicate Known(s: State, k: nat, i: nat, what: Fate) {
    (k, i) in s.fate && s.fate[(k, i)] == what
  }

  /** A message has a buffer for each op that was read, with the right data if its source is stable. */
  ghost predicate MsgOk(job: Job, before: map<Place, Data>, s: State, m: Msg) {
    && m.k < |job.chunks|
    && (forall i: nat :: i in m.bufs ==> job.Has(m.k, i) && job.From(m.k, i) in before)
    && (forall i: nat :: i in m.bufs && job.Stable(m.k, i) ==> m.bufs[i] == before[job.From(m.k, i)])
    && (forall i: nat :: job.Has(m.k, i) ==> (i !in m.bufs <==> Known(s, m.k, i, ReadFailed)))
  }

  /** What is known of op i of chunk k, from where the chunk is. */
  ghost predicate FateOk(job: Job, s: State, k: nat, i: nat) {
    if k < s.done then (k, i) in s.fate
    else if s.writer.Writing? && k == s.done then
      (i in s.writer.msg.bufs ==> ((k, i) in s.fate <==> i in s.writer.wrote)
                                  && (i in s.writer.wrote ==> Known(s, k, i, if s.writer.wrote[i] then Copied else WriteFailed)))
    else if k < s.reading then s.channel != [] && (i in s.channel[0].bufs ==> (k, i) !in s.fate)
    else if k == s.reading then
      ((k, i) in s.fate <==> i in s.got && s.got[i].None?) && ((k, i) in s.fate ==> Known(s, k, i, ReadFailed))
    else (k, i) !in s.fate
  }

  /** What op i of chunk k has done to its block. */
  ghost predicate DevOk(job: Job, before: map<Place, Data>, s: State, k: nat, i: nat)
    requires job.Has(k, i)
  {
    && job.From(k, i) in before && job.To(k, i) in before && job.To(k, i) in s.dev
    && (Known(s, k, i, Copied) && job.Sole(k, i) && job.Stable(k, i) ==> s.dev[job.To(k, i)] == before[job.From(k, i)])
    && (((k, i) !in s.fate || Known(s, k, i, ReadFailed)) && job.Sole(k, i) ==> s.dev[job.To(k, i)] == before[job.To(k, i)])
  }

  ghost predicate OthersOk(job: Job, before: map<Place, Data>, s: State) {
    s.dev.Keys == before.Keys && forall p :: p in before && !job.Target(s.reading, p) ==> s.dev[p] == before[p]
  }

  ghost predicate StatsOk(job: Job, s: State) {
    && s.done <= s.reading <= |job.chunks| && (s.recorded ==> s.reading < |job.chunks|)
    && s.readErrors == WithFate(job.chunks, if s.recorded then s.reading + 1 else s.reading, s.fate, ReadFailed)
    && s.writeErrors == WithFate(job.chunks, s.done, s.fate, WriteFailed)
    && s.nrCopied == |WithFate(job.chunks, s.done, s.fate, Copied)|
  }

  ghost predicate MsgsOk(job: Job, before: map<Place, Data>, s: State) {
    && (s.writer.Writing? ==> MsgOk(job, before, s, s.writer.msg) && s.writer.wrote.Keys <= s.writer.msg.bufs.Keys)
    && (s.channel != [] ==> MsgOk(job, before, s, s.channel[0])) && GotOk(job, before, s)
  }

  ghost predicate GotOk(job: Job, before: map<Place, Data>, s: State) {
    forall i: nat :: i in s.got ==>
      && job.Has(s.reading, i) && job.From(s.reading, i) in before
      && (s.got[i].Some? && job.Stable(s.reading, i) ==> s.got[i].value == before[job.From(s.reading, i)])
  }

  ghost predicate FatesOk(job: Job, s: State) {
    forall k: nat, i: nat :: job.Has(k, i) ==> FateOk(job, s, k, i)
  }

  ghost predicate DevsOk(job: Job, before: map<Place, Data>, s: State) {
    forall k: nat, i: nat :: job.Has(k, i) ==> DevOk(job, before, s, k, i)
  }

  ghost predicate Inv(job: Job, before: map<Place, Data>, s: State) {
    && Places(job, s) && OthersOk(job, before, s) && StatsOk(job, s)
    && MsgsOk(job, before, s) && FatesOk(job, s) && DevsOk(job, before, s)
  }

  lemma PlacesKept(job: Job, s: State, a: Action)
    requires Places(job, s) && Enabled(job, s, a)
    ensures Places(job, Next(job, s, a))
  {
    hide Pick;
  }

  lemma {:induction false} OthersKept(job: Job, before: map<Place, Data>, s: State, a: Action)
    requires OthersOk(job, before, s) && DevsOk(job, before, s) && Places(job, s) && Enabled(job, s, a)
    ensures OthersOk(job, before, Next(job, s, a))
  {
    hide Pick, DevsOk, DevOk, Job.Target;
    forall p | job.Target(s.reading, p) ensures job.Target(Next(job, s, a).reading, p) {
      MoreTargets(job, s.reading, Next(job, s, a).reading, p);
    }
    if a.Write? {
      WritesTarget(job, before, s, a.i);
    }
  }

  lemma {:induction false} MoreTargets(job: Job, n: nat, m: nat, p: Place)
    requires n <= m && job.Target(n, p)
    ensures job.Target(m, p)
  {
  }

  lemma {:induction false} WritesTarget(job: Job, before: map<Place, Data>, s: State, i: nat)
    requires DevsOk(job, before, s) && s.writer.Writing? && s.writer.msg.k < s.reading && job.Has(s.writer.msg.k, i)
    ensures job.Target(s.reading, job.To(s.writer.msg.k, i)) && job.To(s.writer.msg.k, i) in s.dev
  {
    assert DevOk(job, before, s, s.writer.msg.k, i);
  }

  /** What is read is what the block held at the start, if its source is stable. */
  lemma ReadsBefore(job: Job, before: map<Place, Data>, s: State, i: nat)
    requires OthersOk(job, before, s) && DevsOk(job, before, s) && job.Has(s.reading, i)
    ensures var p := job.From(s.reading, i); p in before && p in s.dev && (job.Stable(s.reading, i) ==> s.dev[p] == before[p])
  {
    assert DevOk(job, before, s, s.reading, i);
  }

  /** A message stays right while nothing more fails to be read in its chunk. */
  lemma MsgSame(job: Job, before: map<Place, Data>, s: State, s': State, m: Msg)
    requires MsgOk(job, before, s, m)
    requires forall i: nat :: Known(s', m.k, i, ReadFailed) <==> Known(s, m.k, i, ReadFailed)
    ensures MsgOk(job, before, s', m)
  {
  }

  lemma MsgsKept(job: Job, before: map<Place, Data>, s: State, a: Action)
    requires Inv(job, before, s) && Enabled(job, s, a)
    ensures MsgsOk(job, before, Next(job, s, a))
  {
    hide Pick, StatsOk, MsgOk, GotOk, FatesOk, DevsOk, OthersOk;
    var s' := Next(job, s, a);
    if a.Read? {
      ReadsBefore(job, before, s, a.i);
    }
    GotKept(job, before, s, a);
    if s.writer.Writing? {
      MsgKept(job, before, s, a, s.writer.msg);
    }
    if s.channel != [] {
      MsgKept(job, before, s, a, s.channel[0]);
    }
    if a.Send? {
      Sent(job, before, s);
    }
  }

  lemma MsgKept(job: Job, before: map<Place, Data>, s: State, a: Action, m: Msg)
    requires MsgsOk(job, before, s) && Enabled(job, s, a) && MsgOk(job, before, s, m) && m.k < s.reading
    ensures MsgOk(job, before, Next(job, s, a), m)
  {
    hide Pick, MsgOk, GotOk;
    if a.Write? {
      WriteFates(job, before, s, a);
    }
    MsgSame(job, before, s, Next(job, s, a), m);
  }

  lemma GotKept(job: Job, before: map<Place, Data>, s: State, a: Action)
    requires Places(job, s) && GotOk(job, before, s) && Enabled(job, s, a)
    requires a.Read? ==> var p := job.From(s.reading, a.i);
                         p in before && p in s.dev && (job.Stable(s.reading, a.i) ==> s.dev[p] == before[p])
    ensures GotOk(job, before, Next(job, s, a))
  {
    hide Pick;
  }

  lemma WriteFates(job: Job, before: map<Place, Data>, s: State, a: Action)
    requires MsgsOk(job, before, s) && Enabled(job, s, a) && a.Write?
    ensures forall k: nat, i: nat :: Known(Next(job, s, a), k, i, ReadFailed) <==> Known(s, k, i, ReadFailed)
  {
    assert !Known(s, s.writer.msg.k, a.i, ReadFailed);
  }

  lemma Sent(job: Job, before: map<Place, Data>, s: State)
    requires Places(job, s) && MsgsOk(job, before, s) && FatesOk(job, s) && Enabled(job, s, Send)
    ensures MsgOk(job, before, Next(job, s, Send), Msg(s.reading, Success(s.got)))
  {
    hide Pick, MsgOk;
    forall i: nat | job.Has(s.reading, i) ensures i !in Success(s.got) <==> Known(s, s.reading, i, ReadFailed) {
      assert FateOk(job, s, s.reading, i);
    }
    assert MsgOk(job, before, Next(job, s, Send), Msg(s.reading, Success(s.got))) by { MsgUnfold(job, before, s); }
  }

  lemma MsgUnfold(job: Job, before: map<Place, Data>, s: State)
    requires MsgsOk(job, before, s) && Enabled(job, s, Send) && s.reading < |job.chunks|
    requires forall i: nat :: job.Has(s.reading, i) ==> (i !in Success(s.got) <==> Known(s, s.reading, i, ReadFailed))
    ensures MsgOk(job, before, Next(job, s, Send), Msg(s.reading, Success(s.got)))
  {
  }

  lemma FatesKept(job: Job, before: map<Place, Data>, s: State, a: Action)
    requires Places(job, s) && MsgsOk(job, before, s) && FatesOk(job, s) && Enabled(job, s, a)
    ensures FatesOk(job, Next(job, s, a))
  {
    hide Pick, FateOk, MsgOk;
    forall k: nat, i: nat | job.Has(k, i) ensures FateOk(job, Next(job, s, a), k, i) {
      FateKept(job, before, s, a, k, i);
    }
  }

  lemma FateKept(job: Job, before: map<Place, Data>, s: State, a: Action, k: nat, i: nat)
    requires Places(job, s) && MsgsOk(job, before, s) && FateOk(job, s, k, i) && Enabled(job, s, a) && job.Has(k, i)
    ensures FateOk(job, Next(job, s, a), k, i)
  {
    if a.Read? || a.RecordReads? || a.Send? {
      ReaderFateKept(job, s, a, k, i);
    } else {
      WriterFateKept(job, before, s, a, k, i);
    }
  }

  lemma ReaderFateKept(job: Job, s: State, a: Action, k: nat, i: nat)
    requires Places(job, s) && FateOk(job, s, k, i) && Enabled(job, s, a) && job.Has(k, i)
    requires a.Read? || a.RecordReads? || a.Send?
    ensures FateOk(job, Next(job, s, a), k, i)
  {
    hide Pick;
  }

  lemma WriterFateKept(job: Job, before: map<Place, Data>, s: State, a: Action, k: nat, i: nat)
    requires Places(job, s) && MsgsOk(job, before, s) && FateOk(job, s, k, i) && Enabled(job, s, a) && job.Has(k, i)
    requires a.Receive? || a.Write? || a.RecordWrites?
    ensures FateOk(job, Next(job, s, a), k, i)
  {
    hide Pick, GotOk;
  }

  lemma DevsKept(job: Job, before: map<Place, Data>, s: State, a: Action)
    requires Inv(job, before, s) && Enabled(job, s, a)
    ensures DevsOk(job, before, Next(job, s, a))
  {
    hide Pick, StatsOk, OthersOk, DevOk, FateOk;
    forall k: nat, i: nat | job.Has(k, i) ensures DevOk(job, before, Next(job, s, a), k, i) {
      DevKept(job, before, s, a, k, i);
    }
  }

  lemma DevKept(job: Job, before: map<Place, Data>, s: State, a: Action, k: nat, i: nat)
    requires Places(job, s) && MsgsOk(job, before, s) && Enabled(job, s, a) && job.Has(k, i)
    requires FateOk(job, s, k, i) && DevOk(job, before, s, k, i)
    ensures DevOk(job, before, Next(job, s, a), k, i)
  {
    hide Pick, GotOk;
  }

  lemma {:induction false} PickSame(chunk: seq<CopyOp>, n: nat, p: nat -> bool, q: nat -> bool)
    requires n <= |chunk| && forall i: nat :: i < n ==> p(i) == q(i)
    ensures Pick(chunk, n, p) == Pick(chunk, n, q)
  {
    if n > 0 {
      PickSame(chunk, n - 1, p, q);
    }
  }

  lemma {:induction false} WithFateSame(chunks: seq<seq<CopyOp>>, n: nat, f: Fates, f': Fates, what: Fate)
    requires n <= |chunks|
    requires forall k: nat, i: nat :: k < n && i < |chunks[k]| ==> FateIs(f, k, what)(i) == FateIs(f', k, what)(i)
    ensures WithFate(chunks, n, f, what) == WithFate(chunks, n, f', what)
  {
    hide FateIs, Pick;
    if n > 0 {
      WithFateSame(chunks, n - 1, f, f', what);
      PickSame(chunks[n - 1], |chunks[n - 1]|, FateIs(f, n - 1, what), FateIs(f', n - 1, what));
    }
  }

  /** A step other than a read leaves the read failures alone; one other than a write, the other fates; and neither
      touches a chunk that is finished with. */
  lemma StatsKept(job: Job, before: map<Place, Data>, s: State, a: Action)
    requires Inv(job, before, s) && Enabled(job, s, a)
    ensures StatsOk(job, Next(job, s, a))
  {
    hide DevsOk, OthersOk, GotOk, Pick, WithFate;
    var s' := Next(job, s, a);
    match a {
      case Read(i, ok) => ReadStats(job, s, i, ok);
      case Write(i, ok, torn) => WriteStats(job, before, s, i, ok, torn);
      case RecordReads => RecordReadStats(job, s);
      case RecordWrites => RecordWriteStats(job, before, s);
      case _ =>
    }
  }

  lemma ReadStats(job: Job, s: State, i: nat, ok: bool)
    requires Places(job, s) && StatsOk(job, s) && Enabled(job, s, Read(i, ok))
    ensures StatsOk(job, Next(job, s, Read(i, ok)))
  {
    hide Pick, WithFate;
    var f' := Next(job, s, Read(i, ok)).fate;
    assert !s.recorded;
    WithFateSame(job.chunks, s.reading, s.fate, f', ReadFailed);
    WithFateSame(job.chunks, s.done, s.fate, f', WriteFailed);
    WithFateSame(job.chunks, s.done, s.fate, f', Copied);
  }

  lemma WriteStats(job: Job, before: map<Place, Data>, s: State, i: nat, ok: bool, torn: Data)
    requires Places(job, s) && MsgsOk(job, before, s) && FatesOk(job, s) && StatsOk(job, s)
    requires Enabled(job, s, Write(i, ok, torn))
    ensures StatsOk(job, Next(job, s, Write(i, ok, torn)))
  {
    hide Pick, WithFate, GotOk;
    var f' := Next(job, s, Write(i, ok, torn)).fate;
    assert FateOk(job, s, s.done, i) && !Known(s, s.done, i, ReadFailed);
    WithFateSame(job.chunks, if s.recorded then s.reading + 1 else s.reading, s.fate, f', ReadFailed);
    WithFateSame(job.chunks, s.done, s.fate, f', WriteFailed);
    WithFateSame(job.chunks, s.done, s.fate, f', Copied);
  }

  lemma RecordReadStats(job: Job, s: State)
    requires Places(job, s) && FatesOk(job, s) && StatsOk(job, s) && Enabled(job, s, RecordReads)
    ensures StatsOk(job, Next(job, s, RecordReads))
  {
    hide Pick;
    var chunk := job.chunks[s.reading];
    forall i: nat | i < |chunk| ensures ReadLost(s.got)(i) == FateIs(s.fate, s.reading, ReadFailed)(i) {
      assert FateOk(job, s, s.reading, i);
    }
    PickSame(chunk, |chunk|, ReadLost(s.got), FateIs(s.fate, s.reading, ReadFailed));
  }

  lemma RecordWriteStats(job: Job, before: map<Place, Data>, s: State)
    requires Places(job, s) && MsgsOk(job, before, s) && FatesOk(job, s) && StatsOk(job, s) && Enabled(job, s, RecordWrites)
    ensures StatsOk(job, Next(job, s, RecordWrites))
  {
    hide Pick, WriteLost, WriteDone, FateIs, MsgOk, GotOk, FatesOk;
    var Writing(m, wrote) := s.writer;
    var chunk := job.chunks[m.k];
    forall i: nat | i < |chunk|
      ensures WriteLost(m, wrote)(i) == FateIs(s.fate, s.done, WriteFailed)(i)
      ensures WriteDone(wrote)(i) == FateIs(s.fate, s.done, Copied)(i)
    {
      WroteFate(job, before, s, i);
    }
    PickSame(chunk, |chunk|, WriteLost(m, wrote), FateIs(s.fate, s.done, WriteFailed));
    PickSame(chunk, |chunk|, WriteDone(wrote), FateIs(s.fate, s.done, Copied));
  }

  lemma WroteFate(job: Job, before: map<Place, Data>, s: State, i: nat)
    requires Places(job, s) && MsgsOk(job, before, s) && FatesOk(job, s) && Enabled(job, s, RecordWrites)
    requires job.Has(s.done, i)
    ensures WriteLost(s.writer.msg, s.writer.wrote)(i) == FateIs(s.fate, s.done, WriteFailed)(i)
    ensures WriteDone(s.writer.wrote)(i) == FateIs(s.fate, s.done, Copied)(i)
  {
    hide GotOk;
    assert FateOk(job, s, s.done, i);
  }

  lemma StepKeeps(job: Job, before: map<Place, Data>, s: State, s': State)
    requires Inv(job, before, s) && Step(job, s, s')
    ensures Inv(job, before, s')
  {
    hide Next, StatsOk, MsgsOk, FatesOk, DevsOk, OthersOk, Places;
    var a :| Enabled(job, s, a) && s' == Next(job, s, a);
    PlacesKept(job, s, a);
    OthersKept(job, before, s, a);
    MsgsKept(job, before, s, a);
    FatesKept(job, before, s, a);
    DevsKept(job, before, s, a);
    StatsKept(job, before, s, a);
  }

  ghost predicate Run(job: Job, ss: seq<State>) {
    ss != [] && Init(job, ss[0]) && forall i :: 0 <= i < |ss| - 1 ==> Step(job, ss[i], ss[i + 1])
  }

  lemma {:induction false} RunInv(job: Job, ss: seq<State>, n: nat)
    requires Run(job, ss) && n < |ss|
    ensures Inv(job, ss[0].dev, ss[n])
  {
    if n == 0 {
      assert WithFate(job.chunks, 0, map[], ReadFailed) == [];
    } else {
      RunInv(job, ss, n - 1);
      hide Inv, Step;
      assert Step(job, ss[n - 1], ss[n - 1 + 1]);
      StepKeeps(job, ss[0].dev, ss[n - 1], ss[n]);
    }
  }

  /** However the two threads take turns: when both are done every op has met one fate, the statistics list exactly
      those that failed, in order, and count the others; a copied block holds what its source held at the start,
      the block of an op that could not be read holds what it did, and so does every block that no op writes. */
  lemma CopyOutcome(job: Job, ss: seq<State>)
    requires Run(job, ss) && Terminal(job, ss[|ss| - 1])
    ensures var s, before := ss[|ss| - 1], ss[0].dev;
            && s.readErrors == WithFate(job.chunks, |job.chunks|, s.fate, ReadFailed)
            && s.writeErrors == WithFate(job.chunks, |job.chunks|, s.fate, WriteFailed)
            && s.nrCopied == |WithFate(job.chunks, |job.chunks|, s.fate, Copied)|
            && OthersOk(job, before, s)
            && forall k: nat, i: nat :: job.Has(k, i) ==> (k, i) in s.fate && DevOk(job, before, s, k, i)
  {
    assert ss != [];
    hide Run, WithFate;
    var s, before := ss[|ss| - 1], ss[0].dev;
    RunInv(job, ss, |ss| - 1);
    forall k: nat, i: nat | job.Has(k, i) ensures (k, i) in s.fate {
      assert FateOk(job, s, k, i);
    }
  }

  // ---- every run ends

  lemma WriterAction(job: Job, before: map<Place, Data>, s: State) returns (a: Action)
    requires Places(job, s) && MsgsOk(job, before, s) && s.writer.Writing?
    ensures Enabled(job, s, a)
  {
    var m, wrote := s.writer.msg, s.writer.wrote;
    if m.bufs.Keys == wrote.Keys {
      a := RecordWrites;
    } else {
      var i :| i in m.bufs && i !in wrote;
      assert job.Has(m.k, i);
      a := Write(i, true, [0]);
    }
  }

  lemma ReaderAction(job: Job, before: map<Place, Data>, s: State) returns (a: Action)
    requires Places(job, s) && DevsOk(job, before, s) && OthersOk(job, before, s) && s.channel == [] && s.reading < |job.chunks|
    ensures Enabled(job, s, a) && !a.Write? && (a.Read? ==> a.ok)
  {
    if s.recorded {
      a := Send;
    } else if i: nat :| i < |job.chunks[s.reading]| && i !in s.got {
      assert DevOk(job, before, s, s.reading, i);
      a := Read(i, true);
    } else {
      a := RecordReads;
    }
  }

  /** Until both threads are done, one of them can go on. */
  lemma Progress(job: Job, before: map<Place, Data>, s: State)
    requires Inv(job, before, s) && !Terminal(job, s)
    ensures exists s' :: Step(job, s, s')
  {
    hide StatsOk, FatesOk, DevsOk, MsgsOk, OthersOk, Next;
    var a: Action;
    if s.writer.Writing? {
      a := WriterAction(job, before, s);
    } else if s.channel != [] {
      a := Receive;
    } else {
      a := ReaderAction(job, before, s);
    }
    assert Step(job, s, Next(job, s, a));
  }

  ghost function Unread(job: Job, s: State): set<nat>
    requires s.reading <= |job.chunks|
  {
    if s.reading == |job.chunks| then {} else set i: nat | i < |job.chunks[s.reading]| && i !in s.got
  }

  ghost function Unwritten(s: State): set<nat> {
    if s.writer.Writing? then s.writer.msg.bufs.Keys - s.writer.wrote.Keys else {}
  }

  /** Chunks to read, whether the last one's failures are recorded, ops of it to read, chunks to write, chunks in
      the channel, and ops to write, in this order. */
  ghost predicate Nearer(job: Job, s: State, s': State)
    requires s.reading <= |job.chunks| && s'.reading <= |job.chunks|
  {
    s.reading < s'.reading || (s.reading == s'.reading
      && ((!s.recorded && s'.recorded) || (s.recorded == s'.recorded
          && (|Unread(job, s')| < |Unread(job, s)| || (Unread(job, s') == Unread(job, s)
              && (s.done < s'.done || (s.done == s'.done
                  && (|s'.channel| < |s.channel| || (|s'.channel| == |s.channel|
                      && |Unwritten(s')| < |Unwritten(s)|)))))))))
  }

  /** Every step brings the end nearer, in a well-founded order: no run goes on for ever. */
  lemma StepsEnd(job: Job, before: map<Place, Data>, s: State, a: Action)
    requires Inv(job, before, s) && Enabled(job, s, a)
    ensures Next(job, s, a).reading <= |job.chunks| && Nearer(job, s, Next(job, s, a)) && s.done <= |job.chunks|
  {
    hide StatsOk, FatesOk, DevsOk, OthersOk, MsgsOk, Pick, Nearer;
    PlacesKept(job, s, a);
    StepNearer(job, s, a);
  }

  lemma StepNearer(job: Job, s: State, a: Action)
    requires Places(job, s) && Enabled(job, s, a) && Next(job, s, a).reading <= |job.chunks|
    ensures Nearer(job, s, Next(job, s, a))
  {
    hide Nearer, Places;
    if a.Read? {
      ReadNearer(job, s, a);
    } else if a.Write? {
      WriteNearer(job, s, a);
    } else {
      OtherNearer(job, s, a);
    }
  }

  lemma ReadNearer(job: Job, s: State, a: Action)
    requires Enabled(job, s, a) && a.Read?
    ensures s.reading <= |job.chunks| && Next(job, s, a).reading <= |job.chunks| && Nearer(job, s, Next(job, s, a))
  {
    hide Unwritten;
    assert Unread(job, Next(job, s, a)) == Unread(job, s) - {a.i};
    assert a.i in Unread(job, s);
  }

  lemma WriteNearer(job: Job, s: State, a: Action)
    requires Enabled(job, s, a) && a.Write? && s.reading <= |job.chunks|
    ensures Next(job, s, a).reading <= |job.chunks| && Nearer(job, s, Next(job, s, a))
  {
    assert Unwritten(Next(job, s, a)) == Unwritten(s) - {a.i};
    assert a.i in Unwritten(s);
    assert Unread(job, Next(job, s, a)) == Unread(job, s);
  }

  lemma OtherNearer(job: Job, s: State, a: Action)
    requires Enabled(job, s, a) && !a.Read? && !a.Write? && s.reading <= |job.chunks|
    requires Next(job, s, a).reading <= |job.chunks|
    ensures Nearer(job, s, Next(job, s, a))
  {
    hide Unwritten, Pick;
    if !a.Send? {
      assert Unread(job, Next(job, s, a)) == Unread(job, s);
    }
  }
}
