/** When `SyncCopier::copy` copies safely: src/copier/sync_copier.rs. */
module CopySafeties {
  // It does exactly when no two ops write one block and no op reads a block that an earlier chunk writes.

  import opened Wrappers
  import opened Copiers

  /** In the end every op counted as copied has its source's first data in its block. */
  ghost predicate AllHome(job: Job, ss: seq<State>)
    requires ss != []
  {
    var s, before := ss[|ss| - 1], ss[0].dev;
    forall k: nat, i: nat :: job.Has(k, i) && Known(s, k, i, Copied) ==>
      job.To(k, i) in s.dev && job.From(k, i) in before && s.dev[job.To(k, i)] == before[job.From(k, i)]
  }

  /** A run of all the ops from these contents. */
  ghost predicate Whole(job: Job, dev: map<Place, Data>, ss: seq<State>) {
    Run(job, ss) && ss[0].dev == dev && Terminal(job, ss[|ss| - 1])
  }

  // ---- a schedule that goes wrong

  /** What a write that fails may leave in a block: as many bytes, but not the same. */
  function Torn(d: Data): (r: Data)
    ensures |r| == |d| && r != d
  {
    var b: bv8 := if d[0] == 0 then 1 else 0;
    assert d[0 := b][0] != d[0];
    d[0 := b]
  }

  /** Every op succeeds but op j of chunk l, which is written last in its chunk and leaves `torn` in its block.  No
      chunk from there up to `until` writes that block again.  The victim, if there is one, is an op of chunk
      `until` that reads it. */
  datatype Plan = Plan(l: nat, j: nat, torn: Data, until: nat, victim: Option<nat>) {
    ghost predicate Ok(job: Job) {
      && job.Has(l, j) && l < until <= |job.chunks|
      && (forall a: nat, b: nat :: l < a < until && job.Has(a, b) ==> job.To(a, b) != job.To(l, j))
      && (victim.Some? ==> job.Has(until, victim.value) && job.Sole(until, victim.value)
                           && job.From(until, victim.value) == job.To(l, j))
    }
  }

  ghost predicate AsPlanned(plan: Plan, s: State) {
    && (forall k: nat, i: nat :: (k, i) in s.fate ==>
          s.fate[(k, i)] == if (k, i) == (plan.l, plan.j) then WriteFailed else Copied)
    && (s.writer.Writing? && s.writer.msg.k == plan.l && plan.j in s.writer.wrote ==>
          s.writer.msg.bufs.Keys <= s.writer.wrote.Keys)
    && (s.got != map[] ==> s.writer.Idle? && s.channel == [])
    && (forall i: nat :: i in s.got ==> s.got[i].Some?)
  }

  /** The torn block, and the victim's buffer and block. */
  ghost predicate Spoilt(job: Job, plan: Plan, s: State)
    requires plan.Ok(job)
  {
    && ((plan.l, plan.j) in s.fate && s.reading <= plan.until ==>
          job.To(plan.l, plan.j) in s.dev && s.dev[job.To(plan.l, plan.j)] == plan.torn)
    && (plan.victim.Some? ==>
          var i := plan.victim.value;
          && (s.reading == plan.until && i in s.got ==> s.got[i] == Some(plan.torn))
          && (s.channel != [] ==> BufIs(plan, s.channel[0])) && (s.writer.Writing? ==> BufIs(plan, s.writer.msg))
          && ((plan.until, i) in s.fate ==>
                job.To(plan.until, i) in s.dev && s.dev[job.To(plan.until, i)] == plan.torn))
  }

  ghost predicate BufIs(plan: Plan, m: Msg) {
    plan.victim.Some? && m.k == plan.until && plan.victim.value in m.bufs ==> m.bufs[plan.victim.value] == plan.torn
  }

  ghost predicate Good(job: Job, before: map<Place, Data>, plan: Plan, s: State) {
    Inv(job, before, s) && AsPlanned(plan, s) && (plan.Ok(job) ==> Spoilt(job, plan, s))
  }

  /** What the schedule does next. */
  ghost predicate Follows(plan: Plan, s: State, a: Action) {
    match a
    case Read(_, ok) => ok && s.writer.Idle? && s.channel == []
    case Write(i, ok, torn) =>
      s.writer.Writing? &&
      if s.writer.msg.k == plan.l && i == plan.j then !ok && torn == plan.torn && s.writer.msg.bufs.Keys <= s.writer.wrote.Keys + {i}
      else ok
    case _ => true
  }

  lemma {:induction false} Choose(job: Job, before: map<Place, Data>, plan: Plan, s: State) returns (a: Action)
    requires Inv(job, before, s) && !Terminal(job, s)
    ensures Enabled(job, s, a) && Follows(plan, s, a)
  {
    hide StatsOk, FatesOk, DevsOk, OthersOk, MsgOk, GotOk;
    if s.writer.Writing? {
      var m, wrote := s.writer.msg, s.writer.wrote;
      if i: nat :| i in m.bufs && i !in wrote && (m.k != plan.l || i != plan.j) {
        MsgInside(job, before, s, i);
        a := Write(i, true, [0]);
      } else if m.k == plan.l && plan.j in m.bufs && plan.j !in wrote {
        MsgInside(job, before, s, plan.j);
        assert forall i :: i in m.bufs.Keys ==> i in wrote.Keys + {plan.j};
        a := Write(plan.j, false, plan.torn);
      } else {
        a := RecordWrites;
      }
    } else if s.channel != [] {
      a := Receive;
    } else {
      a := ReaderAction(job, before, s);
    }
  }

  lemma {:induction false} MsgInside(job: Job, before: map<Place, Data>, s: State, i: nat)
    requires MsgsOk(job, before, s) && s.writer.Writing? && i in s.writer.msg.bufs
    ensures job.Has(s.writer.msg.k, i)
  {
  }

  lemma {:induction false} PlannedKept(job: Job, plan: Plan, s: State, a: Action)
    requires AsPlanned(plan, s) && Enabled(job, s, a) && Follows(plan, s, a) && Places(job, s)
    ensures AsPlanned(plan, Next(job, s, a))
  {
    hide Pick;
  }

  /** The torn write has been made only if its chunk is done, or is being written and the rest of it has been. */
  lemma {:induction false} WhenTorn(job: Job, before: map<Place, Data>, plan: Plan, s: State)
    requires Places(job, s) && MsgsOk(job, before, s) && FatesOk(job, s) && AsPlanned(plan, s) && job.Has(plan.l, plan.j)
    ensures (plan.l, plan.j) in s.fate ==>
              plan.l < s.done || (s.writer.Writing? && plan.l == s.done && s.writer.msg.bufs.Keys <= s.writer.wrote.Keys)
    ensures plan.l < s.done ==> (plan.l, plan.j) in s.fate
  {
    hide GotOk;
    assert FateOk(job, s, plan.l, plan.j);
  }

  lemma {:induction false} SpoiltKept(job: Job, before: map<Place, Data>, plan: Plan, s: State, a: Action)
    requires Good(job, before, plan, s) && plan.Ok(job) && Enabled(job, s, a) && Follows(plan, s, a)
    ensures Spoilt(job, plan, Next(job, s, a))
  {
    hide Pick, StatsOk, DevsOk, OthersOk;
    WhenTorn(job, before, plan, s);
    hide FatesOk, AsPlanned, MsgsOk;
    match a {
      case Read(i, _) => ReadSpoilt(job, plan, s, a);
      case Write(i, _, _) =>
        assert MsgsOk(job, before, s);
        MsgInside(job, before, s, i);
        WriteSpoilt(job, plan, s, a);
      case Send => SendSpoilt(job, plan, s);
      case _ => OtherSpoilt(job, plan, s, a);
    }
  }

  lemma {:induction false} ReadSpoilt(job: Job, plan: Plan, s: State, a: Action)
    requires plan.Ok(job) && Spoilt(job, plan, s) && Enabled(job, s, a) && Follows(plan, s, a) && a.Read? && Places(job, s)
    requires plan.l < s.done ==> (plan.l, plan.j) in s.fate
    ensures Spoilt(job, plan, Next(job, s, a))
  {
  }

  lemma {:induction false} WriteSpoilt(job: Job, plan: Plan, s: State, a: Action)
    requires plan.Ok(job) && Spoilt(job, plan, s) && Enabled(job, s, a) && Follows(plan, s, a) && a.Write? && Places(job, s)
    requires (plan.l, plan.j) in s.fate ==> plan.l < s.done || (plan.l == s.done && s.writer.msg.bufs.Keys <= s.writer.wrote.Keys)
    ensures Spoilt(job, plan, Next(job, s, a))
  {
    hide BufIs;
    assert s.writer.msg.k == s.done < s.reading;
    assert BufIs(plan, s.writer.msg) || plan.victim.None?;
    if plan.victim.Some? {
      assert job.Sole(plan.until, plan.victim.value);
      assert BufIs(plan, s.writer.msg) ==>
          (s.writer.msg.k == plan.until && a.i == plan.victim.value ==> s.writer.msg.bufs[a.i] == plan.torn) by { BufUnfold(plan, s.writer.msg); }
    }
  }

  lemma {:induction false} BufUnfold(plan: Plan, m: Msg)
    ensures BufIs(plan, m) <==> (plan.victim.Some? && m.k == plan.until && plan.victim.value in m.bufs ==> m.bufs[plan.victim.value] == plan.torn)
  {
  }

  lemma {:induction false} SendSpoilt(job: Job, plan: Plan, s: State)
    requires plan.Ok(job) && Spoilt(job, plan, s) && Enabled(job, s, Send)
    ensures Spoilt(job, plan, Next(job, s, Send))
  {
  }

  lemma {:induction false} OtherSpoilt(job: Job, plan: Plan, s: State, a: Action)
    requires plan.Ok(job) && Spoilt(job, plan, s) && Enabled(job, s, a) && Places(job, s) && !a.Read? && !a.Write? && !a.Send?
    ensures Spoilt(job, plan, Next(job, s, a))
  {
    hide Pick;
  }

  lemma {:induction false} InvPlaces(job: Job, before: map<Place, Data>, s: State)
    requires Inv(job, before, s)
    ensures Places(job, s)
  {
  }

  lemma {:induction false} GoodKept(job: Job, before: map<Place, Data>, plan: Plan, s: State, a: Action)
    requires Good(job, before, plan, s) && Enabled(job, s, a) && Follows(plan, s, a)
    ensures Good(job, before, plan, Next(job, s, a)) && Step(job, s, Next(job, s, a))
  {
    hide Next, Inv, AsPlanned, Spoilt, Follows;
    assert Step(job, s, Next(job, s, a));
    StepKeeps(job, before, s, Next(job, s, a));
    InvPlaces(job, before, s);
    PlannedKept(job, plan, s, a);
    if plan.Ok(job) {
      SpoiltKept(job, before, plan, s, a);
    }
  }

  /** The rest of a run that goes as planned. */
  lemma {:induction false} GoOn(job: Job, before: map<Place, Data>, plan: Plan, s: State) returns (ss: seq<State>)
    requires Good(job, before, plan, s) && s.reading <= |job.chunks| && s.done <= |job.chunks|
    ensures ss != [] && Steps(job, ss) && ss[0] == s && Terminal(job, ss[|ss| - 1]) && Good(job, before, plan, ss[|ss| - 1])
    decreases |job.chunks| - s.reading, if s.recorded then 0 else 1, |Unread(job, s)|, |job.chunks| - s.done, |s.channel|, |Unwritten(s)|
  {
    assert Steps(job, [s]);
    hide Good, Step, Terminal, Unread, Unwritten, Steps;
    if Terminal(job, s) {
      return [s];
    }
    var s' := Advance(job, before, plan, s);
    var rest := GoOn(job, before, plan, s');
    Prepend(job, s, rest);
    ss := [s] + rest;
  }

  ghost predicate Steps(job: Job, ss: seq<State>) {
    ss != [] && forall i :: 0 <= i < |ss| - 1 ==> Step(job, ss[i], ss[i + 1])
  }

  lemma {:induction false} Prepend(job: Job, s: State, ss: seq<State>)
    requires ss != [] && Steps(job, ss) && Step(job, s, ss[0])
    ensures Steps(job, [s] + ss) && ([s] + ss)[|ss|] == ss[|ss| - 1]
  {
    hide Step;
    var all := [s] + ss;
    forall i | 0 <= i < |all| - 1 ensures Step(job, all[i], all[i + 1]) {
      assert i > 0 ==> all[i] == ss[i - 1] && all[i + 1] == ss[i];
    }
  }

  lemma {:induction false} Advance(job: Job, before: map<Place, Data>, plan: Plan, s: State) returns (s': State)
    requires Good(job, before, plan, s) && !Terminal(job, s)
    ensures Good(job, before, plan, s') && Step(job, s, s')
    ensures s.done <= |job.chunks| && s'.done <= |job.chunks| && s.reading <= |job.chunks| && s'.reading <= |job.chunks|
    ensures Nearer(job, s, s')
  {
    var a := Choose(job, before, plan, s);
    GoodKept(job, before, plan, s, a);
    StepsEnd(job, before, s, a);
    s' := Next(job, s, a);
    hide Next, Nearer, Terminal, Follows, Step, AsPlanned, Spoilt, Enabled;
    InvPlaces(job, before, s);
    InvPlaces(job, before, s');
  }

  /** A run as planned from any contents. */
  lemma {:induction false} PlannedRun(job: Job, dev: map<Place, Data>, plan: Plan) returns (ss: seq<State>)
    requires job.Inside(dev)
    ensures Whole(job, dev, ss) && Good(job, dev, plan, ss[|ss| - 1])
  {
    var s := State(dev, 0, map[], false, [], Idle, 0, [], [], 0, map[]);
    assert Run(job, [s]);
    RunInv(job, [s], 0);
    assert Good(job, dev, plan, s);
    ss := GoOn(job, dev, plan, s);
  }

  /** Another op that writes the torn block is counted as copied, and so is the victim. */
  lemma {:induction false} PlanSpoils(job: Job, dev: map<Place, Data>, plan: Plan, s: State, k: nat, i: nat)
    requires Good(job, dev, plan, s) && plan.Ok(job) && Terminal(job, s) && job.Has(k, i) && (k, i) != (plan.l, plan.j)
    requires (plan.until == |job.chunks| && job.To(k, i) == job.To(plan.l, plan.j)) || (k == plan.until && plan.victim == Some(i))
    ensures Known(s, k, i, Copied) && job.To(k, i) in s.dev && s.dev[job.To(k, i)] == plan.torn
  {
    assert FateOk(job, s, k, i) && FateOk(job, s, plan.l, plan.j);
  }

  /** The last op of the first n chunks that writes a block, if any does. */
  lemma {:induction false} LastWriter(job: Job, n: nat, p: Place) returns (l: nat, j: nat)
    requires n <= |job.chunks| && job.Target(n, p)
    ensures l < n && job.Has(l, j) && job.To(l, j) == p
    ensures forall a: nat, b: nat :: l < a < n && job.Has(a, b) ==> job.To(a, b) != p
  {
    var last := n - 1;
    if b: nat :| job.Has(last, b) && job.To(last, b) == p {
      l, j := last, b;
    } else {
      l, j := LastWriter(job, n - 1, p);
    }
  }

  /** Two ops that write one block: from any contents there is a run after which one of them counts as copied and
      its block holds something else. */
  lemma {:induction false} SharedBlockSpoilt(job: Job, dev: map<Place, Data>, k: nat, i: nat) returns (ss: seq<State>)
    requires job.Inside(dev) && job.Has(k, i) && !job.Sole(k, i)
    ensures Whole(job, dev, ss) && !AllHome(job, ss)
  {
    var l: nat, j: nat :| job.Has(l, j) && (l, j) != (k, i) && job.To(l, j) == job.To(k, i);
    var p := job.To(k, i);
    assert job.Target(|job.chunks|, p);
    var a, b := LastWriter(job, |job.chunks|, p);
    var c, d := k, i;
    if (k, i) == (a, b) {
      c, d := l, j;
    }
    var plan := Plan(a, b, Torn(dev[job.From(c, d)]), |job.chunks|, None);
    ss := PlannedRun(job, dev, plan);
    PlanSpoils(job, dev, plan, ss[|ss| - 1], c, d);
  }

  /** An op that reads what an earlier chunk writes: likewise. */
  lemma {:induction false} StaleSourceSpoilt(job: Job, dev: map<Place, Data>, k: nat, i: nat) returns (ss: seq<State>)
    requires job.Inside(dev) && job.Has(k, i) && job.Sole(k, i) && !job.Stable(k, i)
    ensures Whole(job, dev, ss) && !AllHome(job, ss)
  {
    var a, b := LastWriter(job, k, job.From(k, i));
    var plan := Plan(a, b, Torn(dev[job.From(k, i)]), k, Some(i));
    ss := PlannedRun(job, dev, plan);
    PlanSpoils(job, dev, plan, ss[|ss| - 1], k, i);
  }

  lemma {:induction false} SeparateIsHome(job: Job, dev: map<Place, Data>, ss: seq<State>)
    requires job.Separate() && Whole(job, dev, ss)
    ensures AllHome(job, ss)
  {
    CopyOutcome(job, ss);
    hide Whole, Run, Terminal;
    var s := ss[|ss| - 1];
    forall k: nat, i: nat | job.Has(k, i) && Known(s, k, i, Copied)
      ensures job.To(k, i) in s.dev && job.From(k, i) in dev && s.dev[job.To(k, i)] == dev[job.From(k, i)]
    {
      assert DevOk(job, dev, s, k, i);
    }
  }

  /** Whatever the devices hold at first: every run leaves every op counted as copied with its data in its block if
      and only if no two ops write one block and no op reads a block that an earlier chunk writes. */
  lemma {:induction false} SafeExactly(job: Job, dev: map<Place, Data>)
    requires job.Inside(dev)
    ensures (forall ss: seq<State> :: Whole(job, dev, ss) ==> AllHome(job, ss)) <==> job.Separate()
  {
    if job.Separate() {
      forall ss: seq<State> | Whole(job, dev, ss) ensures AllHome(job, ss) {
        SeparateIsHome(job, dev, ss);
      }
    } else {
      var k: nat, i: nat :| job.Has(k, i) && !(job.Sole(k, i) && job.Stable(k, i));
      var ss;
      if !job.Sole(k, i) {
        ss := SharedBlockSpoilt(job, dev, k, i);
      } else {
        ss := StaleSourceSpoilt(job, dev, k, i);
      }
    }
  }
}
