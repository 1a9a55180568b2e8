/** `to_delta` of src/pack/delta_list.rs, against the `from_delta` of its tests. */
module DeltaLists {
  import opened Bytes

  datatype Delta =
    | Base(n: u64)
    | Const(count: nat)
    | Pos(delta: u64, count: nat)
    | Neg(delta: u64, count: nat)

  /** count values, each differing from the one before by step, modulo 2^64. */
  function Steps(base: u64, step: int, count: nat): (ns: seq<u64>)
    ensures |ns| == count
    decreases count
  {
    if count == 0 then [] else
      var next := (base + step) % TWO64;
      [next] + Steps(next, step, count - 1)
  }

  /** What a delta stands for after a value of base, and the value it ends on. */
  function Run(base: u64, d: Delta): seq<u64> {
    match d
    case Base(n) => [n]
    case Const(count) => Steps(base, 0, count)
    case Pos(delta, count) => Steps(base, delta, count)
    case Neg(delta, count) => Steps(base, -(delta as int), count)
  }

  function Last(base: u64, ns: seq<u64>): u64 {
    if ns == [] then base else ns[|ns| - 1]
  }

  function FromDelta(base: u64, ds: seq<Delta>): seq<u64>
    decreases |ds|
  {
    if ds == [] then [] else Run(base, ds[0]) + FromDelta(Last(base, Run(base, ds[0])), ds[1..])
  }

  /** Every count fits the twelve bits a packed count has, and no delta is empty. */
  predicate Countable(d: Delta, max: int) {
    match d
    case Base(_) => true
    case Const(count) => 1 <= count <= max
    case Pos(_, count) => 1 <= count <= max
    case Neg(_, count) => 1 <= count <= max
  }

  /** By how much b follows a, modulo 2^64. */
  function Difference(a: u64, b: u64): u64 {
    (b - a) % TWO64
  }

  /** By how much each value of a run follows the one before. */
  function StepOf(d: Delta): u64
    requires !d.Base?
  {
    match d
    case Const(_) => 0
    case Pos(delta, _) => delta
    case Neg(delta, _) => (-(delta as int)) % TWO64
  }

  /** The run goes up, down or nowhere as its first value does: the first step does not wrap round. */
  predicate GoesFrom(base: u64, d: Delta) {
    match d
    case Base(_) => false
    case Const(_) => true
    case Pos(delta, _) => 0 < delta && base + delta < TWO64
    case Neg(delta, _) => 0 < delta <= base
  }

  /** A base and then runs, none of them empty. */
  ghost predicate Runs(ds: seq<Delta>) {
    (ds != [] ==> ds[0].Base?) && forall k :: 1 <= k < |ds| ==> !ds[k].Base? && ds[k].count >= 1
  }

  /** Each run is as long as it can be: what follows it is not one more step of the same size. */
  ghost predicate Longest(ds: seq<Delta>) {
    Runs(ds) && forall k :: 1 <= k < |ds| - 1 ==> StepOf(ds[k]) != StepOf(ds[k + 1])
  }

  ghost predicate Directed(ds: seq<Delta>) {
    forall k :: 1 <= k < |ds| ==> GoesFrom(Last(0, FromDelta(0, ds[..k])), ds[k])
  }

  /** The longest runs that stand for ns. */
  ghost predicate DeltasOf(ds: seq<Delta>, ns: seq<u64>) {
    FromDelta(0, ds) == ns && Longest(ds) && Directed(ds)
  }

  lemma ModShift(a: int, b: int, c: int)
    ensures ((a + b) % TWO64 + c) % TWO64 == (a + b + c) % TWO64
  {
    var q := (a + b) / TWO64;
    assert a + b == q * TWO64 + (a + b) % TWO64;
    ModMultiple((a + b) % TWO64 + c, q);
  }

  lemma ModMultiple(x: int, q: int)
    ensures (x + q * TWO64) % TWO64 == x % TWO64
  {
    var k := x / TWO64;
    assert x == k * TWO64 + x % TWO64;
    assert x + q * TWO64 == (k + q) * TWO64 + x % TWO64;
  }

  /** The value k steps after base. */
  function Stepping(base: u64, step: int, k: nat): u64 {
    (base + k * step) % TWO64
  }

  lemma SteppingNext(base: u64, step: int, k: nat)
    ensures Stepping(base, step, 0) == base && (Stepping(base, step, k) + step) % TWO64 == Stepping(base, step, k + 1)
  {
    ModShift(base, k * step, step);
    assert base + k * step + step == base + (k + 1) * step;
  }

  lemma DifferenceIsStep(a: u64, b: u64, step: int)
    requires (a + step) % TWO64 == b
    ensures Difference(a, b) == step % TWO64
  {
    var q := (a + step) / TWO64;
    assert b - a == step + -q * TWO64;
    ModMultiple(step, -q);
  }

  lemma {:induction false} StepsAt(base: u64, step: int, count: nat, k: nat)
    requires k < count
    ensures Steps(base, step, count)[k] == Stepping(base, step, k + 1)
    decreases count
  {
    hide Stepping;
    var next := (base + step) % TWO64;
    SteppingNext(base, step, 0);
    if k > 0 {
      StepsAt(next, step, count - 1, k - 1);
      SteppingShift(base, step, k);
    }
  }

  lemma {:induction false} SteppingShift(base: u64, step: int, k: nat)
    ensures Stepping((base + step) % TWO64, step, k) == Stepping(base, step, k + 1)
  {
    ModShift(base, step, k * step);
    assert base + step + k * step == base + (k + 1) * step;
  }

  lemma {:induction false} FromDeltaPush(base: u64, ds: seq<Delta>, d: Delta)
    ensures FromDelta(base, ds + [d]) == FromDelta(base, ds) + Run(Last(base, FromDelta(base, ds)), d)
    decreases |ds|
  {
    hide Run, Steps;
    if ds == [] {
      assert ds + [d] == [d] && [d][1..] == [];
    } else {
      assert (ds + [d])[1..] == ds[1..] + [d];
      FromDeltaPush(Last(base, Run(base, ds[0])), ds[1..], d);
      var a, b := Run(base, ds[0]), FromDelta(Last(base, Run(base, ds[0])), ds[1..]);
      assert FromDelta(base, ds) == a + b;
      assert Last(base, a + b) == Last(Last(base, a), b);
    }
  }

  lemma {:induction false} FromDeltaStart()
    ensures FromDelta(0, []) == []
  {
  }

  /** The inner loops: how many of the values from i on continue the run from base by step. */
  method CountRun(ns: seq<u64>, i: nat, base: u64, step: int) returns (count: nat)
    requires i < |ns| && (base + step) % TWO64 == ns[i]
    ensures 1 <= count <= |ns| - i && ns[i..i + count] == Steps(base, step, count)
    ensures i + count < |ns| ==> ns[i + count] != Stepping(base, step, count + 1)
  {
    var j := i;
    count := 1;
    while j < |ns| && ns[j] == Stepping(base, step, count)
      invariant i <= j <= |ns| && count == j - i + 1
      invariant forall k :: i <= k < j ==> ns[k] == Stepping(base, step, k - i + 1)
    {
      j, count := j + 1, count + 1;
    }
    count := count - 1;
    assert count >= 1 by {
      assert base + 1 * step == base + step;
    }
    forall k | 0 <= k < count ensures ns[i..j][k] == Steps(base, step, count)[k] {
      StepsAt(base, step, count, k);
    }
  }

  /** One round of the outer loop: a run that starts at i and cannot go on, and the value it ends on. */
  method NextDelta(ns: seq<u64>, i: nat, base: u64) returns (d: Delta, next: u64)
    requires i < |ns|
    ensures !d.Base? && 1 <= d.count <= |ns| - i && Run(base, d) == ns[i..i + d.count] && next == ns[i + d.count - 1]
    ensures GoesFrom(base, d)
    ensures i + d.count < |ns| ==> Difference(next, ns[i + d.count]) != StepOf(d)
  {
    hide Steps, Stepping;
    var n, step := ns[i], 0;
    if n < base {
      step := -((base - n) as int);
      var count := CountRun(ns, i, base, step);
      d := Neg(base - n, count);
    } else if n == base {
      var count := CountRun(ns, i, base, step);
      d := Const(count);
    } else {
      step := n - base;
      var count := CountRun(ns, i, base, step);
      d := Pos(n - base, count);
    }
    next := Stepping(base, step, d.count);
    RunEnds(ns[i..i + d.count], base, step);
    if i + d.count < |ns| {
      OneMore(base, step, d.count, ns[i + d.count]);
    }
  }

  /** A value that is not one step further on differs by something else. */
  lemma OneMore(base: u64, step: int, count: nat, n: u64)
    requires n != Stepping(base, step, count + 1)
    ensures Difference(Stepping(base, step, count), n) != step % TWO64
  {
    hide Stepping;
    var m := Stepping(base, step, count);
    if (n - m) % TWO64 == step % TWO64 {
      SteppingNext(base, step, count);
      SameDifference(m, n, step);
    }
  }

  lemma SameDifference(m: u64, n: u64, step: int)
    requires (n - m) % TWO64 == step % TWO64
    ensures (m + step) % TWO64 == n
  {
    var q := step / TWO64;
    var k := (n - m) / TWO64;
    assert step == q * TWO64 + step % TWO64 && n - m == k * TWO64 + (n - m) % TWO64;
    assert m + step == n + (q - k) * TWO64;
    ModMultiple(n, q - k);
  }

  lemma {:induction false} RunEnds(ns: seq<u64>, base: u64, step: int)
    requires ns != [] && ns == Steps(base, step, |ns|)
    ensures ns[|ns| - 1] == Stepping(base, step, |ns|)
  {
    StepsAt(base, step, |ns|, |ns| - 1);
  }

  method ToDelta(ns: seq<u64>) returns (ds: seq<Delta>)
    ensures DeltasOf(ds, ns)
    ensures ns != [] ==> ds != [] && ds[0] == Base(ns[0])
    ensures |ds| <= |ns| && forall d :: d in ds ==> Countable(d, |ns| - 1)
  {
    hide Steps, FromDelta, Difference, StepOf, GoesFrom, Longest, Directed, Run;
    ds := [];
    FromDeltaStart();
    ListStarts([]);
    if ns != [] {
      var base := ns[0];
      ds := [Base(base)];
      ListStarts(ds);
      OnlyBase(ds);
      assert [base] == ns[..1];
      var i := 1;
      while i < |ns|
        invariant 1 <= |ds| <= i <= |ns| && ds[0] == Base(ns[0])
        invariant FromDelta(0, ds) == ns[..i] && base == ns[i - 1]
        invariant forall d :: d in ds ==> Countable(d, |ns| - 1)
        invariant Longest(ds) && Directed(ds)
        invariant |ds| > 1 ==> !ds[|ds| - 1].Base? && (i < |ns| ==> Difference(base, ns[i]) != StepOf(ds[|ds| - 1]))
      {
        var d, next := NextDelta(ns, i, base);
        FromDeltaPush(0, ds, d);
        RunStarts(base, d);
        LongestPush(ds, d);
        DirectedPush(ds, d);
        assert ns[..i + d.count] == ns[..i] + ns[i..i + d.count];
        ds, i, base := ds + [d], i + d.count, next;
      }
      assert ns[..|ns|] == ns;
    }
  }

  lemma ListStarts(ds: seq<Delta>)
    requires |ds| <= 1 && (ds != [] ==> ds[0].Base?)
    ensures Longest(ds) && Directed(ds)
  {
  }

  lemma LongestPush(ds: seq<Delta>, d: Delta)
    requires ds != [] && Longest(ds) && !d.Base? && d.count >= 1
    requires |ds| > 1 ==> !ds[|ds| - 1].Base? && StepOf(ds[|ds| - 1]) != StepOf(d)
    ensures Longest(ds + [d])
  {
  }

  lemma {:induction false} DirectedPush(ds: seq<Delta>, d: Delta)
    requires ds != [] && Directed(ds) && GoesFrom(Last(0, FromDelta(0, ds)), d)
    ensures Directed(ds + [d])
  {
    hide FromDelta, GoesFrom;
    forall k | 1 <= k < |ds + [d]| ensures GoesFrom(Last(0, FromDelta(0, (ds + [d])[..k])), (ds + [d])[k]) {
      assert (ds + [d])[..k] == if k < |ds| then ds[..k] else ds;
    }
  }

  lemma {:induction false} RunStarts(base: u64, d: Delta)
    requires !d.Base? && d.count >= 1
    ensures Difference(base, Run(base, d)[0]) == StepOf(d)
  {
    RunAt(base, d, 0);
  }

  /** The values of a run. */
  lemma {:induction false} RunAt(base: u64, d: Delta, k: nat)
    requires !d.Base? && k < d.count
    ensures |Run(base, d)| == d.count
    ensures Difference(if k == 0 then base else Run(base, d)[k - 1], Run(base, d)[k]) == StepOf(d)
  {
    hide Steps, Stepping, Difference;
    var step := match d case Const(_) => 0 case Pos(delta, _) => delta as int case Neg(delta, _) => -(delta as int);
    assert Run(base, d) == Steps(base, step, d.count);
    StepsAt(base, step, d.count, k);
    if k > 0 {
      StepsAt(base, step, d.count, k - 1);
    }
    SteppingNext(base, step, k);
    DifferenceIsStep(Stepping(base, step, k), Stepping(base, step, k + 1), step);
  }

  /** What ds stands for ends with its last run. */
  lemma {:induction false} LastRun(ds: seq<Delta>) returns (before: seq<u64>)
    requires Runs(ds) && |ds| > 1
    ensures before == FromDelta(0, ds[..|ds| - 1]) && before != [] && Runs(ds[..|ds| - 1])
    ensures FromDelta(0, ds) == before + Run(Last(0, before), ds[|ds| - 1])
  {
    hide Steps;
    var n := |ds| - 1;
    assert ds == ds[..n] + [ds[n]];
    before := FromDelta(0, ds[..n]);
    FromDeltaPush(0, ds[..n], ds[n]);
    assert ds[..n][0] == ds[0];
  }

  /** The last values of what ds stands for follow one another by the step of its last run. */
  lemma {:induction false} LastSteps(ds: seq<Delta>, k: nat)
    requires Runs(ds) && |ds| > 1 && k < ds[|ds| - 1].count
    ensures var ns := FromDelta(0, ds);
            |ns| >= k + 2 && Difference(ns[|ns| - k - 2], ns[|ns| - k - 1]) == StepOf(ds[|ds| - 1])
  {
    hide FromDelta, Run, Difference, StepOf;
    var before := LastRun(ds);
    var d := ds[|ds| - 1];
    RunAt(Last(0, before), d, d.count - k - 1);
  }

  /** A run of a longest list is not part of a longer run of any other list for the same values. */
  lemma {:induction false} NoLonger(ds: seq<Delta>, es: seq<Delta>)
    requires Longest(ds) && Runs(es) && |ds| > 1 && |es| > 1 && FromDelta(0, ds) == FromDelta(0, es)
    ensures es[|es| - 1].count <= ds[|ds| - 1].count && StepOf(es[|es| - 1]) == StepOf(ds[|ds| - 1])
  {
    hide FromDelta, Run, Difference, StepOf;
    var d, e := ds[|ds| - 1], es[|es| - 1];
    LastSteps(ds, 0);
    LastSteps(es, 0);
    if e.count > d.count {
      LastSteps(es, d.count);
      var before := LastRun(ds);
      RunAt(Last(0, before), d, 0);
      if |ds| > 2 {
        LastSteps(ds[..|ds| - 1], 0);
      } else {
        assert ds[..1] == [ds[0]];
        OnlyBase(ds[..1]);
      }
    }
  }

  lemma {:induction false} OnlyBase(ds: seq<Delta>)
    requires |ds| == 1 && ds[0].Base?
    ensures FromDelta(0, ds) == [ds[0].n]
  {
    assert FromDelta(0, ds) == Run(0, ds[0]) + FromDelta(Last(0, Run(0, ds[0])), ds[1..]);
  }

  lemma {:induction false} ValuesCount(ds: seq<Delta>)
    requires Runs(ds)
    ensures if |ds| > 1 then |FromDelta(0, ds)| >= 2 else |FromDelta(0, ds)| == |ds|
  {
    hide Run, FromDelta, Difference;
    if ds == [] {
      FromDeltaStart();
    } else if |ds| == 1 {
      OnlyBase(ds);
    } else {
      LastSteps(ds, 0);
    }
  }

  function Shortened(d: Delta, count: nat): Delta
    requires !d.Base?
  {
    match d
    case Const(_) => Const(count)
    case Pos(delta, _) => Pos(delta, count)
    case Neg(delta, _) => Neg(delta, count)
  }

  lemma {:induction false} StepsPrefix(base: u64, step: int, count: nat, k: nat)
    requires k <= count
    ensures Steps(base, step, count)[..k] == Steps(base, step, k)
  {
    forall j | 0 <= j < k ensures Steps(base, step, count)[j] == Steps(base, step, k)[j] {
      StepsAt(base, step, count, j);
      StepsAt(base, step, k, j);
    }
  }

  lemma {:induction false} RunPrefix(base: u64, d: Delta, k: nat)
    requires !d.Base? && k <= d.count
    ensures Run(base, Shortened(d, k)) == Run(base, d)[..k] && |Run(base, d)| == d.count
  {
    match d
    case Const(count) => StepsPrefix(base, 0, count, k);
    case Pos(delta, count) => StepsPrefix(base, delta, count, k);
    case Neg(delta, count) => StepsPrefix(base, -(delta as int), count, k);
  }

  /** Without the last run of es, what is left is what ds stands for with its last run shortened, or dropped. */
  lemma {:induction false} Dropped(ds: seq<Delta>, es: seq<Delta>) returns (left: nat)
    requires Longest(ds) && Runs(es) && |ds| > 1 && |es| > 1 && FromDelta(0, ds) == FromDelta(0, es)
    ensures left == ds[|ds| - 1].count - es[|es| - 1].count
    ensures left == 0 ==> FromDelta(0, ds[..|ds| - 1]) == FromDelta(0, es[..|es| - 1])
    ensures left > 0 ==>
              FromDelta(0, ds[..|ds| - 1] + [Shortened(ds[|ds| - 1], left)]) == FromDelta(0, es[..|es| - 1])
  {
    hide FromDelta, Run, StepOf;
    NoLonger(ds, es);
    var d, e := ds[|ds| - 1], es[|es| - 1];
    var b := LastRun(ds);
    var c := LastRun(es);
    left := d.count - e.count;
    RunPrefix(Last(0, b), d, left);
    RunPrefix(Last(0, c), e, 0);
    var ns := FromDelta(0, ds);
    assert |c| == |b| + left && c == ns[..|c|];
    FromDeltaPush(0, ds[..|ds| - 1], Shortened(d, left));
    assert b + Run(Last(0, b), d)[..left] == ns[..|c|];
  }

  /** No list of deltas for the same values is shorter. */
  lemma {:induction false} FewestDeltas(ds: seq<Delta>, es: seq<Delta>)
    requires Longest(ds) && Runs(es) && FromDelta(0, ds) == FromDelta(0, es)
    ensures |ds| <= |es|
    decreases |es|
  {
    hide FromDelta, Run;
    ValuesCount(ds);
    ValuesCount(es);
    if |ds| > 1 {
      var left := Dropped(ds, es);
      var ds', d := ds[..|ds| - 1], ds[|ds| - 1];
      NoLonger(ds, es);
      FewestDeltas(if left == 0 then ds' else ds' + [Shortened(d, left)], es[..|es| - 1]);
    }
  }

  lemma SameWay(base: u64, d: Delta, e: Delta)
    requires GoesFrom(base, d) && GoesFrom(base, e) && StepOf(d) == StepOf(e) && d.count == e.count
    ensures d == e
  {
  }

  /** The values leave only one such list. */
  lemma {:induction false} OneList(ds: seq<Delta>, es: seq<Delta>)
    requires Longest(ds) && Longest(es) && Directed(ds) && Directed(es) && FromDelta(0, ds) == FromDelta(0, es)
    ensures ds == es
    decreases |ds|
  {
    hide FromDelta, Run, StepOf, GoesFrom;
    ValuesCount(ds);
    ValuesCount(es);
    if |ds| > 1 {
      NoLonger(ds, es);
      NoLonger(es, ds);
      var left := Dropped(ds, es);
      var ds', es' := ds[..|ds| - 1], es[..|es| - 1];
      forall k | 1 <= k < |ds'| ensures GoesFrom(Last(0, FromDelta(0, ds'[..k])), ds'[k]) {
        assert ds'[..k] == ds[..k];
      }
      forall k | 1 <= k < |es'| ensures GoesFrom(Last(0, FromDelta(0, es'[..k])), es'[k]) {
        assert es'[..k] == es[..k];
      }
      OneList(ds', es');
      SameWay(Last(0, FromDelta(0, ds')), ds[|ds| - 1], es[|es| - 1]);
      assert ds == ds' + [ds[|ds| - 1]] && es == es' + [es[|es| - 1]];
    } else if |ds| == 1 {
      OnlyBase(ds);
      OnlyBase(es);
    }
  }

  /** Values a fixed step apart take one run, however many they are. */
  lemma {:induction false} EvenlySpaced(ds: seq<Delta>, ns: seq<u64>, step: u64)
    requires DeltasOf(ds, ns) && |ns| >= 2
    requires forall i :: 0 <= i < |ns| - 1 ==> Difference(ns[i], ns[i + 1]) == step
    ensures |ds| == 2 && ds[0] == Base(ns[0]) && !ds[1].Base? && StepOf(ds[1]) == step && ds[1].count == |ns| - 1
  {
    hide FromDelta, Steps, StepOf, Directed;
    var n := |ns| - 1;
    var run := if step == 0 then Const(n) else Pos(step, n);
    forall k | 0 <= k < n ensures Steps(ns[0], step, n)[k] == ns[1..][k] {
      StepsAt(ns[0], step, n, k);
      Spaced(ns, step, k + 1);
    }
    assert Steps(ns[0], step, n) == ns[1..];
    assert ns == [ns[0]] + ns[1..];
    OnlyBase([Base(ns[0])]);
    assert [Base(ns[0])] + [run] == [Base(ns[0]), run];
    FromDeltaPush(0, [Base(ns[0])], run);
    FewestDeltas(ds, [Base(ns[0]), run]);
    ValuesCount(ds);
    var before := LastRun(ds);
    assert ds[..1] == [ds[0]];
    OnlyBase(ds[..1]);
    RunPrefix(Last(0, before), ds[1], 0);
    LastSteps(ds, 0);
  }

  lemma {:induction false} Spaced(ns: seq<u64>, step: u64, k: nat)
    requires k < |ns| && forall i :: 0 <= i < |ns| - 1 ==> Difference(ns[i], ns[i + 1]) == step
    ensures ns[k] == Stepping(ns[0], step, k)
  {
    hide Stepping;
    SteppingNext(ns[0], step, if k > 0 then k - 1 else 0);
    if k > 0 {
      Spaced(ns, step, k - 1);
      assert Difference(ns[k - 1], ns[k]) == step;
      SameDifference(ns[k - 1], ns[k], step);
    }
  }

  lemma {:induction false} TwoDeltas(n: u64, d: Delta)
    requires !d.Base? && d.count >= 1 && GoesFrom(n, d)
    ensures DeltasOf([Base(n), d], [n] + Run(n, d))
  {
    hide Steps;
    OnlyBase([Base(n)]);
    assert [Base(n)] + [d] == [Base(n), d] && [Base(n), d][..1] == [Base(n)];
    FromDeltaPush(0, [Base(n)], d);
  }

  lemma ThreeSteps(base: u64, step: int)
    ensures Steps(base, step, 3) == [(base + step) % TWO64, (base + 2 * step) % TWO64, (base + 3 * step) % TWO64]
  {
    StepsAt(base, step, 3, 0);
    StepsAt(base, step, 3, 1);
    StepsAt(base, step, 3, 2);
  }

  /** Values up by one, down by two and the same: in each case the list can only be this one. */
  lemma DeltaCases(ds: seq<Delta>, ns: seq<u64>)
    requires DeltasOf(ds, ns)
    ensures ns == [1, 2, 3, 4] ==> ds == [Base(1), Pos(1, 3)]
    ensures ns == [10, 8, 6, 4] ==> ds == [Base(10), Neg(2, 3)]
    ensures ns == [42, 42, 42, 42] ==> ds == [Base(42), Const(3)]
    ensures ns == [1, 0, 0xFFFF_FFFF_FFFF_FFFF, 0xFFFF_FFFF_FFFF_FFFE] ==> ds == [Base(1), Neg(1, 3)]
  {
    hide Longest, Directed, FromDelta;
    ThreeSteps(1, 1);
    ThreeSteps(10, -2);
    ThreeSteps(42, 0);
    ThreeSteps(1, -1);
    assert [1] + [2, 3, 4] == [1, 2, 3, 4] && [10] + [8, 6, 4] == [10, 8, 6, 4] && [42] + [42, 42, 42] == [42, 42, 42, 42];
    if ns == [1, 2, 3, 4] {
      TwoDeltas(1, Pos(1, 3));
      OneList(ds, [Base(1), Pos(1, 3)]);
    } else if ns == [10, 8, 6, 4] {
      TwoDeltas(10, Neg(2, 3));
      OneList(ds, [Base(10), Neg(2, 3)]);
    } else if ns == [42, 42, 42, 42] {
      TwoDeltas(42, Const(3));
      OneList(ds, [Base(42), Const(3)]);
    } else if ns == [1, 0, 0xFFFF_FFFF_FFFF_FFFF, 0xFFFF_FFFF_FFFF_FFFE] {
      TwoDeltas(1, Neg(1, 3));
      OneList(ds, [Base(1), Neg(1, 3)]);
    }
  }
}
