/** Run-length mappings and their difference: src/thin/delta.rs. */
module ThinDeltas {
  import opened Wrappers

  datatype DataMapping = DataMapping(thin: nat, data: nat, len: nat) {
    predicate Has(x: nat) {
      thin <= x < thin + len
    }

    function Drop(n: nat): DataMapping
      requires n <= len
    {
      DataMapping(thin + n, data + n, len - n)
    }
  }

  /** What a list of mappings says of a thin block. */
  function At(ms: seq<DataMapping>, x: nat): Option<nat> {
    if ms == [] then None
    else if ms[0].Has(x) then Some(ms[0].data + (x - ms[0].thin))
    else At(ms[1..], x)
  }

  /** One of the mappings sends x to y: block i of it to block i of its data. */
  ghost predicate MapsTo(ms: seq<DataMapping>, x: nat, y: nat) {
    exists k :: 0 <= k < |ms| && ms[k].thin <= x < ms[k].thin + ms[k].len && y == ms[k].data + (x - ms[k].thin)
  }

  ghost predicate Mapped(ms: seq<DataMapping>, x: nat) {
    exists y :: MapsTo(ms, x, y)
  }

  lemma {:induction false} AtSays(ms: seq<DataMapping>, x: nat, y: nat)
    requires Sorted(ms)
    ensures At(ms, x) == Some(y) <==> MapsTo(ms, x, y)
  {
    if ms != [] {
      AtSays(ms[1..], x, y);
      if ms[0].Has(x) {
        forall k | 1 <= k < |ms| ensures !ms[k].Has(x) {
          assert ms[0].thin + ms[0].len <= ms[k].thin;
        }
      } else if MapsTo(ms, x, y) {
        var k :| 0 <= k < |ms| && ms[k].thin <= x < ms[k].thin + ms[k].len && y == ms[k].data + (x - ms[k].thin);
        assert ms[1..][k - 1] == ms[k];
      }
      if MapsTo(ms[1..], x, y) {
        var k :| 0 <= k < |ms[1..]| && ms[1..][k].thin <= x < ms[1..][k].thin + ms[1..][k].len && y == ms[1..][k].data + (x - ms[1..][k].thin);
        assert ms[k + 1] == ms[1..][k];
      }
    }
  }

  lemma {:induction false} AtNone(ms: seq<DataMapping>, x: nat)
    requires Sorted(ms)
    ensures At(ms, x) == None <==> !Mapped(ms, x)
  {
    if At(ms, x).Some? {
      AtSays(ms, x, At(ms, x).value);
    }
    if Mapped(ms, x) {
      var y :| MapsTo(ms, x, y);
      AtSays(ms, x, y);
    }
  }

  predicate Sorted(ms: seq<DataMapping>) {
    && (forall i :: 0 <= i < |ms| ==> ms[i].len > 0)
    && forall i, j :: 0 <= i < j < |ms| ==> ms[i].thin + ms[i].len <= ms[j].thin
  }

  // ---- collecting runs

  /** The key and value pairs a run stands for. */
  function Pairs(m: DataMapping): (ps: seq<(nat, nat)>)
    ensures |ps| == m.len
  {
    seq(m.len, i requires i >= 0 => (m.thin + i, m.data + i))
  }

  function AllPairs(ms: seq<DataMapping>): seq<(nat, nat)> {
    if ms == [] then [] else AllPairs(ms[..|ms| - 1]) + Pairs(ms[|ms| - 1])
  }

  function Zip(keys: seq<nat>, values: seq<nat>): (ps: seq<(nat, nat)>)
    requires |keys| == |values|
    ensures |ps| == |keys| && forall i :: 0 <= i < |ps| ==> ps[i] == (keys[i], values[i])
  {
    seq(|keys|, i requires 0 <= i < |keys| => (keys[i], values[i]))
  }

  predicate Ascend(ps: seq<(nat, nat)>) {
    forall i, j :: 0 <= i < j < |ps| ==> ps[i].0 < ps[j].0
  }

  /** The second run does not continue the first. */
  predicate Apart(a: DataMapping, b: DataMapping) {
    a.thin + a.len != b.thin || a.data + a.len != b.data
  }

  function Open(run: Option<DataMapping>): seq<DataMapping> {
    if run.Some? then [run.value] else []
  }

  class RunBuilder {
    var run: Option<DataMapping>

    constructor ()
      ensures run == None
    {
      run := None;
    }

    /** Extends the run, or starts another and returns it. */
    method Next(thin: nat, data: nat) returns (done: Option<DataMapping>)
      modifies this
      ensures run.Some? && run.value.len > 0
      ensures AllPairs(Open(done)) + Pairs(run.value) == AllPairs(Open(old(run))) + [(thin, data)]
      ensures done.Some? ==> done == old(run) && run == Some(DataMapping(thin, data, 1)) && Apart(done.value, run.value)
      ensures done.None? && old(run).Some? ==> run == Some(old(run).value.(len := old(run).value.len + 1))
      ensures done.None? && old(run).None? ==> run == Some(DataMapping(thin, data, 1))
    {
      OnePair(Open(run));
      if run.Some? {
        var r := run.value;
        if r.thin + r.len == thin && r.data + r.len == data {
          run := Some(r.(len := r.len + 1));
          assert Pairs(run.value) == Pairs(r) + [(thin, data)];
          return None;
        }
      }
      done, run := run, Some(DataMapping(thin, data, 1));
      assert Pairs(run.value) == [(thin, data)];
    }

    method Complete() returns (done: Option<DataMapping>)
      modifies this
      ensures done == old(run) && run == None
    {
      done, run := run, None;
    }
  }

  lemma {:induction false} OnePair(ms: seq<DataMapping>)
    requires |ms| <= 1
    ensures AllPairs(ms) == if ms == [] then [] else Pairs(ms[0])
  {
    if ms != [] {
      assert AllPairs(ms) == AllPairs(ms[..0]) + Pairs(ms[0]) == Pairs(ms[0]);
    }
  }

  lemma {:induction false} PairsPush(ms: seq<DataMapping>, m: DataMapping)
    ensures AllPairs(ms + [m]) == AllPairs(ms) + Pairs(m)
  {
    assert (ms + [m])[..|ms|] == ms;
  }

  /** No run is empty and none continues the one before it. */
  predicate Maximal(ms: seq<DataMapping>) {
    && (forall i :: 0 <= i < |ms| ==> ms[i].len > 0)
    && forall i :: 0 <= i < |ms| - 1 ==> Apart(ms[i], ms[i + 1])
  }

  class MappingRecorder {
    var mappings: seq<DataMapping>
    const builder: RunBuilder

    ghost predicate Valid()
      reads this, builder
    {
      Maximal(All()) && (mappings != [] ==> builder.run.Some?)
    }

    /** The finished runs and the open one. */
    ghost function All(): seq<DataMapping>
      reads this, builder
    {
      mappings + Open(builder.run)
    }

    constructor ()
      ensures Valid() && All() == [] && fresh(builder)
    {
      mappings := [];
      builder := new RunBuilder();
    }

    /** A leaf's entries are added to what the runs stand for. */
    method Visit(keys: seq<nat>, values: seq<nat>)
      requires Valid() && |keys| == |values|
      modifies this, builder
      ensures Valid() && AllPairs(All()) == AllPairs(old(All())) + Zip(keys, values)
    {
      hide AllPairs, Maximal;
      ghost var before := AllPairs(All());
      ghost var zs := Zip(keys, values);
      assert before + zs[..0] == before;
      for i := 0 to |keys|
        invariant Valid() && AllPairs(All()) == before + zs[..i]
      {
        hide Zip;
        ghost var sofar := zs[..i];
        assert zs[..i + 1] == sofar + [(keys[i], values[i])];
        Add(keys[i], values[i]);
        assert before + sofar + [(keys[i], values[i])] == before + (sofar + [(keys[i], values[i])]);
      }
      assert zs[..|keys|] == zs;
    }

    method Add(k: nat, v: nat)
      requires Valid()
      modifies this, builder
      ensures Valid() && AllPairs(All()) == AllPairs(old(All())) + [(k, v)]
    {
      ghost var ms, run := mappings, builder.run;
      var m := builder.Next(k, v);
      if m.Some? {
        mappings := mappings + [m.value];
      }
      Added(ms, run, m, builder.run.value, (k, v));
      assert All() == ms + Open(m) + [builder.run.value];
    }

    method Complete() returns (ms: seq<DataMapping>)
      requires Valid()
      modifies this, builder
      ensures ms == old(All()) && Maximal(ms)
    {
      var m := builder.Complete();
      if m.Some? {
        mappings := mappings + [m.value];
      }
      ms := mappings;
      mappings := [];
    }
  }

  lemma {:induction false} Added(ms: seq<DataMapping>, run: Option<DataMapping>, done: Option<DataMapping>, run': DataMapping, p: (nat, nat))
    requires Maximal(ms + Open(run)) && run'.len > 0 && (ms != [] ==> run.Some?)
    requires AllPairs(Open(done)) + Pairs(run') == AllPairs(Open(run)) + [p]
    requires done.Some? ==> done == run && Apart(done.value, run')
    requires done.None? && run.Some? ==> run' == run.value.(len := run.value.len + 1)
    ensures AllPairs(ms + Open(done) + [run']) == AllPairs(ms + Open(run)) + [p]
    ensures Maximal(ms + Open(done) + [run'])
  {
    StillMaximal(ms, run, done, run');
    hide Pairs, Maximal, AllPairs;
    PairsPush(ms + Open(done), run');
    PairsOpen(ms, done);
    PairsOpen(ms, run);
    Regroup(AllPairs(ms), AllPairs(Open(done)), Pairs(run'), AllPairs(Open(run)), p);
  }

  lemma Regroup(a: seq<(nat, nat)>, b: seq<(nat, nat)>, c: seq<(nat, nat)>, d: seq<(nat, nat)>, p: (nat, nat))
    requires b + c == d + [p]
    ensures a + b + c == a + d + [p]
  {
    assert a + b + c == a + (b + c);
    assert a + d + [p] == a + (d + [p]);
  }

  lemma {:induction false} PairsOpen(ms: seq<DataMapping>, run: Option<DataMapping>)
    ensures AllPairs(ms + Open(run)) == AllPairs(ms) + AllPairs(Open(run))
  {
    hide Pairs;
    OnePair(Open(run));
    if run.None? {
      assert ms + [] == ms && AllPairs(ms) + [] == AllPairs(ms);
    } else {
      PairsPush(ms, run.value);
    }
  }

  lemma StillMaximal(ms: seq<DataMapping>, run: Option<DataMapping>, done: Option<DataMapping>, run': DataMapping)
    requires Maximal(ms + Open(run)) && run'.len > 0 && (ms != [] ==> run.Some?)
    requires done.Some? ==> done == run && Apart(done.value, run')
    requires done.None? && run.Some? ==> run' == run.value.(len := run.value.len + 1)
    ensures Maximal(ms + Open(done) + [run'])
  {
    var was, now := ms + Open(run), ms + Open(done) + [run'];
    assert forall i :: 0 <= i < |ms| ==> now[i] == was[i] && was[i].len > 0;
    assert run.Some? ==> was[|ms|].len > 0;
    forall i | 0 <= i < |now| - 1 ensures Apart(now[i], now[i + 1]) {
      if i + 1 < |was| {
        assert Apart(was[i], was[i + 1]);
      }
    }
  }

  lemma {:induction false} RunsSorted(ms: seq<DataMapping>)
    requires Maximal(ms) && Ascend(AllPairs(ms))
    ensures Sorted(ms)
    decreases |ms|
  {
    if ms != [] {
      var k := |ms| - 1;
      var before, last := AllPairs(ms[..k]), Pairs(ms[k]);
      assert AllPairs(ms) == before + last;
      AscendParts(before, last);
      RunsSorted(ms[..k]);
      forall i | 0 <= i < k ensures ms[i].thin + ms[i].len <= ms[k].thin {
        PairsHas(ms[..k], i, ms[i].len - 1);
        assert last[0].0 == ms[k].thin && last[0] in last;
      }
    }
  }

  lemma AscendParts(a: seq<(nat, nat)>, b: seq<(nat, nat)>)
    requires Ascend(a + b)
    ensures Ascend(a) && Ascend(b) && forall p, q :: p in a && q in b ==> p.0 < q.0
  {
    assert forall i :: 0 <= i < |a| ==> (a + b)[i] == a[i];
    assert forall i :: 0 <= i < |b| ==> (a + b)[|a| + i] == b[i];
    forall p, q | p in a && q in b ensures p.0 < q.0 {
      var i :| 0 <= i < |a| && a[i] == p;
      var j :| 0 <= j < |b| && b[j] == q;
      assert (a + b)[i].0 < (a + b)[|a| + j].0;
    }
    forall i, j | 0 <= i < j < |b| ensures b[i].0 < b[j].0 {
      assert (a + b)[|a| + i].0 < (a + b)[|a| + j].0;
    }
  }

  lemma PairsMember(m: DataMapping, x: nat)
    ensures m.Has(x) ==> (x, m.data + (x - m.thin)) in Pairs(m)
    ensures forall p :: p in Pairs(m) ==> m.Has(p.0) && p.1 == m.data + (p.0 - m.thin)
  {
    if m.Has(x) {
      assert Pairs(m)[x - m.thin] == (x, m.data + (x - m.thin));
    }
  }

  /** The runs of ascending keys say of each block what its entry says. */
  lemma {:induction false} RunsSay(ms: seq<DataMapping>, x: nat, d: nat)
    requires Maximal(ms) && Ascend(AllPairs(ms))
    ensures Sorted(ms) && (MapsTo(ms, x, d) <==> (x, d) in AllPairs(ms))
  {
    RunsSayAt(ms, x, d);
    AtSays(ms, x, d);
  }

  lemma {:induction false} RunsSayAt(ms: seq<DataMapping>, x: nat, d: nat)
    requires Maximal(ms) && Ascend(AllPairs(ms))
    ensures Sorted(ms) && (At(ms, x) == Some(d) <==> (x, d) in AllPairs(ms))
    decreases |ms|
  {
    RunsSorted(ms);
    if ms != [] {
      var k := |ms| - 1;
      var before, last := AllPairs(ms[..k]), Pairs(ms[k]);
      assert AllPairs(ms) == before + last;
      AscendParts(before, last);
      RunsSayAt(ms[..k], x, d);
      hide At, AllPairs, Sorted, Maximal, Ascend;
      AtLast(ms, x);
      PairsMember(ms[k], x);
    }
  }

  lemma {:induction false} PairsHas(ms: seq<DataMapping>, i: nat, n: nat)
    requires i < |ms| && n < ms[i].len
    ensures (ms[i].thin + n, ms[i].data + n) in AllPairs(ms)
    decreases |ms|
  {
    var k := |ms| - 1;
    if i < k {
      PairsHas(ms[..k], i, n);
    } else {
      assert Pairs(ms[k])[n] == (ms[i].thin + n, ms[i].data + n);
    }
  }

  lemma {:induction false} AtLast(ms: seq<DataMapping>, x: nat)
    requires Sorted(ms) && ms != []
    ensures var k := |ms| - 1;
            At(ms, x) == if ms[k].Has(x) then Some(ms[k].data + (x - ms[k].thin)) else At(ms[..k], x)
    decreases |ms|
  {
    var k := |ms| - 1;
    if k > 0 {
      AtLast(ms[1..], x);
      assert ms[1..][..k - 1] == ms[..k][1..];
    }
  }

  // ---- the difference

  datatype Delta =
    | LeftOnly(m: DataMapping)
    | RightOnly(m: DataMapping)
    | Differ(thin: nat, left: nat, right: nat, len: nat)
    | Same(m: DataMapping)
  {
    function Begin(): nat {
      if Differ? then thin else m.thin
    }

    function Len(): nat {
      if Differ? then len else m.len
    }

    predicate Has(x: nat) {
      Begin() <= x < Begin() + Len()
    }

    /** What the delta says the two sides map x to. */
    function Says(x: nat): (Option<nat>, Option<nat>)
      requires Has(x)
    {
      var i := x - Begin();
      match this
      case LeftOnly(m) => (Some(m.data + i), None)
      case RightOnly(m) => (None, Some(m.data + i))
      case Differ(_, l, r, _) => (Some(l + i), Some(r + i))
      case Same(m) => (Some(m.data + i), Some(m.data + i))
    }

    /** A delta that claims a difference claims nothing else. */
    predicate Honest() {
      Len() > 0 && (Differ? ==> left != right)
    }
  }

  /** What a list of deltas says of a block; blocks that no delta covers are mapped on neither side. */
  function Said(ds: seq<Delta>, x: nat): (Option<nat>, Option<nat>) {
    if ds == [] then (None, None)
    else if ds[|ds| - 1].Has(x) then ds[|ds| - 1].Says(x)
    else Said(ds[..|ds| - 1], x)
  }

  predicate Ordered(ds: seq<Delta>) {
    && (forall i :: 0 <= i < |ds| ==> ds[i].Honest())
    && forall i, j :: 0 <= i < j < |ds| ==> ds[i].Begin() + ds[i].Len() <= ds[j].Begin()
  }

  class MappingStream {
    const mappings: seq<DataMapping>
    var pos: nat
    var current: Option<DataMapping>

    ghost predicate Valid()
      reads this
    {
      pos <= |mappings| && Sorted(Rest())
    }

    ghost function Rest(): seq<DataMapping>
      reads this
    {
      if current.Some? && pos <= |mappings| then [current.value] + mappings[pos..] else []
    }

    constructor (ms: seq<DataMapping>)
      requires Sorted(ms)
      ensures Valid() && Rest() == ms
    {
      mappings := ms;
      pos := if ms == [] then 0 else 1;
      current := if ms == [] then None else Some(ms[0]);
      new;
      assert Rest() == ms;
    }

    /** Drops the first len blocks of the current mapping; fails when it has fewer or there is none. */
    method Consume(len: nat) returns (ok: bool)
      requires Valid() && len > 0
      modifies this
      ensures ok <==> old(current).Some? && len <= old(current.value.len)
      ensures Rest() == if ok then Dropped(old(Rest()), len) else old(Rest())
      ensures Valid()
    {
      if current.None? || len > current.value.len {
        return false;
      }
      DroppedSorted(Rest(), len);
      ghost var rest := Rest();
      if len == current.value.len {
        if pos == |mappings| {
          current := None;
        } else {
          current, pos := Some(mappings[pos]), pos + 1;
        }
        assert Rest() == rest[1..];
      } else {
        current := Some(current.value.Drop(len));
        assert Rest() == [current.value] + rest[1..];
      }
      ok := true;
    }
  }

  /** A list without the first len blocks of its first mapping. */
  function Dropped(ms: seq<DataMapping>, len: nat): seq<DataMapping>
    requires ms != [] && len <= ms[0].len
  {
    (if len == ms[0].len then [] else [ms[0].Drop(len)]) + ms[1..]
  }

  lemma DroppedSorted(ms: seq<DataMapping>, len: nat)
    requires Sorted(ms) && ms != [] && 0 < len <= ms[0].len
    ensures Sorted(Dropped(ms, len))
  {
  }

  lemma {:induction false} AtBefore(ms: seq<DataMapping>, x: nat)
    requires Sorted(ms) && (ms != [] ==> x < ms[0].thin)
    ensures At(ms, x) == None
  {
    if ms != [] {
      AtBefore(ms[1..], x);
    }
  }

  lemma {:induction false} DroppedAt(ms: seq<DataMapping>, len: nat, x: nat)
    requires Sorted(ms) && ms != [] && 0 < len <= ms[0].len
    ensures x >= ms[0].thin + len ==> At(Dropped(ms, len), x) == At(ms, x)
    ensures ms[0].thin <= x < ms[0].thin + len ==> At(ms, x) == Some(ms[0].data + (x - ms[0].thin))
  {
    if len == ms[0].len {
      assert Dropped(ms, len) == ms[1..];
    } else {
      assert Dropped(ms, len)[1..] == ms[1..];
    }
  }

  /** How far the merge has got: the deltas are right below `cut`, and the rest of each list is right from there. */
  ghost predicate Reached(left: seq<DataMapping>, right: seq<DataMapping>, ds: seq<Delta>,
                          ls: seq<DataMapping>, rs: seq<DataMapping>, cut: nat)
  {
    && Sorted(ls) && Sorted(rs) && Ordered(ds)
    && (ls != [] ==> cut <= ls[0].thin) && (rs != [] ==> cut <= rs[0].thin)
    && (ds != [] ==> ds[|ds| - 1].Begin() + ds[|ds| - 1].Len() <= cut)
    && (forall x: nat :: x < cut ==> RightAt(left, right, ds, x))
    && (forall x: nat :: x >= cut ==> At(ls, x) == At(left, x) && At(rs, x) == At(right, x))
  }

  ghost predicate RightAt(left: seq<DataMapping>, right: seq<DataMapping>, ds: seq<Delta>, x: nat) {
    Said(ds, x) == (At(left, x), At(right, x))
  }

  /** What comes next: the delta d covers the first len blocks of the sides it speaks of, and the other side, if
      there is one, starts after it. */
  ghost predicate NextDelta(ls: seq<DataMapping>, rs: seq<DataMapping>, d: Delta) {
    && d.Honest()
    && (if d.RightOnly? then ls != [] ==> d.Begin() + d.Len() <= ls[0].thin
        else ls != [] && ls[0].thin == d.Begin() && d.Len() <= ls[0].len && d.Says(d.Begin()).0 == Some(ls[0].data))
    && (if d.LeftOnly? then rs != [] ==> d.Begin() + d.Len() <= rs[0].thin
        else rs != [] && rs[0].thin == d.Begin() && d.Len() <= rs[0].len && d.Says(d.Begin()).1 == Some(rs[0].data))
  }

  lemma Emit(left: seq<DataMapping>, right: seq<DataMapping>, ds: seq<Delta>,
             ls: seq<DataMapping>, rs: seq<DataMapping>, cut: nat, d: Delta)
    requires Reached(left, right, ds, ls, rs, cut) && NextDelta(ls, rs, d)
    ensures Reached(left, right, ds + [d], if d.RightOnly? then ls else Dropped(ls, d.Len()),
                    if d.LeftOnly? then rs else Dropped(rs, d.Len()), d.Begin() + d.Len())
  {
    hide At, Said, Sorted, Dropped, RightAt;
    var end := d.Begin() + d.Len();
    OrderedPush(ds, d, cut);
    assert (ds + [d])[|ds|] == d;
    RestSorted(ls, d.Len(), end, d.RightOnly?);
    RestSorted(rs, d.Len(), end, d.LeftOnly?);
    forall x: nat ensures x < end ==> RightAt(left, right, ds + [d], x) {
      if x < end {
        EmitBelow(left, right, ds, ls, rs, cut, d, x);
      }
    }
    forall x: nat
      ensures x >= end ==> At(if d.RightOnly? then ls else Dropped(ls, d.Len()), x) == At(left, x)
      ensures x >= end ==> At(if d.LeftOnly? then rs else Dropped(rs, d.Len()), x) == At(right, x)
    {
      if x >= end {
        EmitAbove(left, right, ds, ls, rs, cut, d, x);
      }
    }
  }

  lemma EmitAbove(left: seq<DataMapping>, right: seq<DataMapping>, ds: seq<Delta>,
                  ls: seq<DataMapping>, rs: seq<DataMapping>, cut: nat, d: Delta, x: nat)
    requires Reached(left, right, ds, ls, rs, cut) && NextDelta(ls, rs, d) && x >= d.Begin() + d.Len()
    ensures At(if d.RightOnly? then ls else Dropped(ls, d.Len()), x) == At(left, x)
    ensures At(if d.LeftOnly? then rs else Dropped(rs, d.Len()), x) == At(right, x)
  {
    hide At, Said, Sorted, Dropped, Ordered;
    if !d.RightOnly? {
      DroppedAt(ls, d.Len(), x);
    }
    if !d.LeftOnly? {
      DroppedAt(rs, d.Len(), x);
    }
  }

  lemma OrderedPush(ds: seq<Delta>, d: Delta, cut: nat)
    requires Ordered(ds) && d.Honest() && cut <= d.Begin() && (ds != [] ==> ds[|ds| - 1].Begin() + ds[|ds| - 1].Len() <= cut)
    ensures Ordered(ds + [d])
  {
    forall i | 0 <= i < |ds| ensures ds[i].Begin() + ds[i].Len() <= d.Begin() {
      assert i < |ds| - 1 ==> ds[i].Begin() + ds[i].Len() <= ds[|ds| - 1].Begin();
    }
  }

  lemma RestSorted(ms: seq<DataMapping>, len: nat, end: nat, whole: bool)
    requires Sorted(ms) && len > 0
    requires if whole then ms != [] ==> end <= ms[0].thin else ms != [] && len <= ms[0].len && end == ms[0].thin + len
    ensures var ms' := if whole then ms else Dropped(ms, len); Sorted(ms') && (ms' != [] ==> end <= ms'[0].thin)
  {
    if !whole {
      DroppedSorted(ms, len);
    }
  }

  lemma EmitBelow(left: seq<DataMapping>, right: seq<DataMapping>, ds: seq<Delta>,
                  ls: seq<DataMapping>, rs: seq<DataMapping>, cut: nat, d: Delta, x: nat)
    requires Reached(left, right, ds, ls, rs, cut) && NextDelta(ls, rs, d) && x < d.Begin() + d.Len()
    ensures RightAt(left, right, ds + [d], x)
  {
    assert (ds + [d])[..|ds|] == ds;
    if x < cut {
      assert RightAt(left, right, ds, x);
    } else if x < d.Begin() {
      AtBefore(ls, x);
      AtBefore(rs, x);
      SaidAfter(ds, cut, x);
    } else {
      if d.RightOnly? {
        AtBefore(ls, x);
      } else {
        DroppedAt(ls, d.Len(), x);
      }
      if d.LeftOnly? {
        AtBefore(rs, x);
      } else {
        DroppedAt(rs, d.Len(), x);
      }
    }
  }

  lemma {:induction false} SaidAfter(ds: seq<Delta>, cut: nat, x: nat)
    requires Ordered(ds) && cut <= x && (ds != [] ==> ds[|ds| - 1].Begin() + ds[|ds| - 1].Len() <= cut)
    ensures Said(ds, x) == (None, None)
    decreases |ds|
  {
    if ds != [] {
      var k := |ds| - 1;
      if k > 0 {
        assert ds[k - 1].Begin() + ds[k - 1].Len() <= ds[k].Begin();
      }
      SaidAfter(ds[..k], cut, x);
    }
  }

  /** The number of blocks in a list. */
  function Total(ms: seq<DataMapping>): nat {
    if ms == [] then 0 else ms[0].len + Total(ms[1..])
  }

  lemma {:induction false} DroppedTotal(ms: seq<DataMapping>, len: nat)
    requires ms != [] && len <= ms[0].len
    ensures Total(Dropped(ms, len)) == Total(ms) - len
  {
    if len == ms[0].len {
      assert Dropped(ms, len) == ms[1..];
    } else {
      assert Dropped(ms, len)[1..] == ms[1..];
    }
  }

  method Min(a: nat, b: nat) returns (c: nat)
    ensures c == if a <= b then a else b
  {
    c := if a <= b then a else b;
  }

  /** One round of the merge. */
  method Compare(ls: MappingStream, rs: MappingStream) returns (d: Delta)
    requires ls != rs && ls.Valid() && rs.Valid() && ls.current.Some? && rs.current.Some?
    modifies ls, rs
    ensures ls.Valid() && rs.Valid() && NextDelta(old(ls.Rest()), old(rs.Rest()), d)
    ensures ls.Rest() == if d.RightOnly? then old(ls.Rest()) else Dropped(old(ls.Rest()), d.Len())
    ensures rs.Rest() == if d.LeftOnly? then old(rs.Rest()) else Dropped(old(rs.Rest()), d.Len())
  {
    hide Sorted, Dropped;
    var lm, rm := ls.current.value, rs.current.value;
    FirstOf(ls.Rest());
    FirstOf(rs.Rest());
    if lm.thin < rm.thin {
      var len := Min(lm.len, rm.thin - lm.thin);
      d := LeftOnly(DataMapping(lm.thin, lm.data, len));
      var ok := ls.Consume(len);
      assert ok;
    } else if rm.thin < lm.thin {
      var len := Min(rm.len, lm.thin - rm.thin);
      d := RightOnly(DataMapping(rm.thin, rm.data, len));
      var ok := rs.Consume(len);
      assert ok;
    } else {
      var len := Min(lm.len, rm.len);
      d := if lm.data == rm.data then Same(DataMapping(lm.thin, lm.data, len)) else Differ(lm.thin, lm.data, rm.data, len);
      var okLeft := ls.Consume(len);
      var okRight := rs.Consume(len);
      assert okLeft && okRight;
    }
  }

  /** One round when only one list is left. */
  method TakeAll(s: MappingStream) returns (m: DataMapping)
    requires s.Valid() && s.current.Some?
    modifies s
    ensures s.Valid() && m == old(s.Rest())[0] && s.Rest() == Dropped(old(s.Rest()), m.len)
  {
    hide Sorted, Dropped;
    FirstOf(s.Rest());
    m := s.current.value;
    var ok := s.Consume(m.len);
    assert ok;
  }

  /** The first loop: both lists are left. */
  method DumpBoth(ghost left: seq<DataMapping>, ghost right: seq<DataMapping>, ls: MappingStream, rs: MappingStream)
    returns (ds: seq<Delta>, ghost cut: nat)
    requires ls != rs && ls.Valid() && rs.Valid() && Reached(left, right, [], ls.Rest(), rs.Rest(), 0)
    modifies ls, rs
    ensures ls.Valid() && rs.Valid() && Reached(left, right, ds, ls.Rest(), rs.Rest(), cut)
    ensures ls.current.None? || rs.current.None?
  {
    hide Sorted, Reached, NextDelta, Dropped, Total;
    ds, cut := [], 0;
    while ls.current.Some? && rs.current.Some?
      invariant ls.Valid() && rs.Valid() && Reached(left, right, ds, ls.Rest(), rs.Rest(), cut)
      decreases Total(ls.Rest()) + Total(rs.Rest())
    {
      ghost var l0, r0 := ls.Rest(), rs.Rest();
      var d := Compare(ls, rs);
      Emit(left, right, ds, l0, r0, cut, d);
      Shorter(l0, r0, d);
      ds, cut := ds + [d], d.Begin() + d.Len();
    }
  }

  /** The second loop: only the left list is left. */
  method DumpLeft(ghost left: seq<DataMapping>, ghost right: seq<DataMapping>, ls: MappingStream, ds: seq<Delta>, ghost cut: nat)
    returns (ds': seq<Delta>, ghost cut': nat)
    requires ls.Valid() && Reached(left, right, ds, ls.Rest(), [], cut)
    modifies ls
    ensures Reached(left, right, ds', [], [], cut')
  {
    hide Sorted, Reached, NextDelta, Dropped, Total;
    ds', cut' := ds, cut;
    while ls.current.Some?
      invariant ls.Valid() && Reached(left, right, ds', ls.Rest(), [], cut')
      decreases Total(ls.Rest())
    {
      ghost var l0 := ls.Rest();
      var lm := TakeAll(ls);
      TakenLeft(l0, lm);
      Emit(left, right, ds', l0, [], cut', LeftOnly(lm));
      ds', cut' := ds' + [LeftOnly(lm)], lm.thin + lm.len;
    }
  }

  /** The third loop: only the right list is left. */
  method DumpRight(ghost left: seq<DataMapping>, ghost right: seq<DataMapping>, rs: MappingStream, ds: seq<Delta>, ghost cut: nat)
    returns (ds': seq<Delta>, ghost cut': nat)
    requires rs.Valid() && Reached(left, right, ds, [], rs.Rest(), cut)
    modifies rs
    ensures Reached(left, right, ds', [], [], cut')
  {
    hide Sorted, Reached, NextDelta, Dropped, Total;
    ds', cut' := ds, cut;
    while rs.current.Some?
      invariant rs.Valid() && Reached(left, right, ds', [], rs.Rest(), cut')
      decreases Total(rs.Rest())
    {
      ghost var r0 := rs.Rest();
      var rm := TakeAll(rs);
      TakenRight(r0, rm);
      Emit(left, right, ds', [], r0, cut', RightOnly(rm));
      ds', cut' := ds' + [RightOnly(rm)], rm.thin + rm.len;
    }
  }

  /** Compares two sorted lists.  The deltas are in order and overlap nowhere, and between them say exactly what
      both lists say of every block. */
  method DumpDeltaMappings(left: seq<DataMapping>, right: seq<DataMapping>) returns (ds: seq<Delta>)
    requires Sorted(left) && Sorted(right)
    ensures Ordered(ds)
    ensures forall x: nat :: Said(ds, x) == (At(left, x), At(right, x))
    ensures (forall d :: d in ds ==> Tells(left, right, d))
            && forall x :: Mapped(left, x) || Mapped(right, x) ==> exists d :: d in ds && Covers(d, x)
  {
    hide At, Sorted, Said, Ordered, Reached, Tells, Mapped, Covers;
    var ls := new MappingStream(left);
    var rs := new MappingStream(right);
    NothingSaid(left, right);
    ghost var cut;
    ds, cut := DumpBoth(left, right, ls, rs);
    if ls.current.Some? {
      ds, cut := DumpLeft(left, right, ls, ds, cut);
    }
    if rs.current.Some? {
      ds, cut := DumpRight(left, right, rs, ds, cut);
    }
    AllSaid(left, right, ds, cut);
    AllTold(left, right, ds);
  }

  /** The blocks a delta is about. */
  predicate Covers(d: Delta, x: nat) {
    match d
    case LeftOnly(m) => m.thin <= x < m.thin + m.len
    case RightOnly(m) => m.thin <= x < m.thin + m.len
    case Differ(thin, _, _, len) => thin <= x < thin + len
    case Same(m) => m.thin <= x < m.thin + m.len
  }

  /** What a delta tells of its blocks is so. */
  ghost predicate Tells(left: seq<DataMapping>, right: seq<DataMapping>, d: Delta) {
    forall x: nat :: Covers(d, x) ==> TellsOf(left, right, d, x)
  }

  ghost predicate TellsOf(left: seq<DataMapping>, right: seq<DataMapping>, d: Delta, x: nat)
    requires Covers(d, x)
  {
    match d
    case LeftOnly(m) => MapsTo(left, x, m.data + (x - m.thin)) && !Mapped(right, x)
    case RightOnly(m) => !Mapped(left, x) && MapsTo(right, x, m.data + (x - m.thin))
    case Differ(thin, l, r, _) => MapsTo(left, x, l + (x - thin)) && MapsTo(right, x, r + (x - thin)) && l != r
    case Same(m) => MapsTo(left, x, m.data + (x - m.thin)) && MapsTo(right, x, m.data + (x - m.thin))
  }

  lemma {:induction false} SaidBy(ds: seq<Delta>, k: nat, x: nat)
    requires Ordered(ds) && k < |ds| && ds[k].Has(x)
    ensures Said(ds, x) == ds[k].Says(x)
    decreases |ds|
  {
    var n := |ds| - 1;
    if k < n {
      assert ds[k].Begin() + ds[k].Len() <= ds[n].Begin();
      SaidBy(ds[..n], k, x);
    }
  }

  lemma {:induction false} SaidByNone(ds: seq<Delta>, x: nat)
    requires forall d :: d in ds ==> !d.Has(x)
    ensures Said(ds, x) == (None, None)
    decreases |ds|
  {
    if ds != [] {
      SaidByNone(ds[..|ds| - 1], x);
      assert ds[|ds| - 1] in ds;
    }
  }

  lemma {:induction false} AllTold(left: seq<DataMapping>, right: seq<DataMapping>, ds: seq<Delta>)
    requires Sorted(left) && Sorted(right) && Ordered(ds)
    requires forall x: nat :: Said(ds, x) == (At(left, x), At(right, x))
    ensures forall d :: d in ds ==> Tells(left, right, d)
    ensures forall x :: Mapped(left, x) || Mapped(right, x) ==> exists d :: d in ds && Covers(d, x)
  {
    hide At, Sorted, Said, MapsTo, Mapped;
    forall d | d in ds ensures Tells(left, right, d) {
      var k :| 0 <= k < |ds| && ds[k] == d;
      assert d.Honest();
      forall x: nat | Covers(d, x) ensures TellsOf(left, right, d, x) {
        SaidBy(ds, k, x);
        BothAt(left, right, d, x);
      }
    }
    forall x | Mapped(left, x) || Mapped(right, x) ensures exists d :: d in ds && Covers(d, x) {
      AtNone(left, x);
      AtNone(right, x);
      if forall d :: d in ds ==> !d.Has(x) {
        SaidByNone(ds, x);
      } else {
        var d :| d in ds && d.Has(x);
        assert Covers(d, x);
      }
    }
  }

  lemma {:induction false} BothAt(left: seq<DataMapping>, right: seq<DataMapping>, d: Delta, x: nat)
    requires Sorted(left) && Sorted(right) && d.Honest() && Covers(d, x) && d.Has(x) && d.Says(x) == (At(left, x), At(right, x))
    ensures TellsOf(left, right, d, x)
  {
    hide At, Sorted, MapsTo, Mapped;
    AtNone(left, x);
    AtNone(right, x);
    if At(left, x).Some? {
      AtSays(left, x, At(left, x).value);
    }
    if At(right, x).Some? {
      AtSays(right, x, At(right, x).value);
    }
  }

  lemma FirstOf(ms: seq<DataMapping>)
    requires Sorted(ms)
    ensures ms != [] ==> ms[0].len > 0
  {
  }

  lemma {:induction false} TakenLeft(ls: seq<DataMapping>, m: DataMapping)
    requires Sorted(ls) && ls != [] && m == ls[0]
    ensures NextDelta(ls, [], LeftOnly(m)) && Total(Dropped(ls, m.len)) < Total(ls)
  {
    DroppedTotal(ls, m.len);
  }

  lemma {:induction false} TakenRight(rs: seq<DataMapping>, m: DataMapping)
    requires Sorted(rs) && rs != [] && m == rs[0]
    ensures NextDelta([], rs, RightOnly(m)) && Total(Dropped(rs, m.len)) < Total(rs)
  {
    DroppedTotal(rs, m.len);
  }

  lemma {:induction false} Shorter(ls: seq<DataMapping>, rs: seq<DataMapping>, d: Delta)
    requires NextDelta(ls, rs, d)
    ensures (if d.RightOnly? then Total(ls) else Total(Dropped(ls, d.Len())))
            + (if d.LeftOnly? then Total(rs) else Total(Dropped(rs, d.Len())))
            < Total(ls) + Total(rs)
  {
    if !d.RightOnly? {
      DroppedTotal(ls, d.Len());
    }
    if !d.LeftOnly? {
      DroppedTotal(rs, d.Len());
    }
  }

  lemma NothingSaid(left: seq<DataMapping>, right: seq<DataMapping>)
    requires Sorted(left) && Sorted(right)
    ensures Reached(left, right, [], left, right, 0)
  {
  }

  lemma {:induction false} AllSaid(left: seq<DataMapping>, right: seq<DataMapping>, ds: seq<Delta>, cut: nat)
    requires Reached(left, right, ds, [], [], cut)
    ensures Ordered(ds) && forall x: nat :: Said(ds, x) == (At(left, x), At(right, x))
  {
    forall x: nat ensures Said(ds, x) == (At(left, x), At(right, x)) {
      if x < cut {
        assert RightAt(left, right, ds, x);
      } else {
        SaidAfter(ds, cut, x);
        assert At([], x) == None;
      }
    }
  }
}
