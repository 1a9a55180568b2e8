/** Block graphs and the memo of `BTreeWalker` of src/pdata/btree_walker.rs. */
module GraphWalks {
  import opened Wrappers
  import opened Sequences
  import opened KeyRanges

  /** What a block holds.  `intact` stands for the checksum, the block number and the header checks. */
  datatype Image = Image(intact: bool, leaf: bool, maxEntries: nat, keys: seq<nat>, vals: seq<nat>)

  /** `check_and_unpack_node`: only a root may be less than a third full. */
  predicate Unpacks(n: Image, ignoreNonFatal: bool, isRoot: bool) {
    && n.intact && |n.keys| == |n.vals| <= n.maxEntries && Ascending(n.keys)
    && (ignoreNonFatal || (n.maxEntries % 3 == 0 && (isRoot || |n.keys| >= n.maxEntries / 3)))
  }

  /** Each of some blocks can be read and is sound: it has a value for each of its keys, which ascend, and room for them
      all.  If nothing is let pass, its room is a multiple of three, and it is a third full unless it is the root. */
  ghost predicate AllSound(g: Graph, bs: set<nat>, root: nat) {
    forall b :: b in bs ==>
      && b in g.blocks && g.blocks[b].intact && |g.blocks[b].keys| == |g.blocks[b].vals| <= g.blocks[b].maxEntries
      && (forall i, j :: 0 <= i < j < |g.blocks[b].keys| ==> g.blocks[b].keys[i] < g.blocks[b].keys[j])
      && (!g.ignoreNonFatal ==> g.blocks[b].maxEntries % 3 == 0 && (b == root || 3 * |g.blocks[b].keys| >= g.blocks[b].maxEntries))
  }

  /** A restricted map can only count to one; a core map refuses to pass its largest count. */
  datatype Counting = Restricted | UpTo(max: nat)

  /** The count a map shows after n increments. */
  function Capped(c: Counting, n: nat): nat {
    match c
    case Restricted => if n == 0 then 0 else 1
    case UpTo(max) => if n < max then n else max
  }

  /** The number of blocks not yet seen. */
  function Unseen(counts: seq<nat>): nat {
    if counts == [] then 0 else (if counts[0] == 0 then 1 else 0) + Unseen(counts[1..])
  }

  lemma {:induction false} UnseenRaise(counts: seq<nat>, b: nat, n: nat)
    requires b < |counts| && n > 0
    ensures Unseen(counts[b := n]) == Unseen(counts) - if counts[b] == 0 then 1 else 0
  {
    if b == 0 {
      assert counts[0 := n][1..] == counts[1..];
    } else {
      assert counts[b := n][1..] == counts[1..][b - 1 := n];
      UnseenRaise(counts[1..], b - 1, n);
    }
  }

  function InBounds(bs: seq<nat>, n: nat): seq<nat> {
    if bs == [] then []
    else (if bs[0] < n then [bs[0]] else []) + InBounds(bs[1..], n)
  }

  lemma {:induction false} InBoundsPush(bs: seq<nat>, b: nat, n: nat)
    ensures InBounds(bs + [b], n) == InBounds(bs, n) + if b < n then [b] else []
  {
    if bs == [] {
      assert InBounds([b][1..], n) == [];
    } else {
      assert (bs + [b])[1..] == bs[1..] + [b];
      InBoundsPush(bs[1..], b, n);
    }
  }

  /** The seen blocks. */
  ghost function Seen(counts: seq<nat>): set<nat> {
    set b | 0 <= b < |counts| && counts[b] > 0
  }

  /** Where a walk begins, what was seen before it, and what has ever been walked as a root. */
  datatype From = From(root: nat, before: set<nat>, roots: set<nat>)

  /** The graph walked: the image in each readable block, and the number of blocks. */
  datatype Graph = Graph(blocks: map<nat, Image>, nrBlocks: nat, ignoreNonFatal: bool) {
    ghost predicate Internal(b: nat) {
      b in blocks && !blocks[b].leaf
    }

    ghost predicate Leaf(b: nat) {
      b in blocks && blocks[b].leaf
    }

    function Children(b: nat): seq<nat> {
      if b in blocks then InBounds(blocks[b].vals, nrBlocks) else []
    }

    /** A path of child pointers, within the device, that keeps clear of some blocks. */
    ghost predicate Path(p: seq<nat>, before: set<nat>) {
      && p != [] && (forall i :: 0 <= i < |p| ==> p[i] !in before)
      && forall i :: 0 <= i < |p| - 1 ==> Internal(p[i]) && p[i + 1] in Children(p[i])
    }

    ghost predicate Reaches(from: From, b: nat) {
      exists p :: Path(p, from.before) && p[0] == from.root && p[|p| - 1] == b
    }

    lemma {:induction false} ReachesChild(from: From, b: nat, c: nat)
      requires Reaches(from, b) && Internal(b) && c in Children(b) && c !in from.before
      ensures Reaches(from, c)
    {
      hide InBounds;
      var p :| Path(p, from.before) && p[0] == from.root && p[|p| - 1] == b;
      var q := p + [c];
      forall i | 0 <= i < |q| - 1 ensures Internal(q[i]) && q[i + 1] in Children(q[i]) {
        if i < |p| - 1 {
          assert q[i] == p[i] && q[i + 1] == p[i + 1];
        }
      }
      assert Path(q, from.before) && q[|q| - 1] == c;
    }

    /** b unpacked cleanly, with the slack of a root if it was walked as one, and all its children are seen. */
    ghost predicate Finished(seen: set<nat>, roots: set<nat>, b: nat) {
      && b in blocks && Unpacks(blocks[b], ignoreNonFatal, b in roots)
      && (Internal(b) ==> forall c :: c in Children(b) ==> c in seen)
    }

    /** The two kinds of blocks that a walk gives up without a record of it: an internal node whose keys cannot be
        shared out, and a root that cannot be read. */
    ghost predicate Dropped(root: nat, b: nat) {
      b == root || (Internal(b) && exists kr: KeyRange :: SplitKeyRanges(kr, blocks[b].keys) == None)
    }

    /** The increments that expanding the nodes es makes. */
    ghost function ChildIncs(es: seq<nat>): seq<nat> {
      if es == [] then [] else Children(es[0]) + ChildIncs(es[1..])
    }

    ghost function Leaves(bs: set<nat>): set<nat> {
      set b | b in bs && Leaf(b)
    }

    ghost function Internals(bs: set<nat>): set<nat> {
      set b | b in bs && Internal(b)
    }

    /** Children of what is done are seen, so a path from what is done stays within it while it keeps clear of what
        was seen before. */
    lemma {:induction false} PathIsDone(seen: set<nat>, roots: set<nat>, done: set<nat>, before: set<nat>, p: seq<nat>)
      requires forall b :: b in done ==> Finished(seen, roots, b)
      requires seen - before <= done
      requires Path(p, before) && p[0] in done
      ensures p[|p| - 1] in done
    {
      if |p| > 1 {
        var q := p[..|p| - 1];
        assert forall i :: 0 <= i < |q| - 1 ==> Internal(q[i]) && q[i + 1] in Children(q[i]);
        PathIsDone(seen, roots, done, before, q);
        assert Internal(p[|p| - 2]) && p[|p| - 1] in Children(p[|p| - 2]);
      }
    }
  }

  lemma {:induction false} InBoundsMember(bs: seq<nat>, b: nat, n: nat)
    ensures b in InBounds(bs, n) <==> b in bs && b < n
  {
    if bs != [] {
      InBoundsMember(bs[1..], b, n);
    }
  }

  // ---- the memo, and what a walk makes of it when only missing blocks fail to be read and the visitor never objects

  datatype Memo = Memo(counts: seq<nat>, fails: set<nat>, visits: seq<nat>)

  /** `sm_inc`: the count before, and the counts after.  None is an error. */
  function OldCount(c: Counting, counts: seq<nat>, b: nat): Option<nat> {
    if b < |counts| && !(c.UpTo? && counts[b] >= c.max) then Some(counts[b]) else None
  }

  function Raise(c: Counting, counts: seq<nat>, b: nat): seq<nat> {
    if OldCount(c, counts, b) == None then counts
    else counts[b := if c.Restricted? then 1 else counts[b] + 1]
  }

  /** What counting some children found: those not seen before, with their ranges, and whether none of the others
      is known to have failed. */
  datatype Tally = Tally(counts: seq<nat>, ok: bool, fresh_: seq<nat>, krs: seq<KeyRange>)

  function Count(c: Counting, m: Memo, bs: seq<nat>, krs: seq<KeyRange>): (t: Tally)
    requires |krs| == |bs|
    ensures |t.krs| == |t.fresh_| && Unseen(t.counts) == Unseen(m.counts) - |t.fresh_|
  {
    if bs == [] then Tally(m.counts, true, [], [])
    else
      var n := |bs| - 1;
      var t := Count(c, m, bs[..n], krs[..n]);
      RaiseUnseen(c, t.counts, bs[n]);
      var counts := Raise(c, t.counts, bs[n]);
      match OldCount(c, t.counts, bs[n])
      case None => t.(counts := counts)
      case Some(old_) =>
        if old_ == 0 then Tally(counts, t.ok, t.fresh_ + [bs[n]], t.krs + [krs[n]])
        else t.(counts := counts, ok := t.ok && bs[n] !in m.fails)
  }

  lemma {:induction false} CountNone(c: Counting, m: Memo, bs: seq<nat>, krs: seq<KeyRange>)
    requires |krs| == |bs|
    ensures Count(c, m, bs[..0], krs[..0]) == Tally(m.counts, true, [], [])
  {
  }

  lemma {:induction false} CountMore(c: Counting, m: Memo, bs: seq<nat>, krs: seq<KeyRange>, i: nat)
    requires |krs| == |bs| && i < |bs|
    ensures var t := Count(c, m, bs[..i], krs[..i]);
            var counts := Raise(c, t.counts, bs[i]);
            Count(c, m, bs[..i + 1], krs[..i + 1])
            == match OldCount(c, t.counts, bs[i])
               case None => t.(counts := counts)
               case Some(old_) =>
                 if old_ == 0 then Tally(counts, t.ok, t.fresh_ + [bs[i]], t.krs + [krs[i]])
                 else t.(counts := counts, ok := t.ok && bs[i] !in m.fails)
  {
    assert bs[..i + 1][..i] == bs[..i] && krs[..i + 1][..i] == krs[..i];
  }

  lemma {:induction false} RaiseUnseen(c: Counting, counts: seq<nat>, b: nat)
    ensures Unseen(Raise(c, counts, b)) == Unseen(counts) - if OldCount(c, counts, b) == Some(0) then 1 else 0
  {
    if OldCount(c, counts, b).Some? {
      UnseenRaise(counts, b, if c.Restricted? then 1 else counts[b] + 1);
    }
  }

  function Fail(m: Memo, b: nat): Memo {
    m.(fails := m.fails + {b})
  }

  function NodeWalk(g: Graph, c: Counting, m: Memo, b: nat, kr: KeyRange, isRoot: bool): (r: (Memo, bool))
    requires b in g.blocks
    ensures Unseen(r.0.counts) <= Unseen(m.counts)
    decreases Unseen(m.counts), 2, 0
  {
    var n := g.blocks[b];
    if !Unpacks(n, g.ignoreNonFatal, isRoot) then (Fail(m, b), false)
    else if n.leaf then (m.(visits := m.visits + [b]), true)
    else
      match SplitKeyRanges(kr, n.keys)
      case None => (m, false)
      case Some(krs) =>
        var (m', ok) := NodesWalk(g, c, m, n.vals, krs);
        (if ok then m' else Fail(m', b), ok)
  }

  function NodesWalk(g: Graph, c: Counting, m: Memo, bs: seq<nat>, krs: seq<KeyRange>): (r: (Memo, bool))
    requires |krs| == |bs|
    ensures Unseen(r.0.counts) <= Unseen(m.counts)
    decreases Unseen(m.counts), 1, 0
  {
    var t := Count(c, m, bs, krs);
    if t.fresh_ == [] then (m.(counts := t.counts), t.ok)
    else EachWalk(g, c, m.(counts := t.counts), t.fresh_, t.krs, t.ok)
  }

  function EachWalk(g: Graph, c: Counting, m: Memo, bs: seq<nat>, krs: seq<KeyRange>, ok: bool): (r: (Memo, bool))
    requires |krs| == |bs|
    ensures Unseen(r.0.counts) <= Unseen(m.counts)
    decreases Unseen(m.counts), 3, |bs|
  {
    if bs == [] then (m, ok)
    else
      var n := |bs| - 1;
      var (m1, ok1) := EachWalk(g, c, m, bs[..n], krs[..n], ok);
      if bs[n] !in g.blocks then (Fail(m1, bs[n]), false)
      else
        var (m2, ok2) := NodeWalk(g, c, m1, bs[n], krs[n], false);
        (m2, ok1 && ok2)
  }

  lemma {:induction false} EachNone(g: Graph, c: Counting, m: Memo, bs: seq<nat>, krs: seq<KeyRange>, ok: bool)
    requires |krs| == |bs|
    ensures EachWalk(g, c, m, bs[..0], krs[..0], ok) == (m, ok)
  {
  }

  lemma {:induction false} EachMore(g: Graph, c: Counting, m: Memo, bs: seq<nat>, krs: seq<KeyRange>, ok: bool, i: nat)
    requires |krs| == |bs| && i < |bs|
    ensures var (m1, ok1) := EachWalk(g, c, m, bs[..i], krs[..i], ok);
            EachWalk(g, c, m, bs[..i + 1], krs[..i + 1], ok)
            == if bs[i] !in g.blocks then (Fail(m1, bs[i]), false)
               else var (m2, ok2) := NodeWalk(g, c, m1, bs[i], krs[i], false); (m2, ok1 && ok2)
  {
    assert bs[..i + 1][..i] == bs[..i] && krs[..i + 1][..i] == krs[..i];
  }

  /** What a fresh walker remembers. */
  function Started(nrBlocks: nat): Memo {
    Memo(seq(nrBlocks, _ => 0), {}, [])
  }

  const EVERYTHING := KeyRange(None, None)

  function RootWalk(g: Graph, c: Counting, m: Memo, root: nat): (Memo, bool) {
    var m' := m.(counts := Raise(c, m.counts, root));
    match OldCount(c, m.counts, root)
    case None => (m', false)
    case Some(old_) =>
      if old_ > 0 then (m', root !in m.fails)
      else if root !in g.blocks then (m', false)
      else NodeWalk(g, c, m', root, EVERYTHING, true)
  }

  // ---- when a node is too empty

  /** Block 0 has two leaves of one key each, with room for 252. */
  function SparseGraph(ignoreNonFatal: bool): Graph {
    Graph(map[0 := Image(true, false, 252, [0, 5], [1, 2]), 1 := Image(true, true, 252, [0], [7]),
              2 := Image(true, true, 252, [5], [8])], 3, ignoreNonFatal)
  }

  /** Its walk is rejected, unless errors that are not fatal are ignored; either leaf is accepted as a root. */
  lemma {:induction false} TooEmpty(ignoreNonFatal: bool, leaf: nat)
    requires leaf in {1, 2}
    ensures RootWalk(SparseGraph(ignoreNonFatal), UpTo(9), Memo([0, 0, 0], {}, []), 0).1 == ignoreNonFatal
    ensures RootWalk(SparseGraph(ignoreNonFatal), UpTo(9), Memo([0, 0, 0], {}, []), leaf).1
  {
    hide NodeWalk, RootWalk;
    var g, c := SparseGraph(ignoreNonFatal), UpTo(9);
    SparseRoot(g, c, ignoreNonFatal);
    SparseLeaf(g, c, Memo([0, 0, 0][leaf := 1], {}, []), leaf, EVERYTHING, true, ignoreNonFatal);
    assert [0, 0, 0][0 := 1] == [1, 0, 0];
    NewRoot(g, c, [0, 0, 0], 0);
    NewRoot(g, c, [0, 0, 0], leaf);
  }

  lemma {:induction false} NewRoot(g: Graph, c: Counting, counts: seq<nat>, root: nat)
    requires c == UpTo(9) && root < |counts| && counts[root] == 0 && root in g.blocks
    ensures RootWalk(g, c, Memo(counts, {}, []), root) == NodeWalk(g, c, Memo(counts[root := 1], {}, []), root, EVERYTHING, true)
  {
    hide NodeWalk;
  }

  lemma {:induction false} SparseRoot(g: Graph, c: Counting, ignoreNonFatal: bool)
    requires g == SparseGraph(ignoreNonFatal) && c == UpTo(9)
    ensures NodeWalk(g, c, Memo([1, 0, 0], {}, []), 0, EVERYTHING, true).1 == ignoreNonFatal
  {
    var m := Memo([1, 1, 1], {}, []);
    LateCount(c, Memo([1, 0, 0], {}, []));
    SplitInTwo();
    SparseEach(g, c, m, ignoreNonFatal);
    hide Count, EachWalk, SplitKeyRanges;
    assert NodesWalk(g, c, Memo([1, 0, 0], {}, []), [1, 2], [LOW, HIGH]).1 == ignoreNonFatal;
    hide NodesWalk;
  }

  lemma {:induction false} SparseLeaf(g: Graph, c: Counting, m: Memo, b: nat, kr: KeyRange, isRoot: bool, ignoreNonFatal: bool)
    requires g == SparseGraph(ignoreNonFatal) && b in {1, 2}
    ensures NodeWalk(g, c, m, b, kr, isRoot).1 == (ignoreNonFatal || isRoot)
  {
  }

  lemma {:induction false} SparseEach(g: Graph, c: Counting, m: Memo, ignoreNonFatal: bool)
    requires g == SparseGraph(ignoreNonFatal) && c == UpTo(9)
    ensures EachWalk(g, c, m, [1, 2], [LOW, HIGH], true).1 == ignoreNonFatal
  {
    SparseLeaf(g, c, m, 1, LOW, false, ignoreNonFatal);
    EachOne(g, c, m, 1, LOW);
    var m1 := EachWalk(g, c, m, [1], [LOW], true).0;
    SparseLeaf(g, c, m1, 2, HIGH, false, ignoreNonFatal);
    hide NodeWalk;
    EachMore(g, c, m, [1, 2], [LOW, HIGH], true, 1);
    hide EachWalk;
    assert [1, 2][..1] == [1] && [LOW, HIGH][..1] == [LOW] && [1, 2][..2] == [1, 2] && [LOW, HIGH][..2] == [LOW, HIGH];
  }

  // ---- walks that accept a root although something that it reaches is not finished

  function Parent(keys: seq<nat>, vals: seq<nat>): Image {
    Image(true, false, 3, keys, vals)
  }

  const LOW := KeyRange(Some(0), Some(5))
  const HIGH := KeyRange(Some(5), None)

  lemma {:induction false} SplitInTwo()
    ensures SplitKeyRanges(EVERYTHING, [0, 5]) == Some([LOW, HIGH])
  {
    assert [0, 5][1..] == [5] && [5][1..] == [];
    assert SplitRest(HIGH, []) == Some([HIGH]);
    assert [LOW] + [HIGH] == [LOW, HIGH];
    assert SplitRest(KeyRange(Some(0), None), [5]) == Some([LOW, HIGH]);
  }

  lemma {:induction false} CountOne(c: Counting, m: Memo, b: nat, kr: KeyRange)
    ensures Count(c, m, [], []) == Tally(m.counts, true, [], [])
    ensures var counts := Raise(c, m.counts, b);
            Count(c, m, [b], [kr])
            == match OldCount(c, m.counts, b)
               case None => Tally(counts, true, [], [])
               case Some(old_) => if old_ == 0 then Tally(counts, true, [b], [kr]) else Tally(counts, b !in m.fails, [], [])
  {
    assert [b][..0] == [] && [kr][..0] == [];
  }

  lemma {:induction false} EachOne(g: Graph, c: Counting, m: Memo, b: nat, kr: KeyRange)
    ensures EachWalk(g, c, m, [b], [kr], true)
            == if b in g.blocks then NodeWalk(g, c, m, b, kr, false) else (Fail(m, b), false)
  {
    EachNone(g, c, m, [b], [kr], true);
    EachMore(g, c, m, [b], [kr], true, 0);
    assert [b][..1] == [b] && [kr][..1] == [kr];
  }

  lemma {:induction false} OnlyChild(g: Graph, b: nat, c: nat)
    requires g.Internal(b) && (g.blocks[b].vals == [c] || g.blocks[b].vals == [c, c]) && c < g.nrBlocks
    ensures g.Reaches(From(b, {}, {}), c)
  {
    assert c in g.Children(b) by {
      InBoundsMember(g.blocks[b].vals, c, g.nrBlocks);
    }
    assert g.Path([b, c], {});
    assert g.Reaches(From(b, {}, {}), [b, c][1]);
  }

  /** Block 0 has two children, the second past the end.  The keys of block 1 do not lie below 5. */
  function StrayGraph(): Graph {
    Graph(map[0 := Parent([0, 5], [1, 4]), 1 := Parent([0, 7], [2, 2])], 3, true)
  }

  /** The walk below block 0 fails on the keys of block 1, but there is no record of that against block 1: as a root
      it is accepted, and its child has never been seen. */
  lemma {:induction false} KeysStray()
    ensures var (m1, ok1) := RootWalk(StrayGraph(), UpTo(9), Memo([0, 0, 0], {}, []), 0);
            var (m2, ok2) := RootWalk(StrayGraph(), UpTo(9), m1, 1);
            !ok1 && ok2 && m2.counts == [1, 2, 0] && StrayGraph().Reaches(From(1, {}, {}), 2)
  {
    StrayRoot(StrayGraph(), UpTo(9), Memo([1, 1, 0], {}, []));
    hide RootWalk;
    StrayAgain(StrayGraph(), UpTo(9), Memo([1, 1, 0], {0}, []));
    OnlyChild(StrayGraph(), 1, 2);
  }

  lemma {:induction false} StrayRoot(g: Graph, c: Counting, m: Memo)
    requires g == StrayGraph() && c == UpTo(9) && m == Memo([1, 1, 0], {}, [])
    ensures RootWalk(g, c, Memo([0, 0, 0], {}, []), 0) == (m.(fails := {0}), false)
  {
    StrayChildren(g, c, m);
    SplitInTwo();
    hide NodesWalk;
    assert Fail(m, 0) == m.(fails := {0});
    assert NodeWalk(g, c, Memo([1, 0, 0], {}, []), 0, EVERYTHING, true) == (Fail(m, 0), false);
    hide NodeWalk;
    assert Raise(c, [0, 0, 0], 0) == [1, 0, 0];
  }

  lemma {:induction false} StrayChildren(g: Graph, c: Counting, m: Memo)
    requires g == StrayGraph() && c == UpTo(9) && m == Memo([1, 1, 0], {}, [])
    ensures NodesWalk(g, c, Memo([1, 0, 0], {}, []), [1, 4], [LOW, HIGH]) == (m, false)
  {
    StrayCount(c, Memo([1, 0, 0], {}, []));
    hide Count, EachWalk;
    EachOne(g, c, m, 1, LOW);
    assert SplitKeyRanges(LOW, [0, 7]) == None by {
      assert [0, 7][1..] == [7];
    }
    hide SplitKeyRanges;
    assert NodeWalk(g, c, m, 1, LOW, false) == (m, false);
  }

  lemma {:induction false} StrayAgain(g: Graph, c: Counting, m: Memo)
    requires c == UpTo(9) && m == Memo([1, 1, 0], {0}, [])
    ensures RootWalk(g, c, m, 1) == (m.(counts := [1, 2, 0]), true)
  {
    assert Raise(c, m.counts, 1) == [1, 2, 0];
  }

  lemma {:induction false} StrayCount(c: Counting, m: Memo)
    requires c == UpTo(9) && m == Memo([1, 0, 0], {}, [])
    ensures Count(c, m, [1, 4], [LOW, HIGH]) == Tally([1, 1, 0], true, [1], [LOW])
  {
    CountOne(c, m, 1, LOW);
    assert [1, 4][..1] == [1] && [LOW, HIGH][..1] == [LOW];
  }

  /** A root that cannot be read is rejected the first time and accepted the second. */
  lemma {:induction false} UnreadRoot(g: Graph, c: Counting, m: Memo, root: nat)
    requires root !in g.blocks && root < |m.counts| && m.counts[root] == 0 && root !in m.fails && (c.UpTo? ==> c.max > 1)
    ensures var (m1, ok1) := RootWalk(g, c, m, root);
            var (m2, ok2) := RootWalk(g, c, m1, root);
            !ok1 && ok2
  {
  }

  /** Block 2, the child of both others, cannot be read. */
  function LateGraph(): Graph {
    Graph(map[0 := Parent([0, 5], [1, 2]), 1 := Parent([0], [2])], 3, true)
  }

  /** Block 1 is found clean, as its child has been counted for block 0 but not been read yet.  Then that fails,
      which is recorded against it and block 0 only: block 1 is accepted as a root. */
  lemma {:induction false} FailsLater()
    ensures var (m1, ok1) := RootWalk(LateGraph(), UpTo(9), Memo([0, 0, 0], {}, []), 0);
            var (m2, ok2) := RootWalk(LateGraph(), UpTo(9), m1, 1);
            !ok1 && ok2 && m2.fails == {0, 2} && LateGraph().Reaches(From(1, {}, {}), 2)
  {
    LateRoot(LateGraph(), UpTo(9), Memo([1, 1, 2], {}, []));
    hide RootWalk;
    LateAgain(LateGraph(), UpTo(9), Memo([1, 1, 2], {0, 2}, []));
    OnlyChild(LateGraph(), 1, 2);
  }

  lemma {:induction false} LateRoot(g: Graph, c: Counting, m: Memo)
    requires g == LateGraph() && c == UpTo(9) && m == Memo([1, 1, 2], {}, [])
    ensures RootWalk(g, c, Memo([0, 0, 0], {}, []), 0) == (m.(fails := {0, 2}), false)
  {
    LateChildren(g, c, m);
    SplitInTwo();
    hide NodesWalk;
    assert Fail(m.(fails := {2}), 0) == m.(fails := {0, 2});
    assert NodeWalk(g, c, Memo([1, 0, 0], {}, []), 0, EVERYTHING, true) == (m.(fails := {0, 2}), false);
    hide NodeWalk;
    assert Raise(c, [0, 0, 0], 0) == [1, 0, 0];
  }

  lemma {:induction false} LateChildren(g: Graph, c: Counting, m: Memo)
    requires g == LateGraph() && c == UpTo(9) && m == Memo([1, 1, 2], {}, [])
    ensures NodesWalk(g, c, Memo([1, 0, 0], {}, []), [1, 2], [LOW, HIGH]) == (m.(fails := {2}), false)
  {
    LateCount(c, Memo([1, 0, 0], {}, []));
    hide Count, EachWalk;
    LateEach(g, c, Memo([1, 1, 1], {}, []), m);
  }

  lemma {:induction false} LateEach(g: Graph, c: Counting, m: Memo, m': Memo)
    requires g == LateGraph() && c == UpTo(9) && m == Memo([1, 1, 1], {}, []) && m' == Memo([1, 1, 2], {}, [])
    ensures EachWalk(g, c, m, [1, 2], [LOW, HIGH], true) == (m'.(fails := {2}), false)
  {
    LateWalk(g, c, m, m');
    EachOne(g, c, m, 1, LOW);
    hide NodeWalk;
    EachMore(g, c, m, [1, 2], [LOW, HIGH], true, 1);
    hide EachWalk;
    assert [1, 2][..1] == [1] && [LOW, HIGH][..1] == [LOW] && [1, 2][..2] == [1, 2] && [LOW, HIGH][..2] == [LOW, HIGH];
    assert Fail(m', 2) == m'.(fails := {2});
  }

  lemma {:induction false} LateAgain(g: Graph, c: Counting, m: Memo)
    requires c == UpTo(9) && m == Memo([1, 1, 2], {0, 2}, [])
    ensures RootWalk(g, c, m, 1) == (m.(counts := [1, 2, 2]), true)
  {
    assert Raise(c, m.counts, 1) == [1, 2, 2];
  }

  lemma {:induction false} LateCount(c: Counting, m: Memo)
    requires c == UpTo(9) && m == Memo([1, 0, 0], {}, [])
    ensures Count(c, m, [1, 2], [LOW, HIGH]) == Tally([1, 1, 1], true, [1, 2], [LOW, HIGH])
  {
    hide Count, Raise, OldCount;
    CountOne(c, m, 1, LOW);
    CountMore(c, m, [1, 2], [LOW, HIGH], 1);
    assert [1, 2][..1] == [1] && [LOW, HIGH][..1] == [LOW] && [1, 2][..2] == [1, 2] && [LOW, HIGH][..2] == [LOW, HIGH];
    LateCounts(c);
  }

  lemma {:induction false} LateCounts(c: Counting)
    requires c == UpTo(9)
    ensures OldCount(c, [1, 0, 0], 1) == Some(0) && Raise(c, [1, 0, 0], 1) == [1, 1, 0]
    ensures OldCount(c, [1, 1, 0], 2) == Some(0) && Raise(c, [1, 1, 0], 2) == [1, 1, 1]
  {
  }

  lemma {:induction false} LateWalk(g: Graph, c: Counting, m: Memo, m': Memo)
    requires g == LateGraph() && c == UpTo(9) && m == Memo([1, 1, 1], {}, []) && m' == Memo([1, 1, 2], {}, [])
    ensures NodeWalk(g, c, m, 1, LOW, false) == (m', true)
  {
    assert [0][1..] == [];
    assert SplitKeyRanges(LOW, [0]) == Some([LOW]);
    CountOne(c, m, 2, LOW);
    assert Raise(c, m.counts, 2) == [1, 1, 2];
    hide Count, SplitKeyRanges, Raise;
    assert NodesWalk(g, c, m, [2], [LOW]) == (m', true);
  }
}
