/** What the builder makes can be walked: src/pdata/btree_walker.rs. */
module BuiltTrees {
  import opened Wrappers
  import opened Sequences
  import opened Ledger
  import opened NodeBuilders
  import opened BtreeBuilders
  import opened BtreeLookups
  import opened KeyRanges
  import opened GraphWalks

  /** A block's image shows a node. */
  ghost predicate Shows(n: Image, node: Node, max: nat) {
    && n.intact && (n.leaf <==> node.leaf) && n.maxEntries == max && |n.keys| == |n.vals| == |node.entries|
    && forall i :: 0 <= i < |node.entries| ==>
         n.keys[i] == node.entries[i].key && (!node.leaf ==> n.vals[i] == Child(node.entries[i]))
  }

  /** The graph shows every block that was written. */
  ghost predicate Pictures(g: Graph, blocks: map<nat, Node>, leafMax: nat) {
    forall b :: b in blocks ==>
      b < g.nrBlocks && b in g.blocks && Shows(g.blocks[b], blocks[b], if blocks[b].leaf then leafMax else INTERNAL_MAX)
  }

  /** The blocks of a tree. */
  ghost function Below(blocks: map<nat, Node>, b: nat, d: nat): set<nat>
    decreases d, 0
  {
    {b} + if d == 0 || b !in blocks then {} else BelowAll(blocks, blocks[b].entries, d - 1)
  }

  ghost function BelowAll(blocks: map<nat, Node>, es: seq<Entry>, d: nat): set<nat>
    decreases d, 1 + |es|
  {
    if es == [] then {} else BelowAll(blocks, es[..|es| - 1], d) + Below(blocks, Child(es[|es| - 1]), d)
  }

  /** Its leaves, in order. */
  ghost function LeafList(blocks: map<nat, Node>, b: nat, d: nat): seq<nat>
    decreases d, 0
  {
    if d == 0 || b !in blocks then [b] else LeavesUnder(blocks, blocks[b].entries, d - 1)
  }

  ghost function LeavesUnder(blocks: map<nat, Node>, es: seq<Entry>, d: nat): seq<nat>
    decreases d, 1 + |es|
  {
    if es == [] then [] else LeavesUnder(blocks, es[..|es| - 1], d) + LeafList(blocks, Child(es[|es| - 1]), d)
  }

  /** The entries of some leaves, in order. */
  ghost function EntriesOf(blocks: map<nat, Node>, leaves: seq<nat>): seq<Entry> {
    if leaves == [] then [] else EntriesOf(blocks, leaves[..|leaves| - 1]) + EntriesAt(blocks, leaves[|leaves| - 1])
  }

  lemma {:induction false} EntriesOfConcat(blocks: map<nat, Node>, a: seq<nat>, c: seq<nat>)
    ensures EntriesOf(blocks, a + c) == EntriesOf(blocks, a) + EntriesOf(blocks, c)
    decreases |c|
  {
    if c == [] {
      assert a + c == a;
    } else {
      var n := |c| - 1;
      assert (a + c)[..|a| + n] == a + c[..n];
      EntriesOfConcat(blocks, a, c[..n]);
    }
  }

  lemma {:induction false} UnderLast(blocks: map<nat, Node>, es: seq<Entry>, d: nat)
    requires es != []
    ensures Under(blocks, es, d) == Under(blocks, es[..|es| - 1], d) + TreeEntries(blocks, Child(es[|es| - 1]), d)
  {
    var n := |es| - 1;
    assert es == es[..n] + [es[n]];
    UnderConcat(blocks, es[..n], [es[n]], d);
    UnderOne(blocks, es[n], d);
  }

  /** The leaves hold the tree's entries, in order. */
  lemma {:induction false} LeavesInOrder(counts: seq<nat>, blocks: map<nat, Node>, b: nat, d: nat)
    requires Tree(counts, blocks, b, d)
    ensures EntriesOf(blocks, LeafList(blocks, b, d)) == TreeEntries(blocks, b, d)
    decreases d, 0
  {
    if d == 0 {
      assert [b][..0] == [];
      assert EntriesOf(blocks, [b]) == EntriesOf(blocks, [b][..0]) + EntriesAt(blocks, b);
    } else {
      LeavesUnderInOrder(counts, blocks, blocks[b].entries, d - 1);
    }
  }

  lemma {:induction false} LeavesUnderInOrder(counts: seq<nat>, blocks: map<nat, Node>, es: seq<Entry>, d: nat)
    requires forall i :: 0 <= i < |es| ==> Tree(counts, blocks, Child(es[i]), d)
    ensures EntriesOf(blocks, LeavesUnder(blocks, es, d)) == Under(blocks, es, d)
    decreases d, 1 + |es|
  {
    if es != [] {
      var n := |es| - 1;
      LeavesUnderInOrder(counts, blocks, es[..n], d);
      LeavesInOrder(counts, blocks, Child(es[n]), d);
      UnderLast(blocks, es, d);
      EntriesOfConcat(blocks, LeavesUnder(blocks, es[..n], d), LeafList(blocks, Child(es[n]), d));
    }
  }

  // ---- no block is in a tree twice

  lemma {:induction false} OneHeight(counts: seq<nat>, blocks: map<nat, Node>, b: nat, d: nat, e: nat)
    requires Tree(counts, blocks, b, d) && Tree(counts, blocks, b, e)
    ensures d == e
    decreases d
  {
    if d > 0 {
      OneHeight(counts, blocks, Child(blocks[b].entries[0]), d - 1, e - 1);
    }
  }

  /** A block of a tree heads a tree of its own, with an entry that is one of the whole tree's. */
  lemma {:induction false} InTree(counts: seq<nat>, blocks: map<nat, Node>, b: nat, d: nat, leafMax: nat, x: nat) returns (h: nat)
    requires leafMax >= 3 && Tree(counts, blocks, b, d) && Strict(blocks, b, d, leafMax, false) && x in Below(blocks, b, d)
    ensures h <= d && Tree(counts, blocks, x, h)
    ensures TreeEntries(blocks, x, h) != [] && TreeEntries(blocks, x, h)[0] in TreeEntries(blocks, b, d)
    decreases d, 0
  {
    if x == b {
      h := d;
      EntriesBelow(counts, blocks, b, d, leafMax);
    } else {
      h := InTrees(counts, blocks, blocks[b].entries, d - 1, leafMax, x);
    }
  }

  lemma {:induction false} InTrees(counts: seq<nat>, blocks: map<nat, Node>, es: seq<Entry>, d: nat, leafMax: nat, x: nat) returns (h: nat)
    requires leafMax >= 3 && x in BelowAll(blocks, es, d)
    requires forall i :: 0 <= i < |es| ==> Tree(counts, blocks, Child(es[i]), d) && Strict(blocks, Child(es[i]), d, leafMax, false)
    ensures h <= d && Tree(counts, blocks, x, h)
    ensures TreeEntries(blocks, x, h) != [] && TreeEntries(blocks, x, h)[0] in Under(blocks, es, d)
    decreases d, 1 + |es|
  {
    var n := |es| - 1;
    UnderLast(blocks, es, d);
    if x in BelowAll(blocks, es[..n], d) {
      h := InTrees(counts, blocks, es[..n], d, leafMax, x);
    } else {
      h := InTree(counts, blocks, Child(es[n]), d, leafMax, x);
    }
  }

  /** Trees in order. */
  ghost predicate Brood(counts: seq<nat>, blocks: map<nat, Node>, es: seq<Entry>, d: nat, leafMax: nat) {
    && leafMax >= 3 && StrictlyAscending(Under(blocks, es, d))
    && forall i :: 0 <= i < |es| ==> Tree(counts, blocks, Child(es[i]), d) && Strict(blocks, Child(es[i]), d, leafMax, false)
  }

  lemma {:induction false} NodeBrood(g: Graph, counts: seq<nat>, blocks: map<nat, Node>, b: nat, d: nat, leafMax: nat, isRoot: bool)
    requires d > 0 && Walkable(g, counts, blocks, b, d, leafMax, isRoot) && b in blocks
    ensures Brood(counts, blocks, blocks[b].entries, d - 1, leafMax)
  {
    hide StrictlyAscending, Under;
    BuiltNode(counts, blocks, b, d, leafMax, isRoot);
  }

  /** The last of some trees in order shares no block with those before it. */
  lemma {:induction false} LastApart(counts: seq<nat>, blocks: map<nat, Node>, es: seq<Entry>, d: nat, leafMax: nat)
    requires es != [] && Brood(counts, blocks, es, d, leafMax)
    ensures BelowAll(blocks, es[..|es| - 1], d) !! Below(blocks, Child(es[|es| - 1]), d)
  {
    var before, last := BelowAll(blocks, es[..|es| - 1], d), Below(blocks, Child(es[|es| - 1]), d);
    forall x | x in before && x in last ensures false {
      NotInBoth(counts, blocks, es, d, leafMax, x);
    }
  }

  lemma {:induction false} NotInBoth(counts: seq<nat>, blocks: map<nat, Node>, es: seq<Entry>, d: nat, leafMax: nat, x: nat)
    requires es != [] && Brood(counts, blocks, es, d, leafMax)
    ensures x in BelowAll(blocks, es[..|es| - 1], d) ==> x !in Below(blocks, Child(es[|es| - 1]), d)
  {
    hide Under, TreeEntries, StrictlyAscending, Tree, Strict, Below, BelowAll;
    var n := |es| - 1;
    UnderLast(blocks, es, d);
    AscendingApart(Under(blocks, es[..n], d), TreeEntries(blocks, Child(es[n]), d));
    if x in BelowAll(blocks, es[..n], d) && x in Below(blocks, Child(es[n]), d) {
      var h := InTrees(counts, blocks, es[..n], d, leafMax, x);
      var k := InTree(counts, blocks, Child(es[n]), d, leafMax, x);
      OneHeight(counts, blocks, x, h, k);
    }
  }

  lemma {:induction false} AscendingApart(p: seq<Entry>, q: seq<Entry>)
    requires StrictlyAscending(p + q)
    ensures StrictlyAscending(p) && StrictlyAscending(q) && forall e, f :: e in p && f in q ==> e.key < f.key
  {
    assert forall i :: 0 <= i < |p| ==> (p + q)[i] == p[i];
    assert forall i :: 0 <= i < |q| ==> (p + q)[|p| + i] == q[i];
    forall e, f | e in p && f in q ensures e.key < f.key {
      var i :| 0 <= i < |p| && p[i] == e;
      var j :| 0 <= j < |q| && q[j] == f;
      assert (p + q)[i].key < (p + q)[|p| + j].key;
    }
  }

  /** A tree's root is not in the trees below it. */
  lemma {:induction false} RootApart(counts: seq<nat>, blocks: map<nat, Node>, b: nat, d: nat, leafMax: nat)
    requires leafMax >= 3 && d > 0 && Tree(counts, blocks, b, d)
    requires forall i :: 0 <= i < |blocks[b].entries| ==> Strict(blocks, Child(blocks[b].entries[i]), d - 1, leafMax, false)
    ensures b !in BelowAll(blocks, blocks[b].entries, d - 1)
  {
    if b in BelowAll(blocks, blocks[b].entries, d - 1) {
      var h := InTrees(counts, blocks, blocks[b].entries, d - 1, leafMax, b);
      OneHeight(counts, blocks, b, h, d);
    }
  }

  // ---- walking

  ghost predicate Sane(c: Counting) {
    c.UpTo? ==> c.max >= 1
  }

  ghost predicate AllUnseen(m: Memo, bs: set<nat>) {
    forall b :: b in bs ==> b < |m.counts| && m.counts[b] == 0
  }

  /** Only these blocks' counts differ. */
  ghost predicate SameBut(m: Memo, m': Memo, bs: set<nat>) {
    m'.fails == m.fails && |m'.counts| == |m.counts| && forall b :: 0 <= b < |m.counts| && b !in bs ==> m'.counts[b] == m.counts[b]
  }

  ghost predicate Inside(kr: KeyRange, es: seq<Entry>) {
    forall e :: e in es ==> kr.Contains(e.key)
  }

  /** Children that nobody has seen are all picked. */
  lemma {:induction false} CountFresh(c: Counting, m: Memo, bs: seq<nat>, krs: seq<KeyRange>, i: nat)
    requires |krs| == |bs| && NoRepeats(bs) && Sane(c) && AllUnseen(m, Members(bs)) && i <= |bs|
    ensures var t := GraphWalks.Count(c, m, bs[..i], krs[..i]);
            t.ok && t.fresh_ == bs[..i] && t.krs == krs[..i] && SameBut(m, m.(counts := t.counts), Members(bs[..i]))
  {
    hide GraphWalks.Count, Unseen;
    if i == 0 {
      CountNone(c, m, bs, krs);
    } else {
      var k := i - 1;
      CountFresh(c, m, bs, krs, k);
      CountMore(c, m, bs, krs, k);
      assert bs[k] in Members(bs) && bs[k] !in Members(bs[..k]);
      assert bs[..i] == bs[..k] + [bs[k]] && krs[..i] == krs[..k] + [krs[k]];
    }
  }

  /** Every child's range has the keys below that child. */
  ghost predicate RangesFit(krs: seq<KeyRange>, blocks: map<nat, Node>, es: seq<Entry>, d: nat) {
    |krs| == |es| && forall i :: 0 <= i < |krs| ==> Inside(krs[i], TreeEntries(blocks, Child(es[i]), d))
  }

  lemma {:induction false} RangeFits(krs: seq<KeyRange>, blocks: map<nat, Node>, es: seq<Entry>, d: nat, i: nat)
    requires RangesFit(krs, blocks, es, d) && i < |krs|
    ensures Inside(krs[i], TreeEntries(blocks, Child(es[i]), d))
  {
  }

  /** The keys can be shared out, and every child's range has its keys. */
  lemma {:induction false} ChildRanges(counts: seq<nat>, blocks: map<nat, Node>, b: nat, d: nat, leafMax: nat, isRoot: bool, kr: KeyRange,
                                       keys: seq<nat>)
    requires d > 0 && leafMax >= 3 && Tree(counts, blocks, b, d) && Strict(blocks, b, d, leafMax, isRoot)
    requires StrictlyAscending(TreeEntries(blocks, b, d)) && Inside(kr, TreeEntries(blocks, b, d))
    requires |keys| == |blocks[b].entries| && forall i :: 0 <= i < |keys| ==> keys[i] == blocks[b].entries[i].key
    ensures SplitKeyRanges(kr, keys).Some?
    ensures RangesFit(SplitKeyRanges(kr, keys).value, blocks, blocks[b].entries, d - 1)
  {
    var es := blocks[b].entries;
    BuiltNode(counts, blocks, b, d, leafMax, isRoot);
    var first, rest := KeyRange(Some(keys[0]), kr.end), keys[1..];
    assert [keys[0]] + rest == keys;
    assert Ascending(keys);
    forall k | k in rest && kr.end.Some? ensures k < kr.end.value {
      var i :| 0 <= i < |rest| && rest[i] == k;
      KeyBelow(counts, blocks, b, d, leafMax, isRoot, i + 1);
    }
    SplitRestWhen(first, rest);
    forall i | 0 <= i < |keys| ensures Inside(SplitKeyRanges(kr, keys).value[i], TreeEntries(blocks, Child(es[i]), d - 1)) {
      ChildRange(counts, blocks, b, d, leafMax, isRoot, kr, keys, i);
    }
  }

  lemma {:induction false} ChildRange(counts: seq<nat>, blocks: map<nat, Node>, b: nat, d: nat, leafMax: nat, isRoot: bool, kr: KeyRange,
                                      keys: seq<nat>, i: nat)
    requires d > 0 && leafMax >= 3 && Tree(counts, blocks, b, d) && Strict(blocks, b, d, leafMax, isRoot)
    requires StrictlyAscending(TreeEntries(blocks, b, d)) && Inside(kr, TreeEntries(blocks, b, d))
    requires |keys| == |blocks[b].entries| && forall i :: 0 <= i < |keys| ==> keys[i] == blocks[b].entries[i].key
    requires i < |keys| && SplitKeyRanges(kr, keys).Some?
    ensures Inside(SplitKeyRanges(kr, keys).value[i], TreeEntries(blocks, Child(blocks[b].entries[i]), d - 1))
  {
    var es, below := blocks[b].entries, TreeEntries(blocks, Child(blocks[b].entries[i]), d - 1);
    var first, rest := KeyRange(Some(keys[0]), kr.end), keys[1..];
    assert [keys[0]] + rest == keys;
    ChildAscends(counts, blocks, b, d, leafMax, isRoot, i);
    forall e | e in below ensures SplitKeyRanges(kr, keys).value[i].Contains(e.key) {
      SplitRestCovers(first, rest, i, e.key);
      ChildEntry(blocks, b, d, i, e);
    }
  }

  lemma {:induction false} ChildEntry(blocks: map<nat, Node>, b: nat, d: nat, i: nat, e: Entry)
    requires d > 0 && b in blocks && i < |blocks[b].entries| && e in TreeEntries(blocks, Child(blocks[b].entries[i]), d - 1)
    ensures e in TreeEntries(blocks, b, d)
  {
    UnderMember(blocks, blocks[b].entries, d - 1, i, e);
  }

  /** A separator is the key of an entry below. */
  lemma {:induction false} KeyBelow(counts: seq<nat>, blocks: map<nat, Node>, b: nat, d: nat, leafMax: nat, isRoot: bool, i: nat)
    requires d > 0 && leafMax >= 3 && Tree(counts, blocks, b, d) && Strict(blocks, b, d, leafMax, isRoot) && i < |blocks[b].entries|
    ensures exists e :: e in TreeEntries(blocks, b, d) && e.key == blocks[b].entries[i].key
  {
    FirstBelow(counts, blocks, b, d, leafMax, isRoot, i);
    var e := TreeEntries(blocks, Child(blocks[b].entries[i]), d - 1)[0];
    ChildEntry(blocks, b, d, i, e);
  }

  /** The children of a node, as its image has them. */
  ghost predicate Kids(vals: seq<nat>, es: seq<Entry>) {
    |vals| == |es| && forall i :: 0 <= i < |es| ==> vals[i] == Child(es[i])
  }

  /** Everything a walk of a tree needs to know of it. */
  ghost predicate Walkable(g: Graph, counts: seq<nat>, blocks: map<nat, Node>, b: nat, d: nat, leafMax: nat, isRoot: bool) {
    && leafMax >= 3 && leafMax % 3 == 0 && Pictures(g, blocks, leafMax)
    && Tree(counts, blocks, b, d) && Strict(blocks, b, d, leafMax, isRoot) && StrictlyAscending(TreeEntries(blocks, b, d))
  }

  lemma {:induction false} WalkableNode(g: Graph, counts: seq<nat>, blocks: map<nat, Node>, b: nat, d: nat, leafMax: nat, isRoot: bool)
    requires Walkable(g, counts, blocks, b, d, leafMax, isRoot)
    ensures b < g.nrBlocks && b in g.blocks && b in blocks && Unpacks(g.blocks[b], g.ignoreNonFatal, isRoot)
    ensures (g.blocks[b].leaf <==> d == 0) && (d > 0 ==> Kids(g.blocks[b].vals, blocks[b].entries) && blocks[b].entries != [])
    ensures |g.blocks[b].keys| == |blocks[b].entries|
    ensures forall i :: 0 <= i < |blocks[b].entries| ==> g.blocks[b].keys[i] == blocks[b].entries[i].key
  {
    hide Under;
  }

  lemma {:induction false} WalkableChild(g: Graph, counts: seq<nat>, blocks: map<nat, Node>, b: nat, d: nat, leafMax: nat, isRoot: bool, i: nat)
    requires d > 0 && Walkable(g, counts, blocks, b, d, leafMax, isRoot) && b in blocks && i < |blocks[b].entries|
    ensures Walkable(g, counts, blocks, Child(blocks[b].entries[i]), d - 1, leafMax, false)
  {
    BuiltNode(counts, blocks, b, d, leafMax, isRoot);
    ChildAscends(counts, blocks, b, d, leafMax, isRoot, i);
  }

  lemma {:induction false} BelowInside(g: Graph, counts: seq<nat>, blocks: map<nat, Node>, b: nat, d: nat, leafMax: nat)
    requires Pictures(g, blocks, leafMax) && Tree(counts, blocks, b, d)
    ensures forall x :: x in Below(blocks, b, d) ==> x < g.nrBlocks
    decreases d, 0
  {
    if d > 0 {
      BelowAllInside(g, counts, blocks, blocks[b].entries, d - 1, leafMax);
    }
  }

  lemma {:induction false} BelowAllInside(g: Graph, counts: seq<nat>, blocks: map<nat, Node>, es: seq<Entry>, d: nat, leafMax: nat)
    requires Pictures(g, blocks, leafMax) && forall i :: 0 <= i < |es| ==> Tree(counts, blocks, Child(es[i]), d)
    ensures forall x :: x in BelowAll(blocks, es, d) ==> x < g.nrBlocks
    decreases d, 1 + |es|
  {
    if es != [] {
      BelowAllInside(g, counts, blocks, es[..|es| - 1], d, leafMax);
      BelowInside(g, counts, blocks, Child(es[|es| - 1]), d, leafMax);
    }
  }

  lemma {:induction false} ChildInBelow(blocks: map<nat, Node>, es: seq<Entry>, d: nat, i: nat)
    requires i < |es|
    ensures Below(blocks, Child(es[i]), d) <= BelowAll(blocks, es, d) && Child(es[i]) in Below(blocks, Child(es[i]), d)
    decreases |es|
  {
    if i < |es| - 1 {
      ChildInBelow(blocks, es[..|es| - 1], d, i);
    }
  }

  /** A child shares no block with those before it. */
  lemma {:induction false} ChildApart(counts: seq<nat>, blocks: map<nat, Node>, es: seq<Entry>, d: nat, leafMax: nat, i: nat)
    requires Brood(counts, blocks, es, d, leafMax) && i < |es|
    ensures BelowAll(blocks, es[..i], d) !! Below(blocks, Child(es[i]), d)
  {
    hide StrictlyAscending, Under, Tree, Strict, Below, BelowAll;
    assert es == es[..i + 1] + es[i + 1..] && es[..i + 1][..i] == es[..i];
    UnderConcat(blocks, es[..i + 1], es[i + 1..], d);
    AscendingApart(Under(blocks, es[..i + 1], d), Under(blocks, es[i + 1..], d));
    LastApart(counts, blocks, es[..i + 1], d, leafMax);
  }

  lemma {:induction false} KidsApart(counts: seq<nat>, blocks: map<nat, Node>, es: seq<Entry>, d: nat, leafMax: nat, i: nat, j: nat)
    requires Brood(counts, blocks, es, d, leafMax) && i < |es| && j < |es| && i != j
    ensures Child(es[j]) !in Below(blocks, Child(es[i]), d) && Child(es[i]) != Child(es[j])
  {
    hide Brood, Below, BelowAll;
    var k := if i < j then j else i;
    ChildApart(counts, blocks, es, d, leafMax, k);
    ChildBefore(blocks, es, d, i, j);
    ChildBefore(blocks, es, d, j, i);
    ChildInBelow(blocks, es, d, i);
    ChildInBelow(blocks, es, d, j);
  }

  lemma {:induction false} ChildBefore(blocks: map<nat, Node>, es: seq<Entry>, d: nat, i: nat, j: nat)
    requires i < |es| && j < |es|
    ensures i < j ==> Below(blocks, Child(es[i]), d) <= BelowAll(blocks, es[..j], d)
  {
    if i < j {
      ChildInBelow(blocks, es[..j], d, i);
    }
  }

  /** A tree that nobody has seen: the walk ends well, shows its leaves in order and counts nothing outside it. */
  lemma {:induction false} NodeWalks(g: Graph, c: Counting, m: Memo, counts: seq<nat>, blocks: map<nat, Node>, b: nat, d: nat,
                                     leafMax: nat, kr: KeyRange, isRoot: bool)
    requires Walkable(g, counts, blocks, b, d, leafMax, isRoot) && Sane(c) && |m.counts| == g.nrBlocks && b in g.blocks
    requires Inside(kr, TreeEntries(blocks, b, d)) && AllUnseen(m, Below(blocks, b, d) - {b})
    ensures var (m', ok) := NodeWalk(g, c, m, b, kr, isRoot);
            ok && SameBut(m, m', Below(blocks, b, d) - {b}) && m'.visits == m.visits + LeafList(blocks, b, d)
    decreases d, 0
  {
    WalkableNode(g, counts, blocks, b, d, leafMax, isRoot);
    if d > 0 {
      var es, n := blocks[b].entries, g.blocks[b];
      assert Tree(counts, blocks, b, d) && Strict(blocks, b, d, leafMax, isRoot);
      ChildRanges(counts, blocks, b, d, leafMax, isRoot, kr, n.keys);
      BuiltNode(counts, blocks, b, d, leafMax, isRoot);
      RootApart(counts, blocks, b, d, leafMax);
      hide Walkable, Unpacks, Kids, Inside, NodesWalk, Tree, Strict, TreeEntries;
      assert BelowAll(blocks, es, d - 1) <= Below(blocks, b, d) - {b};
      KidsWalk(g, c, m, counts, blocks, b, d, leafMax, isRoot, SplitKeyRanges(kr, n.keys).value);
    }
  }

  lemma {:induction false} KidsWalk(g: Graph, c: Counting, m: Memo, counts: seq<nat>, blocks: map<nat, Node>, b: nat, d: nat,
                                    leafMax: nat, isRoot: bool, krs: seq<KeyRange>)
    requires d > 0 && Walkable(g, counts, blocks, b, d, leafMax, isRoot) && Sane(c) && |m.counts| == g.nrBlocks
    requires b in g.blocks && b in blocks && AllUnseen(m, BelowAll(blocks, blocks[b].entries, d - 1))
    requires |krs| == |blocks[b].entries| == |g.blocks[b].vals| && Kids(g.blocks[b].vals, blocks[b].entries) && blocks[b].entries != []
    requires RangesFit(krs, blocks, blocks[b].entries, d - 1)
    ensures var (m', ok) := NodesWalk(g, c, m, g.blocks[b].vals, krs);
            ok && SameBut(m, m', BelowAll(blocks, blocks[b].entries, d - 1))
            && m'.visits == m.visits + LeavesUnder(blocks, blocks[b].entries, d - 1)
    decreases d, 0, 0
  {
    var es, vals := blocks[b].entries, g.blocks[b].vals;
    hide Walkable, Tree, Strict, Under, Below, BelowAll, LeavesUnder, LeafList, Inside, EachWalk, GraphWalks.Count, TreeEntries,
         NoRepeats, SameBut, AllUnseen;
    KidsDistinct(g, counts, blocks, b, d, leafMax, isRoot, vals);
    KidsUnseen(blocks, es, vals, d - 1, m);
    CountFresh(c, m, vals, krs, |vals|);
    assert vals[..|vals|] == vals && krs[..|krs|] == krs && es[..|es|] == es;
    var t := GraphWalks.Count(c, m, vals, krs);
    var m1 := m.(counts := t.counts);
    SameSize(m, m1, Members(vals));
    EachWalks(g, c, m, m1, counts, blocks, b, d, leafMax, isRoot, krs, |es|);
    SameButBoth(m, m1, EachWalk(g, c, m1, vals, krs, true).0, Members(vals), BelowAll(blocks, es, d - 1), BelowAll(blocks, es, d - 1));
  }

  lemma {:induction false} SameSize(m: Memo, m1: Memo, bs: set<nat>)
    requires SameBut(m, m1, bs)
    ensures |m1.counts| == |m.counts|
  {
  }

  lemma {:induction false} KidsUnseen(blocks: map<nat, Node>, es: seq<Entry>, vals: seq<nat>, d: nat, m: Memo)
    requires Kids(vals, es) && AllUnseen(m, BelowAll(blocks, es, d))
    ensures Members(vals) <= BelowAll(blocks, es, d) && AllUnseen(m, Members(vals))
  {
    forall v | v in vals ensures v in BelowAll(blocks, es, d) {
      var i :| 0 <= i < |vals| && vals[i] == v;
      ChildInBelow(blocks, es, d, i);
    }
  }

  lemma {:induction false} KidsDistinct(g: Graph, counts: seq<nat>, blocks: map<nat, Node>, b: nat, d: nat, leafMax: nat, isRoot: bool,
                                        vals: seq<nat>)
    requires d > 0 && Walkable(g, counts, blocks, b, d, leafMax, isRoot) && b in blocks && Kids(vals, blocks[b].entries)
    ensures NoRepeats(vals)
  {
    hide Walkable, Brood, Below, BelowAll;
    NodeBrood(g, counts, blocks, b, d, leafMax, isRoot);
    var es := blocks[b].entries;
    forall i, j | 0 <= i < j < |vals| ensures vals[i] != vals[j] {
      KidsApart(counts, blocks, es, d - 1, leafMax, i, j);
    }
  }

  /** Child k's blocks are not below the children before it. */
  lemma {:induction false} KidApart(g: Graph, counts: seq<nat>, blocks: map<nat, Node>, b: nat, d: nat, leafMax: nat, isRoot: bool, k: nat)
    requires d > 0 && Walkable(g, counts, blocks, b, d, leafMax, isRoot) && b in blocks && k < |blocks[b].entries|
    ensures BelowAll(blocks, blocks[b].entries[..k], d - 1) !! Below(blocks, Child(blocks[b].entries[k]), d - 1)
  {
    hide Walkable, Brood, Below, BelowAll;
    NodeBrood(g, counts, blocks, b, d, leafMax, isRoot);
    ChildApart(counts, blocks, blocks[b].entries, d - 1, leafMax, k);
  }

  /** And no other child is among them. */
  lemma {:induction false} KidAlone(g: Graph, counts: seq<nat>, blocks: map<nat, Node>, b: nat, d: nat, leafMax: nat, isRoot: bool,
                                    vals: seq<nat>, k: nat, x: nat)
    requires d > 0 && Walkable(g, counts, blocks, b, d, leafMax, isRoot) && b in blocks && Kids(vals, blocks[b].entries)
    requires k < |vals| && x in Members(vals) && x in Below(blocks, Child(blocks[b].entries[k]), d - 1)
    ensures x == Child(blocks[b].entries[k])
  {
    hide Walkable, Brood, Below, BelowAll;
    NodeBrood(g, counts, blocks, b, d, leafMax, isRoot);
    var es := blocks[b].entries;
    var j :| 0 <= j < |vals| && vals[j] == x;
    if j != k {
      KidsApart(counts, blocks, es, d - 1, leafMax, k, j);
    }
  }

  /** Child k, when those before it have been walked. */
  lemma {:induction false} OneKid(g: Graph, c: Counting, m: Memo, m1: Memo, m': Memo, counts: seq<nat>, blocks: map<nat, Node>,
                                  b: nat, d: nat, leafMax: nat, isRoot: bool, vals: seq<nat>, kr: KeyRange, k: nat)
    requires d > 0 && Walkable(g, counts, blocks, b, d, leafMax, isRoot) && Sane(c) && |m'.counts| == g.nrBlocks
    requires b in blocks && Kids(vals, blocks[b].entries) && k < |vals|
    requires Inside(kr, TreeEntries(blocks, Child(blocks[b].entries[k]), d - 1))
    requires AllUnseen(m, BelowAll(blocks, blocks[b].entries, d - 1)) && SameBut(m, m1, Members(vals))
    requires SameBut(m1, m', BelowAll(blocks, blocks[b].entries[..k], d - 1))
    ensures var root := Child(blocks[b].entries[k]);
            && root in g.blocks && root == vals[k]
            && var (m2, ok) := NodeWalk(g, c, m', root, kr, false);
               ok && SameBut(m', m2, Below(blocks, root, d - 1) - {root}) && m2.visits == m'.visits + LeafList(blocks, root, d - 1)
    decreases d - 1, 1, 0
  {
    hide Walkable, Tree, Strict, TreeEntries, Under, Inside, Below, BelowAll, LeafList, SameBut, AllUnseen, Pictures, Unpacks,
         StrictlyAscending, NodeWalk;
    var es := blocks[b].entries;
    var root := Child(es[k]);
    var mine := Below(blocks, root, d - 1);
    KidApart(g, counts, blocks, b, d, leafMax, isRoot, k);
    forall x | x in Members(vals) && x in mine ensures x == root {
      KidAlone(g, counts, blocks, b, d, leafMax, isRoot, vals, k, x);
    }
    WalkableChild(g, counts, blocks, b, d, leafMax, isRoot, k);
    WalkableNode(g, counts, blocks, root, d - 1, leafMax, false);
    ChildInBelow(blocks, es, d - 1, k);
    StillUnseen(m, m1, m', BelowAll(blocks, es, d - 1), BelowAll(blocks, es[..k], d - 1), Members(vals), mine, root);
    NodeWalks(g, c, m', counts, blocks, root, d - 1, leafMax, kr, false);
  }

  /** The first i children, counted already, are walked one after the other. */
  lemma {:induction false} EachWalks(g: Graph, c: Counting, m: Memo, m1: Memo, counts: seq<nat>, blocks: map<nat, Node>, b: nat, d: nat,
                                     leafMax: nat, isRoot: bool, krs: seq<KeyRange>, i: nat)
    requires d > 0 && Walkable(g, counts, blocks, b, d, leafMax, isRoot) && Sane(c) && |m1.counts| == g.nrBlocks
    requires b in g.blocks && b in blocks && AllUnseen(m, BelowAll(blocks, blocks[b].entries, d - 1)) && i <= |blocks[b].entries|
    requires |krs| == |blocks[b].entries| == |g.blocks[b].vals| && Kids(g.blocks[b].vals, blocks[b].entries)
    requires RangesFit(krs, blocks, blocks[b].entries, d - 1) && SameBut(m, m1, Members(g.blocks[b].vals))
    ensures Shown(g, c, m1, blocks, blocks[b].entries, d - 1, g.blocks[b].vals, krs, i)
    decreases d - 1, 2, i
  {
    hide *;
    var es, vals := blocks[b].entries, g.blocks[b].vals;
    if i == 0 {
      NoneShown(g, c, m1, blocks, es, d - 1, vals, krs);
    } else {
      var k := i - 1;
      EachWalks(g, c, m, m1, counts, blocks, b, d, leafMax, isRoot, krs, k);
      var m' := EachWalk(g, c, m1, vals[..k], krs[..k], true).0;
      ShownSo(g, c, m1, blocks, es, d - 1, vals, krs, k);
      RangeFits(krs, blocks, es, d - 1, k);
      OneKid(g, c, m, m1, m', counts, blocks, b, d, leafMax, isRoot, vals, krs[k], k);
      OneMore(g, c, m1, blocks, es, d - 1, vals, krs, k);
    }
  }

  /** The first i children have been walked. */
  ghost predicate Shown(g: Graph, c: Counting, m: Memo, blocks: map<nat, Node>, es: seq<Entry>, d: nat, vals: seq<nat>,
                        krs: seq<KeyRange>, i: nat)
    requires i <= |es| == |vals| == |krs|
  {
    var (m', ok) := EachWalk(g, c, m, vals[..i], krs[..i], true);
    ok && SameBut(m, m', BelowAll(blocks, es[..i], d)) && m'.visits == m.visits + LeavesUnder(blocks, es[..i], d)
  }

  lemma {:induction false} NoneShown(g: Graph, c: Counting, m: Memo, blocks: map<nat, Node>, es: seq<Entry>, d: nat, vals: seq<nat>,
                                     krs: seq<KeyRange>)
    requires |es| == |vals| == |krs|
    ensures Shown(g, c, m, blocks, es, d, vals, krs, 0)
  {
    hide EachWalk, BelowAll, LeavesUnder, SameBut;
    EachNone(g, c, m, vals, krs, true);
    NoneOf(blocks, es, d, m);
  }

  lemma {:induction false} ShownSo(g: Graph, c: Counting, m: Memo, blocks: map<nat, Node>, es: seq<Entry>, d: nat, vals: seq<nat>,
                                   krs: seq<KeyRange>, i: nat)
    requires i <= |es| == |vals| == |krs| && Shown(g, c, m, blocks, es, d, vals, krs, i)
    ensures var m' := EachWalk(g, c, m, vals[..i], krs[..i], true).0;
            |m'.counts| == |m.counts| && SameBut(m, m', BelowAll(blocks, es[..i], d))
  {
    hide EachWalk, BelowAll, LeavesUnder;
  }

  /** One child more. */
  lemma {:induction false} OneMore(g: Graph, c: Counting, m: Memo, blocks: map<nat, Node>, es: seq<Entry>, d: nat, vals: seq<nat>,
                                   krs: seq<KeyRange>, k: nat)
    requires k < |es| == |vals| == |krs| && Shown(g, c, m, blocks, es, d, vals, krs, k) && vals[k] in g.blocks && vals[k] == Child(es[k])
    requires var m' := EachWalk(g, c, m, vals[..k], krs[..k], true).0;
             var (m2, ok) := NodeWalk(g, c, m', vals[k], krs[k], false);
             && ok && SameBut(m', m2, Below(blocks, vals[k], d) - {vals[k]})
             && m2.visits == m'.visits + LeafList(blocks, vals[k], d)
    ensures Shown(g, c, m, blocks, es, d, vals, krs, k + 1)
  {
    hide EachWalk, NodeWalk, Below, BelowAll, LeavesUnder, LeafList, SameBut;
    var m' := EachWalk(g, c, m, vals[..k], krs[..k], true).0;
    EachMore(g, c, m, vals, krs, true, k);
    LastOf(blocks, es, d, k);
    SameButBoth(m, m', NodeWalk(g, c, m', vals[k], krs[k], false).0, BelowAll(blocks, es[..k], d), Below(blocks, vals[k], d) - {vals[k]},
                BelowAll(blocks, es[..k + 1], d));
  }

  lemma {:induction false} NoneOf(blocks: map<nat, Node>, es: seq<Entry>, d: nat, m: Memo)
    ensures BelowAll(blocks, es[..0], d) == {} && LeavesUnder(blocks, es[..0], d) == [] && m.visits + [] == m.visits
    ensures SameBut(m, m, {})
  {
  }

  lemma {:induction false} LastOf(blocks: map<nat, Node>, es: seq<Entry>, d: nat, k: nat)
    requires k < |es|
    ensures BelowAll(blocks, es[..k + 1], d) == BelowAll(blocks, es[..k], d) + Below(blocks, Child(es[k]), d)
    ensures LeavesUnder(blocks, es[..k + 1], d) == LeavesUnder(blocks, es[..k], d) + LeafList(blocks, Child(es[k]), d)
  {
    assert es[..k + 1][..k] == es[..k];
  }

  lemma {:induction false} StillUnseen(m: Memo, m1: Memo, m': Memo, all: set<nat>, before: set<nat>, kids: set<nat>, mine: set<nat>, root: nat)
    requires AllUnseen(m, all) && mine <= all && SameBut(m, m1, kids) && SameBut(m1, m', before) && before !! mine
    requires forall x :: x in kids && x in mine ==> x == root
    ensures AllUnseen(m', mine - {root}) && |m'.counts| == |m1.counts| == |m.counts|
  {
  }

  lemma {:induction false} SameButBoth(m: Memo, m1: Memo, m2: Memo, a: set<nat>, b: set<nat>, c: set<nat>)
    requires SameBut(m, m1, a) && SameBut(m1, m2, b) && a <= c && b <= c
    ensures SameBut(m, m2, c)
  {
  }

  /** A fresh walker that is asked to walk what the builder made from ascending entries accepts it, and shows the
      visitor its leaves in order: they hold the entries, in order. */
  lemma {:induction false} BuiltWalks(g: Graph, c: Counting, counts: seq<nat>, blocks: map<nat, Node>, root: nat, d: nat, leafMax: nat)
    requires Walkable(g, counts, blocks, root, d, leafMax, true) && Sane(c)
    ensures var (m, ok) := RootWalk(g, c, Started(g.nrBlocks), root);
            ok && m.fails == {} && EntriesOf(blocks, m.visits) == TreeEntries(blocks, root, d)
  {
    hide NodeWalk, Walkable, RootWalk, TreeEntries, EntriesOf, LeafList, Below;
    var m := Started(g.nrBlocks);
    WalkableNode(g, counts, blocks, root, d, leafMax, true);
    WalkableTree(g, counts, blocks, root, d, leafMax);
    BelowInside(g, counts, blocks, root, d, leafMax);
    LeavesInOrder(counts, blocks, root, d);
    RootUnseen(g, c, root);
    AllStarted(g, c, root, Below(blocks, root, d));
    EverythingInside(TreeEntries(blocks, root, d));
    NodeWalks(g, c, m.(counts := Raise(c, m.counts, root)), counts, blocks, root, d, leafMax, EVERYTHING, true);
    assert [] + LeafList(blocks, root, d) == LeafList(blocks, root, d);
  }

  lemma {:induction false} WalkableTree(g: Graph, counts: seq<nat>, blocks: map<nat, Node>, b: nat, d: nat, leafMax: nat)
    requires Walkable(g, counts, blocks, b, d, leafMax, true)
    ensures Pictures(g, blocks, leafMax) && Tree(counts, blocks, b, d)
  {
  }

  lemma {:induction false} EverythingInside(es: seq<Entry>)
    ensures Inside(EVERYTHING, es)
  {
  }

  lemma {:induction false} RootUnseen(g: Graph, c: Counting, root: nat)
    requires root in g.blocks && root < g.nrBlocks && Sane(c)
    ensures var m := Started(g.nrBlocks); RootWalk(g, c, m, root) == NodeWalk(g, c, m.(counts := Raise(c, m.counts, root)), root, EVERYTHING, true)
  {
    hide NodeWalk;
  }

  lemma {:induction false} AllStarted(g: Graph, c: Counting, root: nat, bs: set<nat>)
    requires (forall b :: b in bs ==> b < g.nrBlocks) && root < g.nrBlocks
    ensures var m := Started(g.nrBlocks);
            AllUnseen(m.(counts := Raise(c, m.counts, root)), bs - {root}) && |Raise(c, m.counts, root)| == g.nrBlocks
  {
  }
}
