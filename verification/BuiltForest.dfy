/** What the builder makes is what the layer reader finds: src/thin/check.rs. */
module BuiltForests {
  import opened Ledger
  import opened BtreeBuilders
  import opened BuiltTrees
  import opened NodeMaps
  import LayerReaders

  ghost predicate Heads(counts: seq<nat>, blocks: map<nat, Node>, b: nat) {
    exists d: nat :: Tree(counts, blocks, b, d)
  }

  ghost function HeightOf(counts: seq<nat>, blocks: map<nat, Node>, b: nat): (d: nat)
    requires Heads(counts, blocks, b)
    ensures Tree(counts, blocks, b, d)
  {
    var d: nat :| Tree(counts, blocks, b, d);
    d
  }

  function ChildrenOf(es: seq<Entry>): seq<nat> {
    seq(|es|, i requires 0 <= i < |es| => Child(es[i]))
  }

  /** What a reader finds in a node. */
  function FoundIn(node: Node): Found {
    if node.leaf then Leaf
    else Internal(Info(seq(|node.entries|, i requires 0 <= i < |node.entries| => node.entries[i].key), ChildrenOf(node.entries)))
  }

  function PeekIn(node: Node): LayerReaders.Peek {
    if node.leaf then LayerReaders.Tip else LayerReaders.Open(ChildrenOf(node.entries))
  }

  /** All trees there are, with these to begin at. */
  ghost function ForestOf(counts: seq<nat>, blocks: map<nat, Node>, roots: seq<nat>): LayerReaders.Forest {
    LayerReaders.Forest(|counts|,
                        map b | b in blocks && Heads(counts, blocks, b) :: FoundIn(blocks[b]),
                        map b | b in blocks && Heads(counts, blocks, b) :: PeekIn(blocks[b]),
                        map b | b in blocks && Heads(counts, blocks, b) :: HeightOf(counts, blocks, b),
                        roots)
  }

  lemma {:induction false} NodeStands(counts: seq<nat>, blocks: map<nat, Node>, roots: seq<nat>, b: nat)
    requires b in blocks && Heads(counts, blocks, b)
    ensures ForestOf(counts, blocks, roots).NodeOk(b)
  {
    var d, es := HeightOf(counts, blocks, b), blocks[b].entries;
    if d > 0 {
      forall i | 0 <= i < |es|
        ensures Heads(counts, blocks, Child(es[i])) && HeightOf(counts, blocks, Child(es[i])) == d - 1
                && Child(es[i]) in blocks
      {
        var e: nat := d - 1;
        assert Tree(counts, blocks, Child(es[i]), e);
        OneHeight(counts, blocks, Child(es[i]), e, HeightOf(counts, blocks, Child(es[i])));
      }
    }
  }

  lemma {:induction false} Forms(counts: seq<nat>, blocks: map<nat, Node>, roots: seq<nat>)
    requires forall r :: r in roots ==> Heads(counts, blocks, r)
    ensures ForestOf(counts, blocks, roots).WellFormed()
  {
    hide LayerReaders.Forest.NodeOk;
    forall b | b in blocks && Heads(counts, blocks, b) ensures ForestOf(counts, blocks, roots).NodeOk(b) {
      NodeStands(counts, blocks, roots, b);
    }
  }

  /** Every tree's depth can be found. */
  lemma {:induction false} AllStand(counts: seq<nat>, blocks: map<nat, Node>, roots: seq<nat>, b: nat)
    requires (forall r :: r in roots ==> Heads(counts, blocks, r)) && b in blocks && Heads(counts, blocks, b)
    ensures var f := ForestOf(counts, blocks, roots); f.WellFormed() && b in f.nodes && f.Depth(b).Some?
    decreases HeightOf(counts, blocks, b)
  {
    Forms(counts, blocks, roots);
    var f := ForestOf(counts, blocks, roots);
    if !blocks[b].leaf {
      assert f.NodeOk(b);
      var kids := ChildrenOf(blocks[b].entries);
      assert f.peeks[b] == LayerReaders.Open(kids) && kids[0] in kids;
      AllStand(counts, blocks, roots, kids[0]);
      assert f.FirstDepth(kids, f.height[b] - 1).Some?;
    }
  }

  /** The blocks of the trees below some roots. */
  ghost predicate InOneOf(counts: seq<nat>, blocks: map<nat, Node>, roots: seq<nat>, b: nat) {
    exists r, d: nat :: r in roots && Tree(counts, blocks, r, d) && b in Below(blocks, r, d)
  }

  lemma {:induction false} KidsAre(counts: seq<nat>, blocks: map<nat, Node>, roots: seq<nat>, b: nat, d: nat)
    requires Tree(counts, blocks, b, d) && d > 0
    ensures ForestOf(counts, blocks, roots).Kids(b) == ChildrenOf(blocks[b].entries)
    ensures forall i :: 0 <= i < |blocks[b].entries| ==> Tree(counts, blocks, Child(blocks[b].entries[i]), d - 1)
  {
    assert Heads(counts, blocks, b);
  }

  lemma {:induction false} BelowSplits(blocks: map<nat, Node>, b: nat, d: nat, x: nat)
    requires x in Below(blocks, b, d) && x != b
    ensures d > 0 && b in blocks && x in BelowAll(blocks, blocks[b].entries, d - 1)
  {
  }

  lemma {:induction false} BelowIsReached(f: LayerReaders.Forest, counts: seq<nat>, blocks: map<nat, Node>, roots: seq<nat>,
                                          b: nat, d: nat, x: nat)
    requires f == ForestOf(counts, blocks, roots) && f.Reachable(b) && Tree(counts, blocks, b, d) && x in Below(blocks, b, d)
    ensures f.Reachable(x)
    decreases d, 0
  {
    hide LayerReaders.Forest.ReachedPast, ForestOf, Tree, LayerReaders.Forest.Kids, Below, BelowAll;
    if x != b {
      BelowSplits(blocks, b, d, x);
      KidsAre(counts, blocks, roots, b, d);
      var es := blocks[b].entries;
      forall i | 0 <= i < |es| ensures f.Reachable(Child(es[i])) {
        assert f.Kids(b)[i] == Child(es[i]);
        f.KidReached({}, b, Child(es[i]));
      }
      AllBelowReached(f, counts, blocks, roots, es, d - 1, x);
    }
  }

  lemma {:induction false} AllBelowReached(f: LayerReaders.Forest, counts: seq<nat>, blocks: map<nat, Node>, roots: seq<nat>,
                                           es: seq<Entry>, d: nat, x: nat)
    requires f == ForestOf(counts, blocks, roots) && x in BelowAll(blocks, es, d)
    requires forall i :: 0 <= i < |es| ==> f.Reachable(Child(es[i])) && Tree(counts, blocks, Child(es[i]), d)
    ensures f.Reachable(x)
    decreases d, 1 + |es|
  {
    hide LayerReaders.Forest.Reachable;
    var n := |es| - 1;
    if x in BelowAll(blocks, es[..n], d) {
      AllBelowReached(f, counts, blocks, roots, es[..n], d, x);
    } else {
      BelowIsReached(f, counts, blocks, roots, Child(es[n]), d, x);
    }
  }

  /** A path stays in the tree it begins in. */
  lemma {:induction false} PathStays(f: LayerReaders.Forest, counts: seq<nat>, blocks: map<nat, Node>, roots: seq<nat>, p: seq<nat>, n: nat)
    returns (h: nat)
    requires f == ForestOf(counts, blocks, roots) && f.Path(p, {}) && n < |p| && Heads(counts, blocks, p[0])
    ensures Tree(counts, blocks, p[n], h) && Below(blocks, p[n], h) <= Below(blocks, p[0], HeightOf(counts, blocks, p[0]))
    ensures p[n] in Below(blocks, p[n], h)
  {
    hide Below, BelowAll;
    if n == 0 {
      h := HeightOf(counts, blocks, p[0]);
      RootBelow(blocks, p[0], h);
    } else {
      h := PathStays(f, counts, blocks, roots, p, n - 1);
      h := ChildStays(f, counts, blocks, roots, p[n - 1], h, p[n]);
    }
  }

  lemma {:induction false} RootBelow(blocks: map<nat, Node>, b: nat, d: nat)
    ensures b in Below(blocks, b, d)
    ensures d > 0 && b in blocks ==> BelowAll(blocks, blocks[b].entries, d - 1) <= Below(blocks, b, d)
  {
  }

  lemma {:induction false} ChildStays(f: LayerReaders.Forest, counts: seq<nat>, blocks: map<nat, Node>, roots: seq<nat>, b: nat, d: nat, c: nat)
    returns (h: nat)
    requires f == ForestOf(counts, blocks, roots) && Tree(counts, blocks, b, d) && c in f.Kids(b)
    ensures Tree(counts, blocks, c, h) && Below(blocks, c, h) <= Below(blocks, b, d) && c in Below(blocks, c, h)
  {
    var es := blocks[b].entries;
    var i :| 0 <= i < |f.Kids(b)| && f.Kids(b)[i] == c;
    h := d - 1;
    RootBelow(blocks, b, d);
    ChildInBelow(blocks, es, h, i);
  }

  /** The reader reaches the blocks of the trees and no others. */
  lemma {:induction false} ReachedIsBelow(counts: seq<nat>, blocks: map<nat, Node>, roots: seq<nat>, b: nat)
    requires forall r :: r in roots ==> Heads(counts, blocks, r)
    ensures ForestOf(counts, blocks, roots).Reachable(b) <==> InOneOf(counts, blocks, roots, b)
  {
    hide Below;
    var f := ForestOf(counts, blocks, roots);
    if f.Reachable(b) {
      var p :| f.Path(p, {}) && p[|p| - 1] == b;
      var h := PathStays(f, counts, blocks, roots, p, |p| - 1);
      assert p[0] in roots && b in Below(blocks, p[0], HeightOf(counts, blocks, p[0]));
    }
    if InOneOf(counts, blocks, roots, b) {
      var r, d: nat :| r in roots && Tree(counts, blocks, r, d) && b in Below(blocks, r, d);
      AllStand(counts, blocks, roots, r);
      f.RootReached({}, r);
      BelowIsReached(f, counts, blocks, roots, r, d, b);
    }
  }

  /** Whatever the threads do: in the end the node map has every block of the built trees, each for what was
      written there, and nothing else. */
  lemma {:induction false} BuiltIsRead(counts: seq<nat>, blocks: map<nat, Node>, roots: seq<nat>, ss: seq<LayerReaders.State>)
    requires forall r :: r in roots ==> Heads(counts, blocks, r)
    requires LayerReaders.Run(ForestOf(counts, blocks, roots), ss) && ss[|ss| - 1].Terminal()
    ensures var nodes := ss[|ss| - 1].nodes;
            forall b :: (b in nodes <==> InOneOf(counts, blocks, roots, b))
                        && (b in nodes ==> b in blocks && nodes[b] == FoundIn(blocks[b]))
  {
    NoneMissed(counts, blocks, roots, ss);
    hide LayerReaders.Run, LayerReaders.State.Terminal, LayerReaders.Forest.ReachedPast, InOneOf, Heads, Tree, Below;
    var f := ForestOf(counts, blocks, roots);
    forall b ensures b in f.ReachedNodes() <==> InOneOf(counts, blocks, roots, b) {
      ReachedIsBelow(counts, blocks, roots, b);
      if InOneOf(counts, blocks, roots, b) {
        InBlocks(counts, blocks, roots, b);
      }
    }
  }

  lemma {:induction false} NoneMissed(counts: seq<nat>, blocks: map<nat, Node>, roots: seq<nat>, ss: seq<LayerReaders.State>)
    requires forall r :: r in roots ==> Heads(counts, blocks, r)
    requires LayerReaders.Run(ForestOf(counts, blocks, roots), ss) && ss[|ss| - 1].Terminal()
    ensures ss[|ss| - 1].nodes == ForestOf(counts, blocks, roots).ReachedNodes()
  {
    var f := ForestOf(counts, blocks, roots);
    LayerReaders.Outcome(f, ss);
    hide LayerReaders.Run, LayerReaders.State.Terminal, LayerReaders.Forest.ReachedPast, Heads, Tree, LayerReaders.Forest.Depth;
    forall b ensures !f.Fallen(b) {
      if b in roots {
        HeadIsWritten(counts, blocks, b);
        AllStand(counts, blocks, roots, b);
      }
    }
    assert LayerReaders.Missed(f, ss[|ss| - 1]) == {};
  }

  lemma {:induction false} HeadIsWritten(counts: seq<nat>, blocks: map<nat, Node>, b: nat)
    requires Heads(counts, blocks, b)
    ensures b in blocks
  {
  }

  /** A block of a tree heads one. */
  lemma {:induction false} InBlocks(counts: seq<nat>, blocks: map<nat, Node>, roots: seq<nat>, b: nat)
    requires InOneOf(counts, blocks, roots, b)
    ensures b in blocks && Heads(counts, blocks, b)
  {
    var r, d: nat :| r in roots && Tree(counts, blocks, r, d) && b in Below(blocks, r, d);
    BelowHeads(counts, blocks, r, d, b);
  }

  lemma {:induction false} BelowHeads(counts: seq<nat>, blocks: map<nat, Node>, b: nat, d: nat, x: nat)
    requires Tree(counts, blocks, b, d) && x in Below(blocks, b, d)
    ensures Heads(counts, blocks, x) && x in blocks
    decreases d, 0
  {
    if x != b {
      AllHead(counts, blocks, blocks[b].entries, d - 1, x);
    }
  }

  lemma {:induction false} AllHead(counts: seq<nat>, blocks: map<nat, Node>, es: seq<Entry>, d: nat, x: nat)
    requires x in BelowAll(blocks, es, d) && forall i :: 0 <= i < |es| ==> Tree(counts, blocks, Child(es[i]), d)
    ensures Heads(counts, blocks, x) && x in blocks
    decreases d, 1 + |es|
  {
    var n := |es| - 1;
    if x in BelowAll(blocks, es[..n], d) {
      AllHead(counts, blocks, es[..n], d, x);
    } else {
      BelowHeads(counts, blocks, Child(es[n]), d, x);
    }
  }
}
