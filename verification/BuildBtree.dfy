/** `build_btree` and `BTreeBuilder` of src/pdata/btree_builder.rs: levels of internal nodes over built leaves. */
module BtreeBuilders {
  import opened Wrappers
  import opened SpaceMaps
  import opened Ledger
  import opened Reaches
  import opened NodeBuilders
  import opened Spares

  // calc_max_entries::<u64>(): (4096 - 32) / 16, rounded down to a multiple of three.
  const INTERNAL_MAX: nat := 252

  const INTERNAL := Config(false, INTERNAL_MAX, false)

  function MaxAt(leafMax: nat, d: nat): nat {
    if d == 0 then leafMax else INTERNAL_MAX
  }

  function Child(e: Entry): nat {
    match e.val
    case Loc(l) => l
    case Mapped(b, _) => b
  }

  /** The in-order entries of the tree of depth d below block b. */
  ghost function TreeEntries(blocks: map<nat, Node>, b: nat, d: nat): seq<Entry>
    decreases d, 0
  {
    if d == 0 then EntriesAt(blocks, b) else Under(blocks, EntriesAt(blocks, b), d - 1)
  }

  /** The in-order entries below a list of child pointers. */
  ghost function Under(blocks: map<nat, Node>, es: seq<Entry>, d: nat): seq<Entry>
    decreases d, 1 + |es|
  {
    if es == [] then [] else TreeEntries(blocks, Child(es[0]), d) + Under(blocks, es[1..], d)
  }

  /** A tree of blocks in use with all leaves at depth d, whose separator keys are the first keys below them. */
  ghost predicate Tree(counts: seq<nat>, blocks: map<nat, Node>, b: nat, d: nat)
    decreases d
  {
    && b < |counts| && counts[b] > 0 && b in blocks
    && (blocks[b].leaf <==> d == 0)
    && (d > 0 ==>
          && blocks[b].entries != [] && AllLoc(blocks[b].entries)
          && forall i :: 0 <= i < |blocks[b].entries| ==>
               && Tree(counts, blocks, Child(blocks[b].entries[i]), d - 1)
               && blocks[b].entries[i].key == FirstKey(TreeEntries(blocks, Child(blocks[b].entries[i]), d - 1)))
  }

  /** Every node passes the strict checks of `unpack_node_raw`: no more than max entries, keys in order and,
      unless it is the root, no fewer than a third of max. */
  ghost predicate Strict(blocks: map<nat, Node>, b: nat, d: nat, leafMax: nat, isRoot: bool)
    decreases d
  {
    var es := EntriesAt(blocks, b);
    && |es| <= MaxAt(leafMax, d) && StrictlyAscending(es)
    && (isRoot || |es| >= MaxAt(leafMax, d) / 3)
    && (d > 0 ==> forall i :: 0 <= i < |es| ==> Strict(blocks, Child(es[i]), d - 1, leafMax, false))
  }

  /** Everything in use stays in use and keeps its contents. */
  ghost predicate Preserves(counts: seq<nat>, blocks: map<nat, Node>, counts': seq<nat>, blocks': map<nat, Node>) {
    && |counts| == |counts'|
    && forall b :: 0 <= b < |counts| && counts[b] > 0 ==>
         counts'[b] > 0 && (b in blocks <==> b in blocks') && (b in blocks ==> blocks[b] == blocks'[b])
  }

  lemma {:induction false} TreeFrame(counts: seq<nat>, blocks: map<nat, Node>,
                                     counts': seq<nat>, blocks': map<nat, Node>, b: nat, d: nat)
    requires Tree(counts, blocks, b, d) && Preserves(counts, blocks, counts', blocks')
    ensures Tree(counts', blocks', b, d) && TreeEntries(blocks', b, d) == TreeEntries(blocks, b, d)
    decreases d, 0
  {
    if d > 0 {
      var es := blocks[b].entries;
      forall i | 0 <= i < |es|
        ensures Tree(counts', blocks', Child(es[i]), d - 1)
        ensures TreeEntries(blocks', Child(es[i]), d - 1) == TreeEntries(blocks, Child(es[i]), d - 1)
      {
        TreeFrame(counts, blocks, counts', blocks', Child(es[i]), d - 1);
      }
      UnderSame(blocks, blocks', es, d - 1);
    }
  }

  lemma {:induction false} UnderSame(blocks: map<nat, Node>, blocks': map<nat, Node>, es: seq<Entry>, d: nat)
    requires forall i :: 0 <= i < |es| ==> TreeEntries(blocks', Child(es[i]), d) == TreeEntries(blocks, Child(es[i]), d)
    ensures Under(blocks', es, d) == Under(blocks, es, d)
    decreases d, |es|
  {
    if es != [] {
      UnderSame(blocks, blocks', es[1..], d);
    }
  }

  lemma {:induction false} StrictFrame(counts: seq<nat>, blocks: map<nat, Node>, counts': seq<nat>,
                                       blocks': map<nat, Node>, b: nat, d: nat, leafMax: nat, isRoot: bool)
    requires Tree(counts, blocks, b, d) && Preserves(counts, blocks, counts', blocks')
    requires Strict(blocks, b, d, leafMax, isRoot)
    ensures Strict(blocks', b, d, leafMax, isRoot)
    decreases d
  {
    if d > 0 {
      var es := blocks[b].entries;
      forall i | 0 <= i < |es| ensures Strict(blocks', Child(es[i]), d - 1, leafMax, false) {
        StrictFrame(counts, blocks, counts', blocks', Child(es[i]), d - 1, leafMax, false);
      }
    }
  }

  lemma {:induction false} UnderConcat(blocks: map<nat, Node>, a: seq<Entry>, b: seq<Entry>, d: nat)
    ensures Under(blocks, a + b, d) == Under(blocks, a, d) + Under(blocks, b, d)
    decreases |a|
  {
    if a == [] {
      assert a + b == b;
    } else {
      assert (a + b)[1..] == a[1..] + b;
      UnderConcat(blocks, a[1..], b, d);
    }
  }

  lemma {:induction false} UnderOne(blocks: map<nat, Node>, e: Entry, d: nat)
    ensures Under(blocks, [e], d) == TreeEntries(blocks, Child(e), d)
  {
    assert [e][1..] == [];
    assert Under(blocks, [e][1..], d) == [];
  }

  /** The nodes of one level lead to exactly what their entries lead to on the level below. */
  lemma {:induction false} LevelDown(blocks: map<nat, Node>, nodes: seq<Summary>, d: nat)
    ensures Under(blocks, Refs(nodes), d + 1) == Under(blocks, Flat(blocks, nodes), d)
  {
    if nodes == [] {
      assert Refs(nodes) == [];
    } else {
      var k := |nodes| - 1;
      var e := Entry(nodes[k].key, Loc(nodes[k].block));
      assert Refs(nodes) == Refs(nodes[..k]) + [e];
      UnderConcat(blocks, Refs(nodes[..k]), [e], d + 1);
      UnderOne(blocks, e, d + 1);
      LevelDown(blocks, nodes[..k], d);
      UnderConcat(blocks, Flat(blocks, nodes[..k]), EntriesAt(blocks, nodes[k].block), d);
    }
  }

  lemma {:induction false} LeafLevel(blocks: map<nat, Node>, nodes: seq<Summary>)
    ensures Under(blocks, Refs(nodes), 0) == Flat(blocks, nodes)
  {
    if nodes == [] {
      assert Refs(nodes) == [];
    } else {
      var k := |nodes| - 1;
      var e := Entry(nodes[k].key, Loc(nodes[k].block));
      assert Refs(nodes) == Refs(nodes[..k]) + [e];
      UnderConcat(blocks, Refs(nodes[..k]), [e], 0);
      UnderOne(blocks, e, 0);
      LeafLevel(blocks, nodes[..k]);
    }
  }

  lemma {:induction false} FlatLength(blocks: map<nat, Node>, nodes: seq<Summary>)
    requires forall i :: 0 <= i < |nodes| ==> |EntriesAt(blocks, nodes[i].block)| >= 2
    ensures |Flat(blocks, nodes)| >= 2 * |nodes|
  {
    if nodes != [] {
      FlatLength(blocks, nodes[..|nodes| - 1]);
    }
  }

  /** A finished level: its nodes head trees of depth d and their summaries give the first keys below them. */
  ghost predicate Level(counts: seq<nat>, blocks: map<nat, Node>, nodes: seq<Summary>, d: nat) {
    forall i :: 0 <= i < |nodes| ==>
      && Tree(counts, blocks, nodes[i].block, d)
      && nodes[i].key == FirstKey(TreeEntries(blocks, nodes[i].block, d))
      && nodes[i].nrEntries == |EntriesAt(blocks, nodes[i].block)|
      && (|nodes| > 1 ==> TreeEntries(blocks, nodes[i].block, d) != [])
  }

  ghost predicate StrictLevel(blocks: map<nat, Node>, nodes: seq<Summary>, d: nat, leafMax: nat) {
    forall i :: 0 <= i < |nodes| ==> Strict(blocks, nodes[i].block, d, leafMax, |nodes| == 1)
  }

  lemma {:induction false} LevelFrame(counts: seq<nat>, blocks: map<nat, Node>, counts': seq<nat>, blocks': map<nat, Node>,
                   nodes: seq<Summary>, d: nat, leafMax: nat)
    requires Level(counts, blocks, nodes, d) && Preserves(counts, blocks, counts', blocks')
    ensures Level(counts', blocks', nodes, d)
    ensures Under(blocks', Refs(nodes), d) == Under(blocks, Refs(nodes), d)
    ensures StrictLevel(blocks, nodes, d, leafMax) ==> StrictLevel(blocks', nodes, d, leafMax)
  {
    forall i | 0 <= i < |nodes|
      ensures Tree(counts', blocks', nodes[i].block, d)
      ensures TreeEntries(blocks', nodes[i].block, d) == TreeEntries(blocks, nodes[i].block, d)
      ensures StrictLevel(blocks, nodes, d, leafMax) ==> Strict(blocks', nodes[i].block, d, leafMax, |nodes| == 1)
    {
      TreeFrame(counts, blocks, counts', blocks', nodes[i].block, d);
      if StrictLevel(blocks, nodes, d, leafMax) {
        StrictFrame(counts, blocks, counts', blocks', nodes[i].block, d, leafMax, |nodes| == 1);
      }
    }
    UnderSame(blocks, blocks', Refs(nodes), d);
  }

  /** Nodes holding pointers to the nodes of a finished level form the next one. */
  lemma {:induction false} NextLevel(counts: seq<nat>, blocks: map<nat, Node>, nodes: seq<Summary>, d: nat, r: seq<Summary>)
    requires Level(counts, blocks, nodes, d) && |nodes| > 1
    requires Flat(blocks, r) == Refs(nodes) && WellFilled(r, INTERNAL_MAX)
    requires forall i :: 0 <= i < |r| ==> Describes(counts, blocks, false, INTERNAL_MAX, r[i])
    ensures Level(counts, blocks, r, d + 1) && |r| < |nodes|
  {
    NodeSizes(counts, blocks, nodes, r);
    forall i | 0 <= i < |r|
      ensures Tree(counts, blocks, r[i].block, d + 1)
      ensures r[i].key == FirstKey(TreeEntries(blocks, r[i].block, d + 1))
      ensures TreeEntries(blocks, r[i].block, d + 1) != []
    {
      NextTree(counts, blocks, nodes, d, r, i);
    }
  }

  lemma {:induction false} NodeSizes(counts: seq<nat>, blocks: map<nat, Node>, nodes: seq<Summary>, r: seq<Summary>)
    requires |nodes| > 1 && Flat(blocks, r) == Refs(nodes) && WellFilled(r, INTERNAL_MAX)
    requires forall i :: 0 <= i < |r| ==> Describes(counts, blocks, false, INTERNAL_MAX, r[i])
    ensures forall i :: 0 <= i < |r| ==> |EntriesAt(blocks, r[i].block)| == r[i].nrEntries >= 2
    ensures |r| < |nodes|
  {
    if |r| == 1 {
      assert r[..0] == [];
      assert Flat(blocks, r) == Flat(blocks, r[..0]) + EntriesAt(blocks, r[0].block);
      assert EntriesAt(blocks, r[0].block) == Refs(nodes);
    }
    FlatLength(blocks, r);
  }

  lemma {:induction false} NextTree(counts: seq<nat>, blocks: map<nat, Node>, nodes: seq<Summary>, d: nat, r: seq<Summary>, i: nat)
    requires Level(counts, blocks, nodes, d) && |nodes| > 1
    requires Flat(blocks, r) == Refs(nodes) && i < |r| && |EntriesAt(blocks, r[i].block)| >= 2
    requires Describes(counts, blocks, false, INTERNAL_MAX, r[i])
    ensures Tree(counts, blocks, r[i].block, d + 1)
    ensures r[i].key == FirstKey(TreeEntries(blocks, r[i].block, d + 1))
    ensures TreeEntries(blocks, r[i].block, d + 1) != []
  {
    var es := blocks[r[i].block].entries;
    var at := FlatAt(blocks, r, i);
    forall j | 0 <= j < |es| ensures es[j] == Entry(nodes[at + j].key, Loc(nodes[at + j].block)) {
      assert es[j] == Refs(nodes)[at..at + |es|][j];
    }
    assert Under(blocks, es, d) == TreeEntries(blocks, nodes[at].block, d) + Under(blocks, es[1..], d);
  }

  lemma {:induction false} NextStrict(counts: seq<nat>, blocks: map<nat, Node>, nodes: seq<Summary>, d: nat, r: seq<Summary>, leafMax: nat)
    requires |nodes| > 1 && StrictLevel(blocks, nodes, d, leafMax) && StrictlyAscending(Refs(nodes))
    requires Flat(blocks, r) == Refs(nodes) && WellFilled(r, INTERNAL_MAX)
    requires forall i :: 0 <= i < |r| ==> Describes(counts, blocks, false, INTERNAL_MAX, r[i])
    ensures StrictLevel(blocks, r, d + 1, leafMax)
  {
    forall i | 0 <= i < |r| ensures Strict(blocks, r[i].block, d + 1, leafMax, |r| == 1) {
      NextStrictAt(counts, blocks, nodes, d, r, leafMax, i);
    }
  }

  lemma {:induction false} NextStrictAt(counts: seq<nat>, blocks: map<nat, Node>, nodes: seq<Summary>, d: nat, r: seq<Summary>,
                     leafMax: nat, i: nat)
    requires |nodes| > 1 && StrictLevel(blocks, nodes, d, leafMax) && StrictlyAscending(Refs(nodes))
    requires Flat(blocks, r) == Refs(nodes) && WellFilled(r, INTERNAL_MAX) && i < |r|
    requires Describes(counts, blocks, false, INTERNAL_MAX, r[i])
    ensures Strict(blocks, r[i].block, d + 1, leafMax, |r| == 1)
  {
    hide Strict;
    var es := blocks[r[i].block].entries;
    var at := FlatAt(blocks, r, i);
    forall j | 0 <= j < |es| ensures Strict(blocks, Child(es[j]), d, leafMax, false) {
      assert es[j] == Refs(nodes)[at..at + |es|][j] == Entry(nodes[at + j].key, Loc(nodes[at + j].block));
      assert Strict(blocks, nodes[at + j].block, d, leafMax, |nodes| == 1);
    }
    assert Refs(nodes)[at..at + |es|] == es;
    AscendingSlice(Refs(nodes), at, at + |es|);
    StrictParent(blocks, r[i].block, d, leafMax, |r| == 1);
  }

  lemma StrictParent(blocks: map<nat, Node>, b: nat, d: nat, leafMax: nat, isRoot: bool)
    requires var es := EntriesAt(blocks, b);
             StrictlyAscending(es) && |es| <= INTERNAL_MAX && (isRoot || |es| >= INTERNAL_MAX / 3)
             && forall i :: 0 <= i < |es| ==> Strict(blocks, Child(es[i]), d, leafMax, false)
    ensures Strict(blocks, b, d + 1, leafMax, isRoot)
  {
  }

  lemma AscendingSlice(es: seq<Entry>, lo: nat, hi: nat)
    requires StrictlyAscending(es) && lo <= hi <= |es|
    ensures StrictlyAscending(es[lo..hi])
  {
  }

  lemma PreservesTrans(counts0: seq<nat>, blocks0: map<nat, Node>, counts1: seq<nat>, blocks1: map<nat, Node>,
                       counts2: seq<nat>, blocks2: map<nat, Node>)
    requires Preserves(counts0, blocks0, counts1, blocks1) && Preserves(counts1, blocks1, counts2, blocks2)
    ensures Preserves(counts0, blocks0, counts2, blocks2)
  {
  }

  /** Whoever built a level, with all references held counted, made no circle. */
  lemma {:induction false} LevelGrounded(s0: State, s: State, es: seq<Entry>)
    requires Grounds(s0, s) && s.values == [] && Covers(s0.counts, s0.data, s0.blocks, es) && Ranked(s0.counts, s0.blocks)
    requires forall t :: Balance(s.counts, s.data, s.blocks, t) - Occ(Refs(s.nodes), t)
                         == Balance(s0.counts, s0.data, s0.blocks, t) - Occ(es, t)
    ensures Ranked(s.counts, s.blocks) && Covers(s.counts, s.data, s.blocks, Refs(s.nodes))
  {
    hide Ranked, Balance;
    forall t ensures s.Outside(t) >= 0 && Balance(s.counts, s.data, s.blocks, t) >= Occ(Refs(s.nodes), t) {
      assert Balance(s0.counts, s0.data, s0.blocks, t) >= Occ(es, t);
    }
  }

  lemma {:induction false} StepGrounds(c: Config, s: State, s': State)
    requires Undisturbed(c, s, s')
    ensures Grounds(s, s')
  {
  }

  /** One level of internal nodes.  The references the caller held to `nodes` end up in the new nodes. */
  method BuildLevel(w: Batcher, data: SpaceMap, nodes: seq<Summary>, ghost d: nat)
    returns (r: Option<seq<Summary>>)
    requires w.sm.Valid() && data.Valid() && w.sm != data
    requires |nodes| > 1 && Level(w.sm.counts, w.blocks, nodes, d)
    modifies w, w.sm, data
    ensures r.Some? ==> w.sm.Valid() && data.Valid()
    ensures r.Some? ==> Preserves(old(w.sm.counts), old(w.blocks), w.sm.counts, w.blocks)
    ensures r.Some? ==> Flat(w.blocks, r.value) == Refs(nodes) && StrictlyAscending(Refs(nodes))
    ensures r.Some? ==> WellFilled(r.value, INTERNAL_MAX)
                        && forall i :: 0 <= i < |r.value| ==> Describes(w.sm.counts, w.blocks, false, INTERNAL_MAX, r.value[i])
    ensures r.Some? ==> forall t :: Balance(w.sm.counts, data.counts, w.blocks, t) - Occ(Refs(r.value), t)
                                    == old(Balance(w.sm.counts, data.counts, w.blocks, t)) - Occ(Refs(nodes), t)
    ensures r.Some? && old(Covers(w.sm.counts, data.counts, w.blocks, Refs(nodes)) && Ranked(w.sm.counts, w.blocks))
            ==> Covers(w.sm.counts, data.counts, w.blocks, Refs(r.value)) && Ranked(w.sm.counts, w.blocks)
    ensures |data.counts| == old(|data.counts|)
    ensures r.Some? ==> Head(w.sm.counts, data.counts) >= old(Head(w.sm.counts, data.counts))
    ensures r.Some? ==> Free(w.sm.counts) == old(Free(w.sm.counts)) - |r.value| && |r.value| <= Parents(|nodes|)
    ensures StrictlyAscending(Refs(nodes)) && old(Free(w.sm.counts)) >= Nodes(INTERNAL_MAX / 2, |nodes|) + 3 ==> r.Some?
  {
    hide Free, Head, Nodes, Parents, State.AllOwned, State.Smooth, Undisturbed, State.Inv, State.Contents, State.Outside, SameOutside,
         Balance, StrictlyAscending, Occ, Describes, Flat, Ranked, Covers, Grounds;
    var builder := new NodeBuilder(INTERNAL, w, data);
    ghost var s0 := builder.S();
    EmptyBuilder(s0);
    NoneOwn(INTERNAL, s0);
    EnoughAtFirst(INTERNAL, s0, |nodes|);
    var ok := PushRefs(builder, Refs(nodes));
    if !ok {
      return None;
    }
    ghost var s := builder.S();
    IsSmooth(INTERNAL, s);
    if s0.Free() >= Nodes(INTERNAL_MAX / 2, |nodes|) + 3 {
      EnoughFor(INTERNAL, s0, s, |nodes|);
    }
    r := builder.Complete();
    if r.Some? {
      UndisturbedTrans(INTERNAL, s0, s, builder.S());
      FreshBuilderPreserves(s0, builder.S());
      OwnAll(INTERNAL, builder.S());
      ParentsFew(builder.S(), r.value, |nodes|);
      CompletedLevel(s0, s, builder.S(), nodes);
      StepGrounds(INTERNAL, s0, builder.S());
      if Covers(s0.counts, s0.data, s0.blocks, Refs(nodes)) && Ranked(s0.counts, s0.blocks) {
        LevelGrounded(s0, builder.S(), Refs(nodes));
      }
    }
  }

  /** The loop that pushes a reference for every node below, or for every device.  It fails on keys out of order. */
  method PushRefs(b: NodeBuilder, es: seq<Entry>) returns (ok: bool)
    requires b.Valid() && b.nodes == [] && b.values == [] && b.lastKey == None && AllLoc(es) && !b.c.shared
    modifies b, b.w, b.w.sm, b.data
    ensures ok ==> b.Valid() && Undisturbed(b.c, old(b.S()), b.S()) && b.S().AllOwned(b.c)
    ensures ok ==> b.S().Contents() == es && StrictlyAscending(es)
    ensures ok ==> forall t :: b.S().Outside(t) == old(b.S()).Outside(t) - Occ(es, t)
    ensures |b.data.counts| == old(|b.data.counts|)
    ensures ok ==> b.S().Head() >= old(b.S().Head()) && b.S().Blocks(b.c) == old(b.S().Blocks(b.c))
    ensures StrictlyAscending(es) && old(b.S().Enough(b.c, |es|)) ==> ok
  {
    hide State.Head, State.Blocks, State.Lone, State.Free, State.Enough, State.AllOwned, State.Smooth, Undisturbed, State.Inv,
         State.Contents, State.Outside, SameOutside, Balance, Occ;
    ghost var s0 := b.S();
    StepRefl(b.c, s0);
    EmptyBuilder(s0);
    NoneOwn(b.c, s0);
    assert forall t :: Occ(es[..0], t) == 0 by { NoRefs(); }
    for i := 0 to |es|
      invariant b.Valid() && Undisturbed(b.c, s0, b.S()) && b.S().AllOwned(b.c)
      invariant b.S().Contents() == es[..i] && StrictlyAscending(es[..i])
      invariant forall t :: b.S().Outside(t) == s0.Outside(t) - Occ(es[..i], t)
      invariant b.lastKey == if i == 0 then None else Some(es[i - 1].key)
      invariant |b.data.counts| == old(|b.data.counts|)
      invariant b.S().Head() >= s0.Head() && b.S().Blocks(b.c) == s0.Blocks(b.c)
      invariant i == 0 ==> b.nodes == [] && b.values == []
      invariant i > 0 ==> b.values != []
    {
      ghost var s := b.S();
      IsSmooth(b.c, s);
      NotLone(b.c, s);
      if s0.Enough(b.c, |es|) {
        StillEnough(b.c, s0, s, |es|, i);
      }
      ok := b.PushValue(es[i].key, es[i].val);
      if !ok {
        return;
      }
      UndisturbedTrans(b.c, s0, s, b.S());
      NextRef(es, i);
    }
    assert es[..|es|] == es;
    ok := true;
  }

  lemma {:induction false} NotLone(c: Config, s: State)
    requires s.AllOwned(c) || s.nodes == [] || s.values != []
    ensures s.Lone(c) == 0
  {
  }

  lemma {:induction false} StillEnough(c: Config, s0: State, s: State, n: nat, i: nat)
    requires s0.Enough(c, n) && s.Blocks(c) == s0.Blocks(c) && i <= n
    ensures s.Enough(c, i)
  {
    NodesGrows(c.max / 2, i, n);
  }

  /** A builder that nothing is in has only the unused blocks. */
  lemma {:induction false} NoneOwn(c: Config, s: State)
    requires s.nodes == []
    ensures s.Blocks(c) == s.Free() && s.AllOwned(c)
  {
  }

  lemma {:induction false} EnoughAtFirst(c: Config, s: State, n: nat)
    requires s.nodes == []
    ensures s.Enough(c, n) <==> s.Free() >= Nodes(c.max / 2, n) + 3
  {
  }

  lemma {:induction false} OwnAll(c: Config, s: State)
    requires s.AllOwned(c)
    ensures s.Blocks(c) == s.Free() + |s.nodes|
  {
    forall i | 0 <= i < |s.nodes| ensures c.shared || !s.nodes[i].shared {
      assert s.Owned(c, i);
    }
    AllAreOwn(c, s.nodes);
  }

  lemma {:induction false} EnoughFor(c: Config, s0: State, s: State, n: nat)
    requires s0.nodes == [] && s.Blocks(c) == s0.Blocks(c) && s0.Free() >= Nodes(c.max / 2, n) + 3
    ensures s.Enough(c, n)
  {
  }

  lemma {:induction false} AllAreOwn(c: Config, nodes: seq<Summary>)
    requires forall i :: 0 <= i < |nodes| ==> c.shared || !nodes[i].shared
    ensures OwnCount(c, nodes) == |nodes|
  {
    if nodes != [] {
      AllAreOwn(c, nodes[..|nodes| - 1]);
    }
  }

  /** The most nodes over n: at least half full each, unless it is alone. */
  function Parents(n: nat): nat {
    if Nodes(INTERNAL_MAX / 2, n) == 0 then 1 else Nodes(INTERNAL_MAX / 2, n)
  }

  lemma {:induction false} ParentsGrow(m: nat, n: nat)
    requires m <= n
    ensures Parents(m) <= Parents(n) && 126 * Parents(n) <= n + 126 && 126 * Nodes(INTERNAL_MAX / 2, n) <= n
    ensures n > 1 ==> Parents(n) < n
  {
    NodesGrows(INTERNAL_MAX / 2, m, n);
    NodesFewer(INTERNAL_MAX / 2, n);
  }

  /** Well filled nodes are few. */
  lemma {:induction false} FilledFew(blocks: map<nat, Node>, nodes: seq<Summary>)
    requires forall i :: 0 <= i < |nodes| ==> |EntriesAt(blocks, nodes[i].block)| >= INTERNAL_MAX / 2
    ensures |nodes| <= Nodes(INTERNAL_MAX / 2, |Flat(blocks, nodes)|)
  {
    if nodes != [] {
      var k := |nodes| - 1;
      FilledFew(blocks, nodes[..k]);
      NodesGrows(INTERNAL_MAX / 2, |Flat(blocks, nodes[..k])|, |Flat(blocks, nodes)| - INTERNAL_MAX / 2);
    }
  }

  /** What building all levels over n nodes takes: each has far fewer nodes than the one below. */
  function LevelsCost(n: nat): nat
    decreases n
  {
    if n <= 1 then 0
    else
      ParentsGrow(0, n);
      Parents(n) + LevelsCost(Parents(n))
  }

  lemma {:induction false} LevelsCostGrows(n: nat, m: nat)
    requires n <= m
    ensures LevelsCost(n) <= LevelsCost(m)
    decreases m
  {
    if n > 1 {
      ParentsGrow(n, m);
      LevelsCostGrows(Parents(n), Parents(m));
    }
  }

  lemma {:induction false} LevelTakes(n: nat)
    requires n > 1
    ensures LevelsCost(n) == Parents(n) + LevelsCost(Parents(n)) && Nodes(INTERNAL_MAX / 2, n) <= Parents(n) < n
  {
    ParentsGrow(0, n);
  }

  /** All levels together have fewer nodes than there are below. */
  lemma {:induction false} LevelsFew(n: nat)
    requires n >= 1
    ensures LevelsCost(n) <= n - 1
    decreases n
  {
    if n > 1 {
      ParentsGrow(0, n);
      LevelsFew(Parents(n));
    }
  }

  lemma {:induction false} LevelRefsAscend(counts: seq<nat>, blocks: map<nat, Node>, nodes: seq<Summary>, d: nat)
    requires Level(counts, blocks, nodes, d) && |nodes| > 1 && StrictlyAscending(Under(blocks, Refs(nodes), d))
    ensures StrictlyAscending(Refs(nodes))
  {
    RefsAscend(blocks, nodes, d);
  }

  lemma {:induction false} IsSmooth(c: Config, s: State)
    requires StrictlyAscending(s.Contents()) && s.AllOwned(c)
    ensures s.Smooth(c)
  {
  }

  lemma {:induction false} UnderMember(blocks: map<nat, Node>, es: seq<Entry>, d: nat, i: nat, e: Entry)
    requires i < |es| && e in TreeEntries(blocks, Child(es[i]), d)
    ensures e in Under(blocks, es, d)
    decreases |es|
  {
    if i > 0 {
      UnderMember(blocks, es[1..], d, i - 1, e);
    }
  }

  /** The separators of a level ascend if the entries below do. */
  lemma {:induction false} RefsAscend(blocks: map<nat, Node>, nodes: seq<Summary>, d: nat)
    requires forall i :: 0 <= i < |nodes| ==> TreeEntries(blocks, nodes[i].block, d) != []
                                              && nodes[i].key == FirstKey(TreeEntries(blocks, nodes[i].block, d))
    requires StrictlyAscending(Under(blocks, Refs(nodes), d))
    ensures StrictlyAscending(Refs(nodes))
    decreases |nodes|
  {
    if nodes != [] {
      var n := |nodes| - 1;
      var before, last := Refs(nodes[..n]), Entry(nodes[n].key, Loc(nodes[n].block));
      assert Refs(nodes) == before + [last];
      UnderConcat(blocks, before, [last], d);
      UnderOne(blocks, last, d);
      var p, q := Under(blocks, before, d), TreeEntries(blocks, nodes[n].block, d);
      assert forall i :: 0 <= i < |p| ==> (p + q)[i] == p[i];
      assert (p + q)[|p|] == q[0];
      RefsAscend(blocks, nodes[..n], d);
      forall i | 0 <= i < n ensures nodes[i].key < nodes[n].key {
        var e := TreeEntries(blocks, nodes[i].block, d)[0];
        UnderMember(blocks, before, d, i, e);
      }
    }
  }

  lemma NoRefs()
    ensures Refs([]) == [] && StrictlyAscending([]) && forall t :: Occ([], t) == 0
  {
  }

  /** Pushing one more reference. */
  lemma {:induction false} NextRef(es: seq<Entry>, i: nat)
    requires i < |es| && es[i].val.Loc?
    ensures es[..i + 1] == es[..i] + [es[i]]
    ensures forall t :: Occ(es[..i + 1], t) == Occ(es[..i], t) + if t == Meta(es[i].val.loc) then 1 else 0
    ensures StrictlyAscending(es[..i]) && (i > 0 ==> es[i - 1].key < es[i].key) ==> StrictlyAscending(es[..i + 1])
  {
    assert es[..i + 1] == es[..i] + [es[i]];
    forall t ensures Occ(es[..i + 1], t) == Occ(es[..i], t) + if t == Meta(es[i].val.loc) then 1 else 0 {
      OccConcat(es[..i], [es[i]], t);
      OccOne(es[i], t);
    }
    if StrictlyAscending(es[..i]) && (i > 0 ==> es[i - 1].key < es[i].key) {
      AscendingPush(es[..i], es[i]);
    }
  }

  lemma AscendingPush(es: seq<Entry>, e: Entry)
    requires StrictlyAscending(es) && (es != [] ==> es[|es| - 1].key < e.key)
    ensures StrictlyAscending(es + [e])
  {
  }

  lemma EmptyBuilder(s: State)
    requires s.values == [] && s.nodes == []
    ensures s.Contents() == [] && forall t :: s.Outside(t) == Balance(s.counts, s.data, s.blocks, t)
  {
    assert Refs(s.nodes) == [];
  }

  lemma FreshBuilderPreserves(s0: State, s: State)
    requires s0.nodes == [] && Undisturbed(INTERNAL, s0, s)
    ensures Preserves(s0.counts, s0.blocks, s.counts, s.blocks)
  {
  }

  /** A level is well filled, so it has few nodes. */
  lemma {:induction false} ParentsFew(s: State, nodes: seq<Summary>, n: nat)
    requires s.Inv(INTERNAL) && s.nodes == nodes && WellFilled(nodes, INTERNAL_MAX) && |Flat(s.blocks, nodes)| == n
    ensures |nodes| <= Parents(n)
  {
    hide State.OwnedOnce, State.PrebuiltHeld;
    if |nodes| > 1 {
      FilledFew(s.blocks, nodes);
    }
  }

  lemma CompletedLevel(s0: State, s1: State, s2: State, nodes: seq<Summary>)
    requires forall t :: s0.Outside(t) == Balance(s0.counts, s0.data, s0.blocks, t)
    requires forall t :: s1.Outside(t) == s0.Outside(t) - Occ(Refs(nodes), t)
    requires SameOutside(s1, s2) && s2.values == [] && s2.Inv(INTERNAL)
    ensures forall i :: 0 <= i < |s2.nodes| ==> Describes(s2.counts, s2.blocks, false, INTERNAL_MAX, s2.nodes[i])
    ensures forall t :: Balance(s2.counts, s2.data, s2.blocks, t) - Occ(Refs(s2.nodes), t)
                        == Balance(s0.counts, s0.data, s0.blocks, t) - Occ(Refs(nodes), t)
  {
    forall t ensures Balance(s2.counts, s2.data, s2.blocks, t) - Occ(Refs(s2.nodes), t)
                     == Balance(s0.counts, s0.data, s0.blocks, t) - Occ(Refs(nodes), t)
    {
      assert s2.Outside(t) == s1.Outside(t);
    }
  }

  lemma {:induction false} LeavesLevel(counts: seq<nat>, blocks: map<nat, Node>, leaves: seq<Summary>, leafMax: nat)
    requires leafMax >= 3 && WellFilled(leaves, leafMax)
    requires forall i :: 0 <= i < |leaves| ==> Describes(counts, blocks, true, leafMax, leaves[i])
    ensures Level(counts, blocks, leaves, 0) && Under(blocks, Refs(leaves), 0) == Flat(blocks, leaves)
    ensures StrictlyAscending(Flat(blocks, leaves)) ==> StrictLevel(blocks, leaves, 0, leafMax)
  {
    LeafLevel(blocks, leaves);
    if StrictlyAscending(Flat(blocks, leaves)) {
      forall i | 0 <= i < |leaves| ensures Strict(blocks, leaves[i].block, 0, leafMax, |leaves| == 1) {
        var at := FlatAt(blocks, leaves, i);
        AscendingSlice(Flat(blocks, leaves), at, at + |EntriesAt(blocks, leaves[i].block)|);
      }
    }
  }

  /** Builds the upper levels over a list of leaves.  The result is one tree with all leaves at the same depth,
      whose in-order entries are the leaves' entries; the caller's references to the leaves are exchanged for
      one reference to the root. */
  method BuildBtree(w: Batcher, data: SpaceMap, leaves: seq<Summary>, ghost leafMax: nat)
    returns (root: Option<nat>, ghost depth: nat)
    requires w.sm.Valid() && data.Valid() && w.sm != data
    requires leafMax >= 3 && WellFilled(leaves, leafMax)
    requires forall i :: 0 <= i < |leaves| ==> Describes(w.sm.counts, w.blocks, true, leafMax, leaves[i])
    modifies w, w.sm, data
    ensures root.Some? ==> w.sm.Valid() && data.Valid()
    ensures root.Some? ==> Preserves(old(w.sm.counts), old(w.blocks), w.sm.counts, w.blocks)
    ensures root.Some? ==> Tree(w.sm.counts, w.blocks, root.value, depth)
                           && TreeEntries(w.blocks, root.value, depth) == Flat(old(w.blocks), leaves)
    ensures root.Some? && StrictlyAscending(Flat(old(w.blocks), leaves))
            ==> Strict(w.blocks, root.value, depth, leafMax, true)
    ensures root.Some? ==>
              forall t :: Balance(w.sm.counts, data.counts, w.blocks, t)
                          == old(Balance(w.sm.counts, data.counts, w.blocks, t)) - Occ(Refs(leaves), t)
                             + if t == Meta(root.value) then 1 else 0
    ensures root.Some? && old(Covers(w.sm.counts, data.counts, w.blocks, Refs(leaves)) && Ranked(w.sm.counts, w.blocks))
            ==> Ranked(w.sm.counts, w.blocks)
    ensures |data.counts| == old(|data.counts|)
    ensures root.Some? ==> Head(w.sm.counts, data.counts) >= old(Head(w.sm.counts, data.counts))
    ensures root.Some? ==> Free(w.sm.counts) >= old(Free(w.sm.counts)) - LevelsCost(|leaves|)
    ensures StrictlyAscending(Flat(old(w.blocks), leaves)) && old(Free(w.sm.counts)) >= LevelsCost(|leaves|) + 3 ==> root.Some?
  {
    hide Free, Head, Nodes, Parents, LevelsCost, Balance, Tree, Strict, TreeEntries, Under, Flat, Describes, StrictlyAscending, Covers,
         Ranked;
    LeavesLevel(w.sm.counts, w.blocks, leaves, leafMax);
    ghost var all := Flat(w.blocks, leaves);
    ghost var strict := StrictlyAscending(all);
    ghost var counts0, blocks0, data0 := w.sm.counts, w.blocks, data.counts;
    var nodes := leaves;
    depth := 0;
    while |nodes| > 1
      invariant w.sm.Valid() && data.Valid()
      invariant WellFilled(nodes, MaxAt(leafMax, depth))
      invariant Preserves(counts0, blocks0, w.sm.counts, w.blocks)
      invariant Level(w.sm.counts, w.blocks, nodes, depth) && Under(w.blocks, Refs(nodes), depth) == all
      invariant strict ==> StrictLevel(w.blocks, nodes, depth, leafMax)
      invariant forall t :: Balance(w.sm.counts, data.counts, w.blocks, t) - Occ(Refs(nodes), t)
                            == Balance(counts0, data0, blocks0, t) - Occ(Refs(leaves), t)
      invariant Covers(counts0, data0, blocks0, Refs(leaves)) && Ranked(counts0, blocks0)
                ==> Covers(w.sm.counts, data.counts, w.blocks, Refs(nodes)) && Ranked(w.sm.counts, w.blocks)
      invariant |data.counts| == |data0|
      invariant Head(w.sm.counts, data.counts) >= Head(counts0, data0)
      invariant Free(w.sm.counts) - LevelsCost(|nodes|) >= Free(counts0) - LevelsCost(|leaves|)
      decreases |nodes|
    {
      LevelTakes(|nodes|);
      if strict {
        LevelRefsAscend(w.sm.counts, w.blocks, nodes, depth);
      }
      ghost var counts1, blocks1 := w.sm.counts, w.blocks;
      var r := BuildLevel(w, data, nodes, depth);
      if r.None? {
        return None, 0;
      }
      PreservesTrans(counts0, blocks0, counts1, blocks1, w.sm.counts, w.blocks);
      LevelFrame(counts1, blocks1, w.sm.counts, w.blocks, nodes, depth, leafMax);
      NextLevel(w.sm.counts, w.blocks, nodes, depth, r.value);
      LevelDown(w.blocks, r.value, depth);
      if strict {
        NextStrict(w.sm.counts, w.blocks, nodes, depth, r.value, leafMax);
      }
      LevelsCostGrows(|r.value|, Parents(|nodes|));
      nodes, depth := r.value, depth + 1;
    }
    assert nodes == [nodes[0]];
    assert Refs(nodes) == [Entry(nodes[0].key, Loc(nodes[0].block))];
    UnderOne(w.blocks, Refs(nodes)[0], depth);
    forall t ensures Occ(Refs(nodes), t) == if t == Meta(nodes[0].block) then 1 else 0 {
      RefsOne(nodes[0], t);
    }
    root := Some(nodes[0].block);
  }
}
