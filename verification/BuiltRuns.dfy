/** Recording the mappings of a tree that the builder made: src/thin/delta.rs. */
module BuiltRuns {
  import opened Wrappers
  import opened Ledger
  import opened NodeBuilders
  import opened BtreeBuilders
  import opened BuiltTrees
  import opened GraphWalks
  import ThinDeltas

  function Keys(es: seq<Entry>): (ks: seq<nat>)
    ensures |ks| == |es|
  {
    seq(|es|, i requires 0 <= i < |es| => es[i].key)
  }

  function Values(es: seq<Entry>): (vs: seq<nat>)
    ensures |vs| == |es|
  {
    seq(|es|, i requires 0 <= i < |es| => Child(es[i]))
  }

  function Pushed(es: seq<Entry>): seq<(nat, nat)> {
    ThinDeltas.Zip(Keys(es), Values(es))
  }

  lemma {:induction false} PushedConcat(a: seq<Entry>, b: seq<Entry>)
    ensures Pushed(a + b) == Pushed(a) + Pushed(b)
  {
  }

  /** The recorder visits some leaves: its runs stand for their entries, in order. */
  method RecordLeaves(blocks: map<nat, Node>, leaves: seq<nat>) returns (ms: seq<ThinDeltas.DataMapping>)
    ensures ThinDeltas.AllPairs(ms) == Pushed(EntriesOf(blocks, leaves)) && ThinDeltas.Maximal(ms)
  {
    hide Pushed, ThinDeltas.AllPairs, ThinDeltas.Maximal;
    var r := new ThinDeltas.MappingRecorder();
    assert ThinDeltas.AllPairs([]) == Pushed(EntriesOf(blocks, [])) by { NothingPushed(blocks); }
    assert leaves[..0] == [];
    for i := 0 to |leaves|
      invariant r.Valid() && fresh(r) && fresh(r.builder) && ThinDeltas.AllPairs(r.All()) == Pushed(EntriesOf(blocks, leaves[..i]))
    {
      var es := EntriesAt(blocks, leaves[i]);
      r.Visit(Keys(es), Values(es));
      NextLeaf(blocks, leaves, i);
    }
    assert leaves[..|leaves|] == leaves;
    ms := r.Complete();
  }

  lemma {:induction false} NothingPushed(blocks: map<nat, Node>)
    ensures ThinDeltas.AllPairs([]) == Pushed(EntriesOf(blocks, [])) == []
  {
  }

  lemma {:induction false} NextLeaf(blocks: map<nat, Node>, leaves: seq<nat>, i: nat)
    requires i < |leaves|
    ensures var es := EntriesAt(blocks, leaves[i]);
            Pushed(EntriesOf(blocks, leaves[..i + 1])) == Pushed(EntriesOf(blocks, leaves[..i])) + ThinDeltas.Zip(Keys(es), Values(es))
  {
    assert leaves[..i + 1][..i] == leaves[..i];
    PushedConcat(EntriesOf(blocks, leaves[..i]), EntriesAt(blocks, leaves[i]));
  }

  lemma {:induction false} PushedAscend(es: seq<Entry>)
    requires StrictlyAscending(es)
    ensures ThinDeltas.Ascend(Pushed(es))
  {
  }

  lemma {:induction false} PushedHas(es: seq<Entry>, x: nat, d: nat)
    ensures (x, d) in Pushed(es) <==> exists e :: e in es && e.key == x && Child(e) == d
  {
    forall e | e in es ensures (e.key, Child(e)) in Pushed(es) {
      var i :| 0 <= i < |es| && es[i] == e;
      assert Pushed(es)[i] == (e.key, Child(e));
    }
    if (x, d) in Pushed(es) {
      var i :| 0 <= i < |Pushed(es)| && Pushed(es)[i] == (x, d);
      assert es[i] in es;
    }
  }

  /** A tree built from ascending entries is walked and recorded: the runs are in order and say of each block what was
      pushed for it, and of no other block anything. */
  method RecordTree(g: Graph, c: Counting, blocks: map<nat, Node>, root: nat, ghost counts: seq<nat>, ghost d: nat, ghost leafMax: nat)
    returns (ms: seq<ThinDeltas.DataMapping>)
    requires Walkable(g, counts, blocks, root, d, leafMax, true) && Sane(c)
    ensures ThinDeltas.Sorted(ms)
    ensures forall x, v: nat :: ThinDeltas.MapsTo(ms, x, v) <==> exists e :: e in TreeEntries(blocks, root, d) && e.key == x && Child(e) == v
  {
    hide ThinDeltas.AllPairs, ThinDeltas.At, ThinDeltas.Sorted, ThinDeltas.Maximal, Pushed, EntriesOf, RootWalk;
    var (m, ok) := RootWalk(g, c, Started(g.nrBlocks), root);
    BuiltWalks(g, c, counts, blocks, root, d, leafMax);
    ms := RecordLeaves(blocks, m.visits);
    ghost var es := TreeEntries(blocks, root, d);
    assert StrictlyAscending(es);
    hide Walkable, TreeEntries;
    PushedAscend(es);
    ThinDeltas.RunsSorted(ms);
    forall x, v: nat ensures ThinDeltas.MapsTo(ms, x, v) <==> exists e :: e in es && e.key == x && Child(e) == v {
      ThinDeltas.RunsSay(ms, x, v);
      PushedHas(es, x, v);
    }
  }
}
