/** `BTreeWalker` of src/pdata/btree_walker.rs: a depth first walk over a block graph of any shape. */
module BtreeWalkers {
  import opened Wrappers
  import opened Sequences
  import opened KeyRanges
  import opened GraphWalks

  /** A snapshot of a walk. */
  datatype Trace = Trace(seen: set<nat>, visits: seq<nat>, incs: seq<nat>, walked: seq<nat>,
                       expanded: seq<nat>, done: set<nat>, fails: set<nat>, dropped: set<nat>)
  {
    /** Blocks that were seen and have yet to be walked, or are being walked. */
    ghost function Open(): set<nat> {
      seen - done - fails - dropped
    }
  }

  /** What every part of a walk does, with or without errors: it only ever walks blocks that were not seen
      before (or were handed to it), sees only what the root reaches, and counts the children of each node it
      expands, after `extra`. */
  ghost predicate Grew(g: Graph, from: From, s: Trace, s': Trace, extra: seq<nat>, given: set<nat>) {
    && s.seen <= s'.seen && s.done <= s'.done && s.fails <= s'.fails && s.dropped <= s'.dropped
    && s.walked <= s'.walked && s.expanded <= s'.expanded
    && s'.incs == s.incs + extra + g.ChildIncs(s'.expanded[|s.expanded|..])
    && (forall i :: |s.walked| <= i < |s'.walked| ==> s'.walked[i] in given || s'.walked[i] !in s.seen)
    && (forall b :: b in s'.seen && b !in s.seen ==> g.Reaches(from, b))
    && (forall b :: b in s'.dropped && b !in s.dropped ==> g.Dropped(from.root, b))
  }

  /** What a part of a walk does when it meets no error: it finishes everything it saw and `taken`, which was
      seen before, shows each of their leaves to the visitor once and expands each of their internal nodes once. */
  ghost predicate Clean(g: Graph, from: From, s: Trace, s': Trace, taken: set<nat>) {
    && s'.seen - s'.done == s.seen - s.done - taken && s'.fails == s.fails && s'.dropped == s.dropped
    && (forall b :: b in s'.done && b !in s.done ==> g.Finished(s'.seen, from.roots, b))
    && multiset(s'.visits) == multiset(s.visits) + multiset(g.Leaves(s'.done - s.done))
    && multiset(s'.expanded) == multiset(s.expanded) + multiset(g.Internals(s'.done - s.done))
  }

  lemma {:induction false} ChildIncsConcat(g: Graph, a: seq<nat>, b: seq<nat>)
    ensures g.ChildIncs(a + b) == g.ChildIncs(a) + g.ChildIncs(b)
  {
    if a == [] {
      assert a + b == b;
    } else {
      assert (a + b)[1..] == a[1..] + b;
      ChildIncsConcat(g, a[1..], b);
    }
  }

  lemma GrewTrans(g: Graph, from: From, s0: Trace, s1: Trace, s2: Trace, extra: seq<nat>, given0: set<nat>, given1: set<nat>)
    requires Grew(g, from, s0, s1, extra, given0) && Grew(g, from, s1, s2, [], given1)
    requires forall b :: b in given1 ==> b in given0 || b !in s0.seen
    ensures Grew(g, from, s0, s2, extra, given0)
  {
    hide Graph.ChildIncs, Graph.Children, InBounds, Graph.Internals;
    var n0, n1 := |s0.expanded|, |s1.expanded|;
    assert s2.expanded[n0..] == s1.expanded[n0..] + s2.expanded[n1..];
    ChildIncsConcat(g, s1.expanded[n0..], s2.expanded[n1..]);
    forall i | |s0.walked| <= i < |s2.walked| ensures s2.walked[i] in given0 || s2.walked[i] !in s0.seen {
      if i < |s1.walked| {
        assert s2.walked[i] == s1.walked[i];
      }
    }
  }

  lemma CleanTrans(g: Graph, from: From, s0: Trace, s1: Trace, s2: Trace, taken0: set<nat>, taken1: set<nat>)
    requires Clean(g, from, s0, s1, taken0) && Clean(g, from, s1, s2, taken1)
    requires s0.done <= s1.done <= s2.done && s1.seen <= s2.seen
    ensures Clean(g, from, s0, s2, taken0 + taken1)
  {
    var a, b := s1.done - s0.done, s2.done - s1.done;
    assert s2.done - s0.done == a + b;
    assert g.Leaves(a + b) == g.Leaves(a) + g.Leaves(b);
    assert g.Internals(a + b) == g.Internals(a) + g.Internals(b);
    assert multiset(g.Leaves(a) + g.Leaves(b)) == multiset(g.Leaves(a)) + multiset(g.Leaves(b));
    assert multiset(g.Internals(a) + g.Internals(b)) == multiset(g.Internals(a)) + multiset(g.Internals(b));
  }

  lemma NoRepeatsEmpty()
    ensures NoRepeats([])
  {
  }

  lemma NoRepeatsPush(bs: seq<nat>, b: nat)
    requires NoRepeats(bs) && b !in bs
    ensures NoRepeats(bs + [b])
  {
  }

  lemma GrewRefl(g: Graph, from: From, s: Trace)
    ensures Grew(g, from, s, s, [], {})
  {
    assert s.expanded[|s.expanded|..] == [];
  }

  lemma CleanRefl(g: Graph, from: From, s: Trace)
    ensures Clean(g, from, s, s, {})
  {
    assert s.done - s.done == {};
    assert g.Leaves({}) == {} && g.Internals({}) == {};
  }

  lemma GrewGiven(g: Graph, from: From, s: Trace, s': Trace, fs: seq<nat>, i: nat)
    requires i < |fs| && Grew(g, from, s, s', [], Members(fs[..i]))
    ensures Grew(g, from, s, s', [], Members(fs[..i + 1]))
  {
    assert forall b :: b in fs[..i] ==> b in fs[..i + 1];
  }

  lemma StillUnwalked(g: Graph, from: From, s: Trace, s': Trace, fs: seq<nat>, i: nat)
    requires i < |fs| && NoRepeats(fs) && Grew(g, from, s, s', [], Members(fs[..i]))
    requires forall b :: b in fs ==> b in s.seen && b !in s.walked
    ensures fs[i] !in s'.walked && fs[i] in s'.seen && fs[i] !in Members(fs[..i])
  {
    assert fs[i] in fs;
  }

  lemma WalkedOneMore(g: Graph, from: From, s: Trace, s1: Trace, s2: Trace, fs: seq<nat>, i: nat)
    requires i < |fs| && Grew(g, from, s, s1, [], Members(fs[..i])) && Grew(g, from, s1, s2, [], {fs[i]})
    ensures Grew(g, from, s, s2, [], Members(fs[..i + 1]))
    ensures s.done <= s1.done <= s2.done && s1.seen <= s2.seen
  {
    GrewGiven(g, from, s, s1, fs, i);
    assert fs[i] in fs[..i + 1];
    GrewTrans(g, from, s, s1, s2, [], Members(fs[..i + 1]), {fs[i]});
  }

  lemma CleanFresh(g: Graph, from: From, s0: Trace, s1: Trace, s2: Trace, fs: seq<nat>)
    requires Clean(g, from, s1, s2, Members(fs))
    requires s1 == s0.(seen := s1.seen, incs := s1.incs)
    requires forall b :: b in fs <==> b in s1.seen && b !in s0.seen
    requires s0.seen <= s1.seen && s0.done <= s0.seen
    ensures Clean(g, from, s0, s2, {})
  {
  }

  lemma {:induction false} GrewWalked(g: Graph, from: From, s: Trace, b: nat)
    ensures Grew(g, from, s, s.(walked := s.walked + [b]), [], {b})
    ensures Grew(g, from, s, s.(walked := s.walked + [b], visits := s.visits + [b]), [], {b})
  {
    assert s.expanded[|s.expanded|..] == [];
  }

  /** Recording how a node ended. */
  lemma {:induction false} GrewMarked(g: Graph, from: From, s: Trace, s': Trace, given: set<nat>, b: nat)
    requires Grew(g, from, s, s', [], given)
    ensures Grew(g, from, s, s'.(done := s'.done + {b}), [], given)
    ensures Grew(g, from, s, s'.(fails := s'.fails + {b}), [], given)
    ensures g.Dropped(from.root, b) ==> Grew(g, from, s, s'.(dropped := s'.dropped + {b}), [], given)
  {
    hide Graph.ChildIncs, Graph.Dropped, Graph.Reaches;
  }

  lemma CleanLeaf(g: Graph, from: From, s: Trace, b: nat)
    requires b in s.seen && b !in s.done && g.Leaf(b) && Unpacks(g.blocks[b], g.ignoreNonFatal, b in from.roots)
    ensures Clean(g, from, s, s.(walked := s.walked + [b], visits := s.visits + [b], done := s.done + {b}), {b})
  {
    assert s.done + {b} - s.done == {b};
    assert g.Leaves({b}) == {b} && g.Internals({b}) == {};
    assert multiset(s.visits + [b]) == multiset(s.visits) + multiset{b};
    assert multiset({b}) == multiset{b};
  }

  lemma GrewInternal(g: Graph, from: From, s0: Trace, s1: Trace, s2: Trace, b: nat)
    requires b in s0.seen && g.Internal(b)
    requires s1 == s0.(walked := s0.walked + [b], expanded := s0.expanded + [b])
    requires Grew(g, from, s1, s2, g.Children(b), {})
    ensures Grew(g, from, s0, s2, [], {b})
  {
    GrewExpanded(g, s0, s1, s2, b);
    hide Graph.ChildIncs, Graph.Children, InBounds;
    forall i | |s0.walked| <= i < |s2.walked| ensures s2.walked[i] == b || s2.walked[i] !in s0.seen {
      if i == |s0.walked| {
        assert s2.walked[i] == s1.walked[i];
      }
    }
    assert s0.walked <= s2.walked by {
      assert s0.walked <= s1.walked <= s2.walked;
    }
  }

  lemma {:induction false} GrewExpanded(g: Graph, s0: Trace, s1: Trace, s2: Trace, b: nat)
    requires s1.expanded == s0.expanded + [b] <= s2.expanded
    ensures s0.expanded <= s2.expanded
    ensures var n := |s0.expanded|;
            && s2.expanded[n..] == [b] + s2.expanded[n + 1..]
            && g.ChildIncs(s2.expanded[n..]) == g.Children(b) + g.ChildIncs(s2.expanded[n + 1..])
  {
    var n := |s0.expanded|;
    assert s2.expanded[n] == s1.expanded[n] == b;
    assert s2.expanded[n..] == [b] + s2.expanded[n + 1..];
  }

  lemma GrewKeeps(g: Graph, from: From, s: Trace, s': Trace, extra: seq<nat>, given: set<nat>)
    requires Grew(g, from, s, s', extra, given)
    ensures s.done <= s'.done && s.fails <= s'.fails && s.dropped <= s'.dropped && s.seen <= s'.seen
    ensures forall b :: b in s'.dropped && b !in s.dropped ==> g.Dropped(from.root, b)
    ensures forall b :: b in s'.seen && b !in s.seen ==> g.Reaches(from, b)
    ensures forall b :: b in s.walked ==> b in s'.walked
  {
  }

  lemma CleanInternal(g: Graph, from: From, s0: Trace, s1: Trace, s2: Trace, b: nat)
    requires b in s0.seen && b !in s0.done && g.Internal(b) && Unpacks(g.blocks[b], g.ignoreNonFatal, b in from.roots)
    requires s1 == s0.(walked := s0.walked + [b], expanded := s0.expanded + [b])
    requires Clean(g, from, s1, s2, {}) && s1.done <= s2.done && s1.seen <= s2.seen
    requires forall c :: c in g.Children(b) ==> c in s2.seen
    ensures Clean(g, from, s0, s2.(done := s2.done + {b}), {b})
  {
    var more := s2.done - s0.done;
    assert s2.seen - s2.done == s1.seen - s1.done - {} == s0.seen - s0.done;
    assert b in s0.seen - s0.done;
    assert b in s2.seen - s2.done;
    assert s2.done + {b} - s0.done == more + {b};
    assert g.Leaves(more + {b}) == g.Leaves(more);
    assert g.Internals(more + {b}) == g.Internals(more) + {b};
    assert multiset(g.Internals(more) + {b}) == multiset(g.Internals(more)) + multiset{b};
    assert multiset(s0.expanded + [b]) == multiset(s0.expanded) + multiset{b};
    assert s2.seen - (s2.done + {b}) == (s2.seen - s2.done) - {b};
  }

  /** What holds of every walker between and during its walks: nothing was walked twice, everything ever walked is
      seen, each block ends in one way at most, and what is done unpacked cleanly and had its children counted. */
  ghost predicate Kept(g: Graph, s: Trace, roots: set<nat>) {
    && NoRepeats(s.walked) && (forall b :: b in s.walked ==> b in s.seen) && (forall b :: b in s.done ==> b in s.walked)
    && roots <= s.seen && s.fails <= s.seen && s.dropped <= s.seen
    && s.done !! s.fails && s.done !! s.dropped && s.fails !! s.dropped
    && forall b :: b in s.done ==> g.Finished(s.seen, roots, b)
  }

  lemma {:induction false} NotSeen(counts: seq<nat>, b: nat)
    requires b >= |counts|
    ensures b !in Seen(counts)
  {
  }

  lemma {:induction false} CountedOneMore(c: Counting, counts: seq<nat>, incs: seq<nat>, b: nat)
    requires b < |counts| && (c.UpTo? ==> c.max >= 1)
    requires forall k :: 0 <= k < |counts| ==> counts[k] == Capped(c, multiset(incs)[k])
    ensures var counts' := Raise(c, counts, b);
            && Seen(counts') == Seen(counts) + {b} && |counts'| == |counts|
            && forall k :: 0 <= k < |counts| ==> counts'[k] == Capped(c, multiset(incs + [b])[k])
    ensures OldCount(c, counts, b).Some? ==> (OldCount(c, counts, b).value == 0 <==> b !in Seen(counts))
    ensures Raise(c, counts, b)[b] > 0 && (b !in Seen(counts) ==> OldCount(c, counts, b) == Some(0))
  {
  }

  lemma {:induction false} KeptSeen(g: Graph, s: Trace, roots: set<nat>, b: nat)
    requires Kept(g, s, roots)
    ensures Kept(g, s.(seen := s.seen + {b}), roots)
    ensures b !in s.seen ==> Kept(g, s.(seen := s.seen + {b}), roots + {b})
    ensures b !in s.seen ==> s.(seen := s.seen + {b}).Open() == s.Open() + {b}
  {
  }

  lemma {:induction false} KeptWalked(g: Graph, s: Trace, roots: set<nat>, b: nat)
    requires Kept(g, s, roots) && b in s.seen && b !in s.walked
    ensures Kept(g, s.(walked := s.walked + [b]), roots) && b !in s.done
  {
    hide Graph.Finished;
  }

  lemma {:induction false} KeptMarked(g: Graph, s: Trace, roots: set<nat>, b: nat)
    requires Kept(g, s, roots) && b in s.Open()
    ensures b in s.walked && g.Finished(s.seen, roots, b) ==> Kept(g, s.(done := s.done + {b}), roots)
    ensures Kept(g, s.(fails := s.fails + {b}), roots) && Kept(g, s.(dropped := s.dropped + {b}), roots)
    ensures s.(done := s.done + {b}).Open() == s.Open() - {b}
    ensures s.(fails := s.fails + {b}).Open() == s.Open() - {b}
    ensures s.(dropped := s.dropped + {b}).Open() == s.Open() - {b}
  {
    hide Graph.Finished;
  }

  class BtreeWalker {
    const g: Graph
    const counting: Counting
    var counts: seq<nat>
    var fails: set<nat>
    var visits: seq<nat>          // the leaves the visitor was shown, in order

    ghost var incs: seq<nat>      // every increment of a block of the device
    ghost var walked: seq<nat>    // every block passed to walk_node
    ghost var expanded: seq<nat>  // every internal node whose children were counted
    ghost var done: set<nat>      // every block finished without error
    ghost var dropped: set<nat>   // every block given up without a record
    ghost var roots: set<nat>     // every block walked as a root

    /** Reads fail only where the graph has no block, and the visitor never objects. */
    const calm: bool

    ghost function S(): Trace
      reads this
    {
      Trace(Seen(counts), visits, incs, walked, expanded, done, fails, dropped)
    }

    ghost function M(): Memo
      reads this
    {
      Memo(counts, fails, visits)
    }

    ghost predicate Valid()
      reads this
    {
      && |counts| == g.nrBlocks && (counting.UpTo? ==> counting.max >= 1) && Kept(g, S(), roots)
      && forall b :: 0 <= b < |counts| ==> counts[b] == Capped(counting, multiset(incs)[b])
    }

    constructor (g: Graph, counting: Counting, calm: bool)
      requires counting.UpTo? ==> counting.max >= 1
      ensures Valid() && this.g == g && this.counting == counting && this.calm == calm
      ensures S() == Trace({}, [], [], [], [], {}, {}, {}) && roots == {}
    {
      this.g, this.counting, this.calm, counts, fails, visits := g, counting, calm, seq(g.nrBlocks, _ => 0), {}, [];
      incs, walked, expanded, done, dropped, roots := [], [], [], {}, {}, {};
    }

    /** `new_with_sm`: others have counted blocks before, and may have walked them or not. */
    constructor WithSm(g: Graph, counting: Counting, calm: bool, counts: seq<nat>, ghost incs: seq<nat>)
      requires |counts| == g.nrBlocks && (counting.UpTo? ==> counting.max >= 1)
      requires forall b :: 0 <= b < |counts| ==> counts[b] == Capped(counting, multiset(incs)[b])
      ensures Valid() && this.g == g && this.counting == counting && this.calm == calm
      ensures S() == Trace(Seen(counts), [], incs, [], [], {}, {}, Seen(counts)) && roots == {}
    {
      this.g, this.counting, this.calm, this.counts, fails, visits := g, counting, calm, counts, {}, [];
      this.incs, walked, expanded, done, dropped, roots := incs, [], [], {}, Seen(counts), {};
    }

    /** Counts one more reference and returns the old count; None is an error, which callers skip. */
    method SmInc(b: nat) returns (old_: Option<nat>)
      requires Valid()
      modifies `counts, `incs
      ensures Valid() && |counts| == g.nrBlocks
      ensures b >= |counts| ==> old_ == None && counts == old(counts) && incs == old(incs)
      ensures b < |counts| ==> incs == old(incs) + [b] && Seen(counts) == old(Seen(counts)) + {b}
      ensures b in Seen(counts) ==> b < |counts|
      ensures b < |counts| ==> counts[b] > 0 && counts == old(counts)[b := counts[b]]
      ensures old_.Some? ==> b < |counts| && (old_.value == 0 <==> b !in old(Seen(counts)))
      ensures b < |counts| && b !in old(Seen(counts)) ==> old_ == Some(0)
      ensures Unseen(counts) == old(Unseen(counts)) - if old_ == Some(0) then 1 else 0
      ensures old_ == OldCount(counting, old(counts), b) && counts == Raise(counting, old(counts), b)
    {
      hide Kept, Unseen, Seen, Capped;
      if b >= |counts| {
        assert b !in Seen(counts) by {
          NotSeen(counts, b);
        }
        return None;
      }
      var n := counts[b];
      KeptSeen(g, S(), roots, b);
      RaiseUnseen(counting, counts, b);
      CountedOneMore(counting, counts, incs, b);
      KeptOther(g, S().(seen := Seen(counts) + {b}), roots, visits, incs + [b], expanded);
      incs := incs + [b];
      if counting.UpTo? && n >= counting.max {
        return None;
      }
      counts := counts[b := if counting.Restricted? then 1 else n + 1];
      old_ := Some(n);
    }

    /** Reads blocks together; the read may fail as a whole or for any block. */
    method ReadMany(bs: seq<nat>) returns (r: Option<seq<Option<Image>>>)
      ensures r.Some? ==> |r.value| == |bs|
      ensures r.Some? ==> forall i :: 0 <= i < |bs| && r.value[i].Some? ==> bs[i] in g.blocks && r.value[i].value == g.blocks[bs[i]]
      ensures calm ==> r.Some? && forall i :: 0 <= i < |bs| ==> (r.value[i].Some? <==> bs[i] in g.blocks)
    {
      var fail: bool := *;
      if fail && !calm {
        return None;
      }
      var images: seq<Option<Image>> := [];
      for i := 0 to |bs|
        invariant |images| == i
        invariant forall j :: 0 <= j < i && images[j].Some? ==> bs[j] in g.blocks && images[j].value == g.blocks[bs[j]]
        invariant calm ==> forall j :: 0 <= j < i ==> (images[j].Some? <==> bs[j] in g.blocks)
      {
        var image := Read(bs[i]);
        images := images + [image];
      }
      r := Some(images);
    }

    method Read(b: nat) returns (r: Option<Image>)
      ensures r.Some? ==> b in g.blocks && r.value == g.blocks[b]
      ensures calm ==> (r.Some? <==> b in g.blocks)
    {
      r := if b in g.blocks then Some(g.blocks[b]) else None;
      var fail: bool := *;
      if fail && !calm {
        r := None;
      }
    }

    /** The visitor is shown a leaf, and may reject it. */
    method Visit(b: nat) returns (ok: bool)
      requires Valid()
      modifies `visits
      ensures Valid() && S() == old(S()).(visits := old(visits) + [b]) && S().Open() == old(S().Open()) && (calm ==> ok)
    {
      hide Kept;
      KeptOther(g, S(), roots, visits + [b], incs, expanded);
      visits := visits + [b];
      ok := VisitAgain(b);
    }

    /** The visitor is told of a node met again, and may object. */
    method VisitAgain(b: nat) returns (ok: bool)
      ensures calm ==> ok
    {
      ok := *;
      ok := ok || calm;
    }

    /** The first loop of `walk_nodes`: counts every child, and picks those not seen before. */
    method CountChildren(bs: seq<nat>, krs: seq<KeyRange>, ghost from: From)
      returns (errs: nat, fresh_: seq<nat>, freshKrs: seq<KeyRange>)
      requires Valid() && |krs| == |bs|
      requires forall b :: b in InBounds(bs, g.nrBlocks) && b !in Seen(counts) ==> g.Reaches(from, b)
      modifies `counts, `incs
      ensures Valid() && Grew(g, from, old(S()), S(), InBounds(bs, g.nrBlocks), {})
      ensures S() == old(S()).(seen := Seen(counts), incs := incs)
      ensures forall b :: b in InBounds(bs, g.nrBlocks) ==> b in Seen(counts)
      ensures |freshKrs| == |fresh_| && NoRepeats(fresh_)
      ensures forall b :: b in fresh_ <==> b in Seen(counts) && b !in old(Seen(counts))
      ensures Unseen(counts) == old(Unseen(counts)) - |fresh_|
      ensures calm ==> Tally(counts, errs == 0, fresh_, freshKrs) == Count(counting, old(M()), bs, krs)
    {
      hide Unseen, Graph.Reaches, Seen, BtreeWalker.Valid, NoRepeats, OldCount, Raise, Graph.Dropped, Count;
      errs, fresh_, freshKrs := 0, [], [];
      NoRepeatsEmpty();
      CountNone(counting, M(), bs, krs);
      for i := 0 to |bs|
        invariant Valid() && |fresh_| == |freshKrs|
        invariant incs == old(incs) + InBounds(bs[..i], g.nrBlocks)
        invariant forall b :: b in Seen(counts) <==> b in old(Seen(counts)) || b in InBounds(bs[..i], g.nrBlocks)
        invariant NoRepeats(fresh_) && Unseen(counts) == old(Unseen(counts)) - |fresh_|
        invariant forall b :: b in fresh_ <==> b in Seen(counts) && b !in old(Seen(counts))
        invariant calm ==> Tally(counts, errs == 0, fresh_, freshKrs) == Count(counting, old(M()), bs[..i], krs[..i])
      {
        assert bs[..i + 1] == bs[..i] + [bs[i]];
        CountMore(counting, old(M()), bs, krs, i);
        InBoundsPush(bs[..i], bs[i], g.nrBlocks);
        var rc := SmInc(bs[i]);
        if rc == Some(0) {
          NoRepeatsPush(fresh_, bs[i]);
          fresh_, freshKrs := fresh_ + [bs[i]], freshKrs + [krs[i]];
        } else if rc.Some? {
          var ok := true;
          if bs[i] !in fails {
            ok := VisitAgain(bs[i]);
          }
          if !ok || bs[i] in fails {
            errs := errs + 1;
          }
        }
      }
      assert bs[..|bs|] == bs && krs[..|krs|] == krs;
      assert expanded[|expanded|..] == [];
    }

    /** Walks the children bs of one node: counts them all first, then walks those not seen before. */
    method WalkNodes(bs: seq<nat>, krs: seq<KeyRange>, ghost from: From) returns (errs: nat)
      requires Valid() && |krs| == |bs| && from.roots == roots && from.before <= Seen(counts)
      requires forall b :: b in InBounds(bs, g.nrBlocks) && b !in Seen(counts) ==> g.Reaches(from, b)
      modifies this
      ensures Valid() && Grew(g, from, old(S()), S(), InBounds(bs, g.nrBlocks), {}) && Unseen(counts) <= old(Unseen(counts))
      ensures S().Open() == old(S().Open()) && roots == old(roots)
      ensures errs == 0 ==> Clean(g, from, old(S()), S(), {})
                            && forall b :: b in InBounds(bs, g.nrBlocks) ==> b in Seen(counts)
      ensures calm ==> (M(), errs == 0) == NodesWalk(g, counting, old(M()), bs, krs)
      decreases Unseen(counts), 0
    {
      hide NoRepeats, Seen, Unseen, Clean, Grew, Graph.Reaches, BtreeWalker.Valid, Trace.Open, Count, EachWalk, NodeWalk, Kept;
      ghost var s0 := S();
      CountsAre();
      var fs, fkrs;
      errs, fs, fkrs := CountChildren(bs, krs, from);
      ghost var s1, m1, ok1 := S(), M(), errs == 0;
      GrewKeeps(g, from, s0, s1, InBounds(bs, g.nrBlocks), {});
      CountsAre();
      Counted(g, s0, s1, fs, roots);
      EachNone(g, counting, m1, fs, fkrs, ok1);
      CleanRefl(g, from, s1);
      GrewRefl(g, from, s1);
      assert fs[..0] == [] && Members([]) == {};
      var images := ReadMany(fs);
      for i := 0 to |fs|
        invariant Valid() && Grew(g, from, s1, S(), [], Members(fs[..i])) && Unseen(counts) + |fs| <= old(Unseen(counts))
        invariant errs == 0 ==> Clean(g, from, s1, S(), Members(fs[..i]))
        invariant S().Open() == s1.Open() - Members(fs[..i]) && roots == old(roots)
        invariant calm ==> (M(), errs == 0) == EachWalk(g, counting, m1, fs[..i], fkrs[..i], ok1)
      {
        ghost var s := S();
        StillUnwalked(g, from, s1, s, fs, i);
        GrewKeeps(g, from, s1, s, [], Members(fs[..i]));
        EachMore(g, counting, m1, fs, fkrs, ok1, i);
        if images.None? || images.value[i].None? {
          errs := errs + 1;
          SetFail(fs[i]);
          GrewGiven(g, from, s1, s, fs, i);
          GrewMarked(g, from, s1, s, Members(fs[..i + 1]), fs[i]);
        } else {
          var ok := WalkNode(fs[i], fkrs[i], images.value[i].value, false, from);
          if !ok {
            errs := errs + 1;
          }
          WalkedOneMore(g, from, s1, s, S(), fs, i);
          if errs == 0 {
            CleanTrans(g, from, s1, s, S(), Members(fs[..i]), {fs[i]});
          }
        }
        assert Members(fs[..i + 1]) == Members(fs[..i]) + {fs[i]};
      }
      assert fs[..|fs|] == fs && fkrs[..|fkrs|] == fkrs;
      GrewKeeps(g, from, s1, S(), [], Members(fs));
      GrewTrans(g, from, s0, s1, S(), InBounds(bs, g.nrBlocks), {}, Members(fs));
      if errs == 0 {
        CleanFresh(g, from, s0, s1, S(), fs);
      }
    }

    method SetFail(b: nat)
      requires Valid() && b in S().Open()
      modifies `fails
      ensures Valid() && S() == old(S()).(fails := old(fails) + {b}) && S().Open() == old(S().Open()) - {b}
    {
      hide Kept, Trace.Open;
      KeptMarked(g, S(), roots, b);
      fails := fails + {b};
    }

    /** Walks one node, which has been counted but not walked. */
    method WalkNode(b: nat, kr: KeyRange, image: Image, isRoot: bool, ghost from: From) returns (ok: bool)
      requires Valid() && b in S().Open() && b !in walked && from.roots == roots && from.before <= Seen(counts)
      requires b in g.blocks && image == g.blocks[b] && g.Reaches(from, b) && (isRoot <==> b in roots)
      modifies this
      ensures Valid() && Grew(g, from, old(S()), S(), [], {b}) && Unseen(counts) <= old(Unseen(counts))
      ensures S().Open() == old(S().Open()) - {b} && roots == old(roots)
      ensures ok ==> Clean(g, from, old(S()), S(), {b})
      ensures calm ==> (M(), ok) == NodeWalk(g, counting, old(M()), b, kr, isRoot)
      decreases Unseen(counts), 1
    {
      hide Seen, Unseen, Graph.Reaches, Grew, Clean, Graph.Finished, BtreeWalker.Valid, Trace.Open, SplitKeyRanges, NodesWalk;
      ghost var s0 := S();
      IsOpen(s0, b);
      Enter(b);
      GrewWalked(g, from, s0, b);
      if !Unpacks(image, g.ignoreNonFatal, isRoot) {
        GrewMarked(g, from, s0, S(), {b}, b);
        SetFail(b);
        return false;
      }
      if image.leaf {
        ok := Visit(b);
        GrewMarked(g, from, s0, S(), {b}, b);
        if !ok {
          SetFail(b);
          return;
        }
        CleanLeaf(g, from, s0, b);
      } else {
        var krs := SplitRanges(kr, image.keys);
        if krs.None? {
          GrewMarked(g, from, s0, S(), {b}, b);
          Drop(b);
          return false;
        }
        Expand(b);
        ghost var s1 := S();
        forall c | c in InBounds(image.vals, g.nrBlocks) && c !in Seen(counts) ensures g.Reaches(from, c) {
          g.ReachesChild(from, b, c);
        }
        var errs := WalkNodes(image.vals, krs.value, from);
        ghost var s2 := S();
        ok := errs == 0;
        GrewInternal(g, from, s0, s1, s2, b);
        GrewMarked(g, from, s0, s2, {b}, b);
        if !ok {
          SetFail(b);
          return;
        }
        GrewKeeps(g, from, s1, s2, g.Children(b), {});
        CleanInternal(g, from, s0, s1, s2, b);
      }
      Finish(b);
    }

    ghost method Enter(b: nat)
      requires Valid() && b in S().Open() && b !in walked
      modifies `walked
      ensures Valid() && S() == old(S()).(walked := old(walked) + [b]) && b !in done && S().Open() == old(S().Open())
    {
      hide Kept;
      KeptWalked(g, S(), roots, b);
      walked := walked + [b];
    }

    ghost method Expand(b: nat)
      requires Valid()
      modifies `expanded
      ensures Valid() && S() == old(S()).(expanded := old(expanded) + [b]) && S().Open() == old(S().Open())
    {
      expanded := expanded + [b];
    }

    ghost method Drop(b: nat)
      requires Valid() && b in S().Open()
      modifies `dropped
      ensures Valid() && S() == old(S()).(dropped := old(dropped) + {b}) && S().Open() == old(S().Open()) - {b}
    {
      hide Kept, Trace.Open;
      KeptMarked(g, S(), roots, b);
      dropped := dropped + {b};
    }

    ghost method Finish(b: nat)
      requires Valid() && b in walked && b in S().Open() && g.Finished(Seen(counts), roots, b)
      modifies `done
      ensures Valid() && S() == old(S()).(done := old(done) + {b}) && S().Open() == old(S().Open()) - {b}
    {
      hide Kept, Trace.Open;
      KeptMarked(g, S(), roots, b);
      done := done + {b};
    }

    /** Walks the tree, or whatever graph, below root, whatever has been walked before.  The walk always ends, and no
        block is ever walked twice (Valid).
        A root seen before is not walked: it is accepted unless it is recorded as failed or the visitor objects.
        If any other root is accepted then exactly the blocks that it reaches without passing one seen before have
        been added; they all unpacked cleanly, each leaf of them was shown to the visitor once, and each count rose
        by the pointers to the block from the internal nodes of them, plus one for the root, as far as the map can
        count.
        All that an accepted root reaches is then finished if and only if what was seen of it before had been. */
    method Walk(root: nat) returns (ok: bool)
      requires Valid()
      modifies this
      ensures Valid() && S().Open() == old(S().Open()) && roots <= old(roots) + {root}
      ensures old(done) <= done && old(fails) <= fails && old(dropped) <= dropped
      ensures forall b :: b in dropped && b !in old(dropped) ==> g.Dropped(root, b)
      ensures root in old(Seen(counts)) ==> S() == old(S()).(incs := incs) && incs == old(incs) + [root] && (ok ==> root !in fails)
      ensures root !in old(Seen(counts)) && ok ==> WalkedOn(g, old(S()), S(), root, roots)
      ensures root !in old(Seen(counts)) && ok ==> AllSound(g, Seen(counts) - old(Seen(counts)), root)
      ensures ok ==> (AllDone(g, root, done) <==> SeenDone(g, root, old(S())))
      ensures old(Seen(counts)) == {} && old(incs) == [] && old(expanded) == [] && old(visits) == [] && ok
              ==> WalkedAll(g, counting, counts, visits, expanded, root)
      ensures calm ==> (M(), ok) == RootWalk(g, counting, old(M()), root)
    {
      hide Seen, Unseen, Graph.Reaches, Grew, Clean, BtreeWalker.Valid, Trace.Open, WalkedOn, WalkedAll, AllDone, SeenDone,
           Graph.Finished, OldCount, Raise, AllSound;
      ghost var s0, roots0 := S(), roots;
      CountsAre();
      NothingMore(g, root, s0, roots);
      var rc := SmInc(root);
      ghost var s1 := S();
      if rc.None? || rc.value > 0 {
        OpenIs(s0, s1);
        assert s0.seen + {root} == s0.seen || root !in s1.seen;
        if rc.None? {
          return false;
        }
        ok := root !in fails;
        if ok {
          ok := VisitAgain(root);
        }
        return;
      }
      Opened(g, s0, s1, roots, root);
      Enroot(root);
      var image := Read(root);
      if image.None? {
        Drop(root);
        return false;
      }
      ghost var from := From(root, s0.seen, roots);
      ReachesItself(g, from);
      ok := WalkNode(root, KeyRange(None, None), image.value, true, from);
      GrewKeeps(g, from, s1, S(), [], {root});
      if ok {
        CountsAre();
        Accepted(g, from, s0, s1, S(), roots0);
        NewSound(g, s0, S(), roots0, root);
        if s0.seen == {} && s0.incs == [] && s0.expanded == [] && s0.visits == [] {
          AllWalked(g, counting, counts, root, s0, S(), roots);
        }
      }
    }

    ghost method Enroot(root: nat)
      requires Valid() && root in Seen(counts) && root !in done
      modifies `roots
      ensures Valid() && roots == old(roots) + {root} && S() == old(S())
    {
      hide Graph.Finished;
      KeptRoot(g, S(), roots, root);
      roots := roots + {root};
    }

    lemma CountsAre()
      requires Valid()
      ensures Kept(g, S(), roots) && |counts| == g.nrBlocks && (forall b :: 0 <= b < |counts| ==> counts[b] == Capped(counting, multiset(incs)[b]))
    {
    }
  }

  lemma {:induction false} IsOpen(s: Trace, b: nat)
    requires b in s.Open()
    ensures b in s.seen && b !in s.done && b !in s.fails && b !in s.dropped
  {
  }

  /** After counting a root that had not been seen. */
  lemma {:induction false} Opened(g: Graph, s: Trace, s': Trace, roots: set<nat>, root: nat)
    requires Kept(g, s, roots) && root !in s.seen && s' == s.(seen := s.seen + {root}, incs := s'.incs)
    ensures s'.Open() == s.Open() + {root} && root !in s.Open() && root !in s.walked && root !in s.done
  {
    hide Graph.Finished;
  }

  lemma {:induction false} KeptRoot(g: Graph, s: Trace, roots: set<nat>, root: nat)
    requires Kept(g, s, roots) && root in s.seen && root !in s.done
    ensures Kept(g, s, roots + {root})
  {
  }

  lemma {:induction false} KeptOther(g: Graph, s: Trace, roots: set<nat>, visits: seq<nat>, incs: seq<nat>, expanded: seq<nat>)
    requires Kept(g, s, roots)
    ensures Kept(g, s.(visits := visits, incs := incs, expanded := expanded), roots)
  {
  }

  lemma {:induction false} Known(g: Graph, s: Trace, roots: set<nat>)
    requires Kept(g, s, roots)
    ensures forall b :: b in s.walked ==> b in s.seen
    ensures forall b :: b in s.done ==> b in s.walked
    ensures s.done <= s.seen && s.fails <= s.seen && s.dropped <= s.seen && roots <= s.seen
    ensures forall b :: b in s.done ==> g.Finished(s.seen, roots, b)
  {
    hide Graph.Finished;
  }

  lemma {:induction false} OpenIs(s: Trace, s': Trace)
    requires s'.seen == s.seen && s'.done == s.done && s'.fails == s.fails && s'.dropped == s.dropped
    ensures s'.Open() == s.Open()
  {
  }

  /** After counting the children of a node: those not seen before are open. */
  lemma {:induction false} Counted(g: Graph, s0: Trace, s1: Trace, fs: seq<nat>, roots: set<nat>)
    requires Kept(g, s0, roots) && Kept(g, s1, roots) && s0.seen <= s1.seen
    requires s1 == s0.(seen := s1.seen, incs := s1.incs)
    requires forall b :: b in fs <==> b in s1.seen && b !in s0.seen
    ensures s1.Open() == s0.Open() + Members(fs) && s0.Open() !! Members(fs)
    ensures forall b :: b in fs ==> b in s1.Open() && b !in s1.walked && b !in roots
    ensures s0.done <= s0.seen
  {
    hide Graph.Finished;
  }

  /** All that the root reaches is among `done`. */
  ghost predicate AllDone(g: Graph, root: nat, done: set<nat>) {
    forall b :: g.Reaches(From(root, {}, {}), b) ==> b in done
  }

  /** All that the root reaches and had been seen was done. */
  ghost predicate SeenDone(g: Graph, root: nat, s: Trace) {
    forall b :: g.Reaches(From(root, {}, {}), b) && b in s.seen ==> b in s.done
  }

  lemma {:induction false} AllDoneWhen(g: Graph, root: nat, s: Trace, s': Trace, roots: set<nat>)
    requires s.done <= s.seen <= s'.seen && root in s'.seen && s'.done == s.done + (s'.seen - s.seen)
    requires forall b :: b in s'.done ==> g.Finished(s'.seen, roots, b)
    ensures AllDone(g, root, s'.done) <==> SeenDone(g, root, s)
  {
    hide Graph.Finished;
    if SeenDone(g, root, s) {
      ReachesItself(g, From(root, {}, {}));
      forall b | g.Reaches(From(root, {}, {}), b) ensures b in s'.done {
        var p :| g.Path(p, {}) && p[0] == root && p[|p| - 1] == b;
        forall i | 0 <= i < |p| ensures p[i] !in s.seen - s.done {
          ReachesPart(g, root, p, i);
        }
        g.PathIsDone(s'.seen, roots, s'.done, s.seen - s.done, p);
      }
    }
  }

  lemma {:induction false} ReachesPart(g: Graph, root: nat, p: seq<nat>, i: nat)
    requires g.Path(p, {}) && p[0] == root && i < |p|
    ensures g.Reaches(From(root, {}, {}), p[i])
  {
    var q := p[..i + 1];
    assert forall k :: 0 <= k < |q| - 1 ==> g.Internal(q[k]) && q[k + 1] in g.Children(q[k]);
    assert g.Path(q, {}) && q[|q| - 1] == p[i];
  }

  /** Nothing has been added, and the root has been seen. */
  lemma {:induction false} NothingMore(g: Graph, root: nat, s: Trace, roots: set<nat>)
    requires Kept(g, s, roots)
    ensures root in s.seen ==> (AllDone(g, root, s.done) <==> SeenDone(g, root, s))
  {
    if root in s.seen {
      hide AllDone, SeenDone;
      AllDoneWhen(g, root, s, s, roots);
    }
  }

  /** What walking an accepted root adds that had not been seen. */
  ghost predicate WalkedOn(g: Graph, s: Trace, s': Trace, root: nat, roots: set<nat>) {
    && (forall b :: b in s'.seen <==> b in s.seen || g.Reaches(From(root, s.seen, roots), b))
    && s'.done == s.done + (s'.seen - s.seen) && s'.fails == s.fails && s'.dropped == s.dropped
    && (forall b :: b in s'.seen && b !in s.seen ==> g.Finished(s'.seen, roots, b))
    && multiset(s'.visits) == multiset(s.visits) + multiset(g.Leaves(s'.seen - s.seen))
    && s.expanded <= s'.expanded && s'.incs == s.incs + [root] + g.ChildIncs(s'.expanded[|s.expanded|..])
    && multiset(s'.expanded) == multiset(s.expanded) + multiset(g.Internals(s'.seen - s.seen))
  }

  /** What an accepted root adds is sound. */
  lemma {:induction false} NewSound(g: Graph, s: Trace, s': Trace, roots0: set<nat>, root: nat)
    requires Kept(g, s, roots0) && WalkedOn(g, s, s', root, roots0 + {root})
    ensures AllSound(g, s'.seen - s.seen, root)
  {
    Known(g, s, roots0);
    hide Kept, Graph.Internal, Graph.Children;
    forall b | b in s'.seen - s.seen ensures g.Finished(s'.seen, roots0 + {root}, b) && (b in roots0 + {root} <==> b == root || b in roots0) {
    }
  }

  lemma {:induction false} Accepted(g: Graph, from: From, s0: Trace, s1: Trace, s2: Trace, roots0: set<nat>)
    requires Kept(g, s0, roots0) && Kept(g, s2, from.roots)
    requires s1 == s0.(seen := s0.seen + {from.root}, incs := s0.incs + [from.root])
    requires from.root !in s0.seen && from.before == s0.seen
    requires Grew(g, from, s1, s2, [], {from.root}) && Clean(g, from, s1, s2, {from.root})
    ensures WalkedOn(g, s0, s2, from.root, from.roots)
    ensures AllDone(g, from.root, s2.done) <==> SeenDone(g, from.root, s0)
  {
    Known(g, s0, roots0);
    Known(g, s2, from.roots);
    hide Kept;
    NewIsDone(g, from, s0, s1, s2);
    AddsReached(g, from, s0, s1, s2);
    hide Grew, Clean, AllDone, SeenDone, WalkedOn;
    AllDoneWhen(g, from.root, s0, s2, from.roots);
  }

  lemma {:induction false} NewIsDone(g: Graph, from: From, s0: Trace, s1: Trace, s2: Trace)
    requires s1 == s0.(seen := s0.seen + {from.root}, incs := s1.incs) && from.root !in s0.seen
    requires s0.done <= s0.seen && s2.done <= s2.seen && s1.seen <= s2.seen && s1.done <= s2.done
    requires s2.seen - s2.done == s1.seen - s1.done - {from.root}
    ensures s2.done == s0.done + (s2.seen - s0.seen) && s2.done - s1.done == s2.seen - s0.seen
    ensures s0.done <= s0.seen <= s2.seen && from.root in s2.done
  {
    assert s1.seen - s1.done - {from.root} == s0.seen - s0.done;
    assert forall b :: b in s2.done <==> b in s2.seen && b !in s2.seen - s2.done;
  }

  lemma {:induction false} AddsReached(g: Graph, from: From, s0: Trace, s1: Trace, s2: Trace)
    requires s1 == s0.(seen := s0.seen + {from.root}, incs := s0.incs + [from.root])
    requires from.root !in s0.seen && from.before == s0.seen
    requires Grew(g, from, s1, s2, [], {from.root}) && Clean(g, from, s1, s2, {from.root})
    requires s2.done == s0.done + (s2.seen - s0.seen) && s2.done - s1.done == s2.seen - s0.seen && s2.done <= s2.seen
    requires forall b :: b in s2.done ==> g.Finished(s2.seen, from.roots, b)
    ensures WalkedOn(g, s0, s2, from.root, from.roots)
  {
    hide Graph.Finished, Graph.Reaches, Graph.ChildIncs, Graph.Leaves, Graph.Internals, Graph.Path, Graph.Dropped;
    ReachesItself(g, from);
    forall b | g.Reaches(from, b) ensures b in s2.seen {
      ReachedIsDone(g, from, s0, s2, b);
    }
  }

  lemma {:induction false} ReachedIsDone(g: Graph, from: From, s: Trace, s': Trace, b: nat)
    requires from.before == s.seen && s'.seen - s.seen <= s'.done <= s'.seen && from.root in s'.done && g.Reaches(from, b)
    requires forall b :: b in s'.done ==> g.Finished(s'.seen, from.roots, b)
    ensures b in s'.seen
  {
    hide Graph.Finished;
    var p :| g.Path(p, from.before) && p[0] == from.root && p[|p| - 1] == b;
    g.PathIsDone(s'.seen, from.roots, s'.done, s.seen, p);
  }

  /** What an error-free walk of a fresh walker leaves behind. */
  ghost predicate WalkedAll(g: Graph, counting: Counting, counts: seq<nat>, visits: seq<nat>, expanded: seq<nat>, root: nat) {
    && |counts| == g.nrBlocks
    && (forall b :: b in Seen(counts) <==> g.Reaches(From(root, {}, {root}), b))
    && (forall b :: b in Seen(counts) ==> g.Finished(Seen(counts), {root}, b))
    && multiset(visits) == multiset(g.Leaves(Seen(counts)))
    && multiset(expanded) == multiset(g.Internals(Seen(counts)))
    && (forall b :: 0 <= b < |counts| ==> counts[b] == Capped(counting, multiset([root] + g.ChildIncs(expanded))[b]))
  }

  lemma {:induction false} AllWalked(g: Graph, counting: Counting, counts: seq<nat>, root: nat, s: Trace, s': Trace, roots: set<nat>)
    requires s.seen == {} && s.visits == [] && s.expanded == [] && s.incs == [] && roots == {root}
    requires WalkedOn(g, s, s', root, roots)
    requires s'.seen == Seen(counts) && |counts| == g.nrBlocks
    requires forall b :: 0 <= b < |counts| ==> counts[b] == Capped(counting, multiset(s'.incs)[b])
    ensures WalkedAll(g, counting, counts, s'.visits, s'.expanded, root)
  {
    assert s'.expanded[0..] == s'.expanded && s'.seen - s.seen == s'.seen;
    assert [] + [root] + g.ChildIncs(s'.expanded) == [root] + g.ChildIncs(s'.expanded);
  }

  lemma {:induction false} ReachesItself(g: Graph, from: From)
    requires from.root !in from.before
    ensures g.Reaches(from, from.root)
  {
    assert g.Path([from.root], from.before);
    assert [from.root][|[from.root]| - 1] == from.root;
  }
}
