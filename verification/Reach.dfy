/** References that never lead round in a circle, and what can be reached by them. */
module Reaches {
  import opened Ledger
  import Spares

  ghost predicate Refers(es: seq<Entry>, b: nat) {
    exists i :: 0 <= i < |es| && es[i].val == Loc(b)
  }

  /** All references lead to ranks below n. */
  ghost predicate Lower(es: seq<Entry>, rank: seq<nat>, n: nat) {
    forall b :: 0 <= b < |rank| && Refers(es, b) ==> rank[b] < n
  }

  ghost predicate Descends(counts: seq<nat>, blocks: map<nat, Node>, rank: seq<nat>) {
    |rank| == |counts| && forall b :: 0 <= b < |counts| && counts[b] > 0 && b in blocks ==> Lower(blocks[b].entries, rank, rank[b])
  }

  /** No reference of a node in use leads round in a circle. */
  ghost predicate Ranked(counts: seq<nat>, blocks: map<nat, Node>) {
    exists rank: seq<nat> :: Descends(counts, blocks, rank)
  }

  lemma {:induction false} NoneRanked(counts: seq<nat>)
    ensures Ranked(counts, map[])
  {
    assert Descends(counts, map[], counts);
  }

  /** Nothing new is in use. */
  lemma {:induction false} FewerRanked(counts: seq<nat>, blocks: map<nat, Node>, counts': seq<nat>)
    requires Ranked(counts, blocks) && |counts'| == |counts| && forall b :: 0 <= b < |counts| && counts'[b] > 0 ==> counts[b] > 0
    ensures Ranked(counts', blocks)
  {
    hide Lower;
    var rank :| Descends(counts, blocks, rank);
    assert Descends(counts', blocks, rank);
  }

  lemma {:induction false} OccRefers(es: seq<Entry>, b: nat)
    ensures Refers(es, b) <==> Occ(es, Meta(b)) > 0
  {
    if Refers(es, b) {
      var i :| 0 <= i < |es| && es[i].val == Loc(b);
      OccMember(es, i, Meta(b));
    } else {
      OccAbsent(es, Meta(b));
    }
  }

  /** Without live references to a block no node in use refers to it. */
  lemma {:induction false} Unreferred(counts: seq<nat>, blocks: map<nat, Node>, b: nat, c: nat)
    requires Live(counts, blocks, Meta(b)) == 0 && c < |counts| && counts[c] > 0 && c in blocks
    ensures !Refers(blocks[c].entries, b)
  {
    LiveUpToAtLeast(counts, blocks, c, |counts|, Meta(b));
    OccRefers(blocks[c].entries, b);
  }

  /** A node is written where nothing refers to. */
  lemma {:induction false} WriteRanked(counts: seq<nat>, blocks: map<nat, Node>, b: nat, node: Node)
    requires Ranked(counts, blocks) && b < |counts| && counts[b] == 0
    requires Live(counts, blocks, Meta(b)) == 0 && !Refers(node.entries, b)
    ensures Ranked(counts[b := 1], blocks[b := node])
  {
    hide Live, Refers;
    var rank :| Descends(counts, blocks, rank);
    var rank' := rank[b := Spares.Highest(rank) + 1];
    Spares.HighestIs(rank);
    var counts', blocks' := counts[b := 1], blocks[b := node];
    forall c | 0 <= c < |counts'| && counts'[c] > 0 && c in blocks' ensures Lower(blocks'[c].entries, rank', rank'[c]) {
      if c != b {
        Unreferred(counts, blocks, b, c);
      }
    }
    assert Descends(counts', blocks', rank');
  }

  // ---- what can be reached

  /** Each block is referred to by the node in the one before. */
  ghost predicate Chain(blocks: map<nat, Node>, p: seq<nat>) {
    p != [] && forall i :: 0 <= i < |p| - 1 ==> Leads(blocks, p[i], p[i + 1])
  }

  ghost predicate Leads(blocks: map<nat, Node>, b: nat, c: nat) {
    b in blocks && Refers(blocks[b].entries, c)
  }

  ghost predicate ReachedFrom(blocks: map<nat, Node>, from: set<nat>, b: nat) {
    exists p :: Chain(blocks, p) && p[0] in from && p[|p| - 1] == b
  }

  lemma {:induction false} ReachedOn(blocks: map<nat, Node>, from: set<nat>, b: nat, c: nat)
    requires ReachedFrom(blocks, from, b) && Leads(blocks, b, c)
    ensures ReachedFrom(blocks, from, c)
  {
    hide Leads;
    var p :| Chain(blocks, p) && p[0] in from && p[|p| - 1] == b;
    var q := p + [c];
    forall i | 0 <= i < |q| - 1 ensures Leads(blocks, q[i], q[i + 1]) {
      if i < |p| - 1 {
        assert q[i] == p[i] && q[i + 1] == p[i + 1];
      }
    }
    assert Chain(blocks, q) && q[|q| - 1] == c;
  }

  /** What is live is held by a node in use. */
  lemma {:induction false} Holder(counts: seq<nat>, blocks: map<nat, Node>, n: nat, b: nat) returns (c: nat)
    requires n <= |counts| && LiveUpTo(counts, blocks, n, Meta(b)) > 0
    ensures c < n && counts[c] > 0 && Leads(blocks, c, b)
  {
    if Contrib(counts, blocks, n - 1, Meta(b)) > 0 {
      c := n - 1;
      OccRefers(blocks[c].entries, b);
    } else {
      c := Holder(counts, blocks, n - 1, b);
    }
  }

  /** Where all counted references that no node in use holds are to blocks in a set, every block in use is
      reached from that set. */
  lemma {:induction false} AllReached(counts: seq<nat>, blocks: map<nat, Node>, from: set<nat>, rank: seq<nat>, top: nat, b: nat)
    requires Descends(counts, blocks, rank) && b < |counts| && counts[b] > 0
    requires forall c :: 0 <= c < |counts| && counts[c] > 0 && c !in from ==> Live(counts, blocks, Meta(c)) > 0
    requires forall c :: 0 <= c < |rank| ==> rank[c] <= top
    ensures ReachedFrom(blocks, from, b)
    decreases top - rank[b]
  {
    if b in from {
      assert Chain(blocks, [b]) && [b][|[b]| - 1] == b;
    } else {
      var c := Holder(counts, blocks, |counts|, b);
      assert Lower(blocks[c].entries, rank, rank[c]);
      hide Lower, Leads, Live, ReachedFrom;
      AllReached(counts, blocks, from, rank, top, c);
      ReachedOn(blocks, from, c, b);
    }
  }

  /** And every block that is reached is in use, if every reference held is counted. */
  lemma {:induction false} ReachedIsUsed(counts: seq<nat>, data: seq<nat>, blocks: map<nat, Node>, from: set<nat>, p: seq<nat>, n: nat)
    requires Chain(blocks, p) && p[0] in from && n < |p|
    requires forall b :: b in from ==> b < |counts| && counts[b] > 0
    requires forall t :: Count(counts, data, t) >= Live(counts, blocks, t)
    ensures p[n] < |counts| && counts[p[n]] > 0
  {
    if n > 0 {
      ReachedIsUsed(counts, data, blocks, from, p, n - 1);
      assert Leads(blocks, p[n - 1], p[n - 1 + 1]);
      OccRefers(blocks[p[n - 1]].entries, p[n]);
      LiveUpToAtLeast(counts, blocks, p[n - 1], |counts|, Meta(p[n]));
      assert Count(counts, data, Meta(p[n])) >= 1;
    }
  }
}
