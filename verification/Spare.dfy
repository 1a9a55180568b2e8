/** How much room is left: unused blocks, and how far every count is from the largest. */
module Spares {
  import opened SpaceMaps
  import opened Ledger

  ghost function Free(counts: seq<nat>): nat {
    if counts == [] then 0 else Free(counts[..|counts| - 1]) + if counts[|counts| - 1] == 0 then 1 else 0
  }

  ghost function Highest(counts: seq<nat>): nat {
    if counts == [] then 0
    else
      var rest, last := Highest(counts[..|counts| - 1]), counts[|counts| - 1];
      if last > rest then last else rest
  }

  /** How far every count is from the largest there can be.  (A block taken has a count of one.) */
  ghost function Head(counts: seq<nat>, data: seq<nat>): int {
    var a, b := Highest(counts), Highest(data);
    MAX_COUNT - if a > b && a > 1 then a else if b > 1 then b else 1
  }

  lemma {:induction false} HighestIs(counts: seq<nat>)
    ensures forall i :: 0 <= i < |counts| ==> counts[i] <= Highest(counts)
    ensures counts != [] ==> exists i :: 0 <= i < |counts| && counts[i] == Highest(counts)
  {
    if counts != [] {
      var n := |counts| - 1;
      HighestIs(counts[..n]);
      if Highest(counts) == counts[n] {
        assert counts[n] == Highest(counts);
      } else {
        assert counts[..n] != [];
        var i :| 0 <= i < |counts[..n]| && counts[..n][i] == Highest(counts[..n]);
        assert counts[i] == Highest(counts);
      }
    }
  }

  lemma {:induction false} FreeSome(counts: seq<nat>)
    ensures Free(counts) > 0 <==> 0 in counts
  {
    if counts != [] {
      FreeSome(counts[..|counts| - 1]);
      assert counts == counts[..|counts| - 1] + [counts[|counts| - 1]];
    }
  }

  lemma {:induction false} FreeChange(counts: seq<nat>, b: nat, n: nat)
    requires b < |counts|
    ensures Free(counts[b := n]) == Free(counts) - (if counts[b] == 0 then 1 else 0) + if n == 0 then 1 else 0
    decreases |counts|
  {
    var k := |counts| - 1;
    if b == k {
      assert counts[b := n][..k] == counts[..k];
    } else {
      assert counts[b := n][..k] == counts[..k][b := n];
      FreeChange(counts[..k], b, n);
    }
  }

  lemma {:induction false} HeadIs(counts: seq<nat>, data: seq<nat>)
    ensures forall i :: 0 <= i < |counts| ==> counts[i] + Head(counts, data) <= MAX_COUNT
    ensures forall i :: 0 <= i < |data| ==> data[i] + Head(counts, data) <= MAX_COUNT
  {
    HighestIs(counts);
    HighestIs(data);
  }

  /** Taking an unused block brings no count nearer the largest. */
  lemma {:induction false} HeadTake(counts: seq<nat>, data: seq<nat>, b: nat)
    requires b < |counts|
    ensures Head(counts[b := 1], data) >= Head(counts, data)
  {
    HighestIs(counts);
    HighestIs(counts[b := 1]);
  }

  /** Counting a block once more costs one, and counting it once less nothing. */
  lemma {:induction false} HeadCount(counts: seq<nat>, data: seq<nat>, b: nat, n: nat)
    requires b < |counts| && n <= counts[b] + 1
    ensures Head(counts[b := n], data) >= Head(counts, data) - if n > counts[b] then 1 else 0
  {
    HighestIs(counts);
    HighestIs(counts[b := n]);
  }

  /** Counting values costs at most one for each. */
  lemma {:induction false} HeadData(counts: seq<nat>, data: seq<nat>, data': seq<nat>, n: nat)
    requires |data'| == |data| && forall d :: 0 <= d < |data| ==> data'[d] <= data[d] + n
    ensures Head(counts, data') >= Head(counts, data) - n
  {
    HighestIs(data);
    HighestIs(data');
  }

  lemma {:induction false} OccAtMost(es: seq<Entry>, t: Target)
    ensures Occ(es, t) <= |es|
  {
    if es != [] {
      OccAtMost(es[1..], t);
    }
  }

  lemma {:induction false} AllFree(counts: seq<nat>)
    requires forall i :: 0 <= i < |counts| ==> counts[i] == 0
    ensures Free(counts) == |counts| && Highest(counts) == 0
  {
    if counts != [] {
      AllFree(counts[..|counts| - 1]);
    }
  }

  /** One block of a device is in use, and no data. */
  lemma {:induction false} AtFirst(counts: seq<nat>, data: seq<nat>, b: nat)
    requires b < |counts| && (forall i :: 0 <= i < |counts| ==> counts[i] == 0) && (forall i :: 0 <= i < |data| ==> data[i] == 0)
    ensures Free(counts[b := 1]) == |counts| - 1 && Head(counts[b := 1], data) == MAX_COUNT - 1
  {
    AllFree(counts);
    AllFree(data);
    FreeChange(counts, b, 1);
    HighestIs(counts[b := 1]);
  }

  /** So many whole nodes of h entries are in n. */
  function Nodes(h: nat, n: nat): nat {
    if h == 0 || n < h then 0 else 1 + Nodes(h, n - h)
  }

  lemma {:induction false} NodesGrows(h: nat, m: nat, n: nat)
    requires m <= n
    ensures Nodes(h, m) <= Nodes(h, n)
    decreases m
  {
    if h != 0 && m >= h {
      NodesGrows(h, m - h, n - h);
    }
  }

  lemma {:induction false} NodesFewer(h: nat, n: nat)
    ensures h * Nodes(h, n) <= n
  {
    if h != 0 && n >= h {
      NodesFewer(h, n - h);
      assert h * Nodes(h, n) == h + h * Nodes(h, n - h);
    }
  }
}
