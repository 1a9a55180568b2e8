/** Moving data blocks out of the way: src/shrink/toplevel.rs. */
module Shrinks {
  import opened Wrappers
  import opened Sequences

  /** `start..end`; empty unless start is below end. */
  datatype Range = Range(start: nat, end: nat) {
    predicate IsEmpty() {
      start >= end
    }

    function Len(): nat {
      if IsEmpty() then 0 else end - start
    }

    predicate Has(b: nat) {
      start <= b < end
    }
  }

  datatype Remap = Remap(from: Range, to: nat)

  /** The blocks of a range, in order. */
  function Blocks(r: Range): (bs: seq<nat>)
    ensures |bs| == r.Len()
    ensures forall i :: 0 <= i < |bs| ==> bs[i] == r.start + i
  {
    seq(r.Len(), i requires i >= 0 => r.start + i)
  }

  function AllBlocks(rs: seq<Range>): seq<nat> {
    if rs == [] then [] else AllBlocks(rs[..|rs| - 1]) + Blocks(rs[|rs| - 1])
  }

  /** The blocks of the ranges before the first empty one: an empty range ends the list. */
  function LiveBlocks(rs: seq<Range>): seq<nat> {
    if rs == [] || rs[0].IsEmpty() then [] else Blocks(rs[0]) + LiveBlocks(rs[1..])
  }

  function Sources(remaps: seq<Remap>): seq<nat> {
    if remaps == [] then [] else Sources(remaps[..|remaps| - 1]) + Blocks(remaps[|remaps| - 1].from)
  }

  function Target(m: Remap): Range {
    Range(m.to, m.to + m.from.Len())
  }

  function Targets(remaps: seq<Remap>): (bs: seq<nat>)
    ensures |bs| == |Sources(remaps)|
  {
    if remaps == [] then [] else Targets(remaps[..|remaps| - 1]) + Blocks(Target(remaps[|remaps| - 1]))
  }

  predicate NonEmpty(remaps: seq<Remap>) {
    forall i :: 0 <= i < |remaps| ==> !remaps[i].from.IsEmpty()
  }

  lemma BlocksSplit(r: Range, b: nat)
    requires r.start <= b <= r.end
    ensures Blocks(r) == Blocks(Range(r.start, b)) + Blocks(Range(b, r.end))
  {
  }

  lemma {:induction false} Pushed(remaps: seq<Remap>, m: Remap)
    ensures Sources(remaps + [m]) == Sources(remaps) + Blocks(m.from)
    ensures Targets(remaps + [m]) == Targets(remaps) + Blocks(Target(m))
  {
    assert (remaps + [m])[..|remaps|] == remaps;
  }

  /** What is left of a list when r is what is left of its current range. */
  function Left(r: Range, rest: seq<Range>): seq<nat> {
    LiveBlocks([r] + rest)
  }

  lemma {:induction false} LeftIs(r: Range, rest: seq<Range>)
    ensures Left(r, rest) == if r.IsEmpty() then [] else Blocks(r) + LiveBlocks(rest)
  {
    assert ([r] + rest)[1..] == rest;
  }

  /** `next().unwrap_or(MAX..MAX)`. */
  method NextRange(rs: seq<Range>, i: nat) returns (r: Range, i': nat)
    requires i <= |rs|
    ensures i <= i' <= |rs| && Left(r, rs[i'..]) == LiveBlocks(rs[i..])
    ensures i' == if i < |rs| then i + 1 else i
  {
    LeftIs(Range(0, 0), rs[i..]);
    if i == |rs| {
      return Range(0, 0), i;
    }
    assert [rs[i]] + rs[i + 1..] == rs[i..];
    return rs[i], i + 1;
  }

  /** One round of the loop: takes as many blocks as both the range and the free range have. */
  lemma {:induction false} Round(r: Range, rest: seq<Range>, f: Range, freeRest: seq<Range>, n: nat)
    requires !r.IsEmpty() && !f.IsEmpty() && n == if r.Len() < f.Len() then r.Len() else f.Len()
    ensures Left(r, rest)
            == Blocks(Range(r.start, r.start + n))
               + if n == r.Len() then LiveBlocks(rest) else Left(Range(r.start + n, r.end), rest)
    ensures Left(f, freeRest)
            == Blocks(Range(f.start, f.start + n))
               + if n == f.Len() then LiveBlocks(freeRest) else Left(Range(f.start + n, f.end), freeRest)
  {
    Taken(r, rest, n);
    Taken(f, freeRest, n);
  }

  /** So many blocks taken from the current range. */
  lemma {:induction false} Taken(r: Range, rest: seq<Range>, n: nat)
    requires !r.IsEmpty() && n <= r.Len()
    ensures Left(r, rest)
            == Blocks(Range(r.start, r.start + n))
               + if n == r.Len() then LiveBlocks(rest) else Left(Range(r.start + n, r.end), rest)
  {
    hide LiveBlocks, Left, Blocks;
    var a, b := Range(r.start, r.start + n), Range(r.start + n, r.end);
    LeftIs(r, rest);
    LeftIs(b, rest);
    BlocksSplit(r, r.start + n);
    assert Blocks(b) == [] ==> Blocks(a) + Blocks(b) == Blocks(a);
    assert Blocks(a) + Blocks(b) + LiveBlocks(rest) == Blocks(a) + (Blocks(b) + LiveBlocks(rest));
  }

  /** Assigns free blocks to the blocks of the ranges.  It succeeds if and only if there are enough of them, and
      then moves every block, in order, to the first of the free blocks.  Both lists end at their first empty range. */
  method BuildRemaps(ranges: seq<Range>, free: seq<Range>) returns (r: Option<seq<Remap>>)
    ensures r.Some? <==> |LiveBlocks(ranges)| <= |LiveBlocks(free)|
    ensures r.Some? ==> Sources(r.value) == LiveBlocks(ranges) && Targets(r.value) <= LiveBlocks(free)
    ensures r.Some? ==> NonEmpty(r.value)
  {
    hide LiveBlocks, Left, Sources, Targets;
    var remaps: seq<Remap> := [];
    var cur, i := NextRange(ranges, 0);
    var f, j := NextRange(free, 0);
    assert ranges[0..] == ranges && free[0..] == free;
    ghost var toGo, toUse := Left(cur, ranges[i..]), Left(f, free[j..]);
    NothingYet(toGo, toUse);
    while !cur.IsEmpty() && !f.IsEmpty()
      invariant i <= |ranges| && j <= |free| && NonEmpty(remaps)
      invariant toGo == Left(cur, ranges[i..]) && toUse == Left(f, free[j..])
      invariant Sources(remaps) + toGo == LiveBlocks(ranges) && Targets(remaps) + toUse == LiveBlocks(free)
      decreases |toGo| + |toUse|
    {
      var rlen, flen := cur.Len(), f.Len();
      ghost var n := if rlen < flen then rlen else flen;
      Round(cur, ranges[i..], f, free[j..], n);
      ghost var m := Remap(Range(cur.start, cur.start + n), f.start);
      Pushed(remaps, m);
      if rlen < flen {
        remaps := remaps + [Remap(cur, f.start)];
        f := Range(f.start + rlen, f.end);
        cur, i := NextRange(ranges, i);
      } else if rlen == flen {
        remaps := remaps + [Remap(cur, f.start)];
        cur, i := NextRange(ranges, i);
        f, j := NextRange(free, j);
      } else {
        remaps := remaps + [Remap(Range(cur.start, cur.start + flen), f.start)];
        cur := Range(cur.start + flen, cur.end);
        f, j := NextRange(free, j);
      }
      Moved(toGo, Blocks(m.from), Left(cur, ranges[i..]));
      Moved(toUse, Blocks(Target(m)), Left(f, free[j..]));
      toGo, toUse := Left(cur, ranges[i..]), Left(f, free[j..]);
    }
    LeftIs(cur, ranges[i..]);
    LeftIs(f, free[j..]);
    return if cur.IsEmpty() then Some(remaps) else None;
  }

  lemma NothingYet(a: seq<nat>, b: seq<nat>)
    ensures Sources([]) + a == a && Targets([]) + b == b
  {
  }

  lemma Moved(all: seq<nat>, first: seq<nat>, rest: seq<nat>)
    requires all == first + rest
    ensures forall before: seq<nat> :: before + first + rest == before + all
  {
  }

  lemma {:induction false} AllBlocksFirst(rs: seq<Range>)
    requires rs != []
    ensures AllBlocks(rs) == Blocks(rs[0]) + AllBlocks(rs[1..])
    decreases |rs|
  {
    hide Blocks;
    var k := |rs| - 1;
    if k == 0 {
      assert rs[..0] == rs[1..] == [];
    } else {
      AllBlocksFirst(rs[..k]);
      assert rs[..k][1..] == rs[1..][..k - 1] && rs[..k][0] == rs[0] && rs[1..][k - 1] == rs[k];
      assert AllBlocks(rs[1..]) == AllBlocks(rs[1..k]) + Blocks(rs[k]);
    }
  }

  /** Every block is remapped if and only if no range follows an empty one. */
  lemma {:induction false} NothingDropped(rs: seq<Range>)
    ensures LiveBlocks(rs) == AllBlocks(rs)
            <==> forall i, j :: 0 <= i < j < |rs| && rs[i].IsEmpty() ==> rs[j].IsEmpty()
    ensures |LiveBlocks(rs)| <= |AllBlocks(rs)|
    ensures (forall i :: 0 <= i < |rs| ==> rs[i].IsEmpty()) <==> AllBlocks(rs) == []
    decreases |rs|
  {
    if rs != [] {
      var rest := rs[1..];
      NothingDropped(rest);
      AllBlocksFirst(rs);
      assert forall j :: 0 < j < |rs| ==> rs[j] == rest[j - 1];
      if rs[0].IsEmpty() {
        assert Blocks(rs[0]) == [] && AllBlocks(rs) == AllBlocks(rest);
        assert (forall i :: 0 <= i < |rs| ==> rs[i].IsEmpty()) <==> (forall i :: 0 <= i < |rest| ==> rest[i].IsEmpty());
      } else {
        assert LiveBlocks(rs)[|Blocks(rs[0])|..] == LiveBlocks(rest);
        assert AllBlocks(rs)[|Blocks(rs[0])|..] == AllBlocks(rest);
      }
    }
  }

  /** An empty range before the blocks to move: nothing is remapped, though there is room, and that is no error. */
  method DropsBlocks() returns (r: Option<seq<Remap>>)
    ensures r == Some([]) && AllBlocks([Range(3, 3), Range(5, 7)]) == [5, 6]
  {
    var ranges := [Range(3, 3), Range(5, 7)];
    r := BuildRemaps(ranges, [Range(0, 2)]);
    assert ranges[..1] == [Range(3, 3)] && AllBlocks(ranges[..1]) == AllBlocks([]) + Blocks(Range(3, 3));
  }

  // ---- applying the remaps

  /** Sorted by the start of the source, and disjoint. */
  predicate Sorted(remaps: seq<Remap>) {
    && NonEmpty(remaps)
    && forall i, j :: 0 <= i < j < |remaps| ==> remaps[i].from.end <= remaps[j].from.start
  }

  /** Where one block goes. */
  function Moves(remaps: seq<Remap>, b: nat): nat {
    if remaps == [] then b
    else if remaps[0].from.Has(b) then remaps[0].to + (b - remaps[0].from.start)
    else Moves(remaps[1..], b)
  }

  lemma {:induction false} MovesAt(remaps: seq<Remap>, k: nat, b: nat)
    requires Sorted(remaps) && k < |remaps| && remaps[k].from.Has(b)
    ensures Moves(remaps, b) == remaps[k].to + (b - remaps[k].from.start)
  {
    if k > 0 {
      assert !remaps[0].from.Has(b);
      MovesAt(remaps[1..], k - 1, b);
    }
  }

  lemma {:induction false} MovesNot(remaps: seq<Remap>, b: nat)
    requires forall k :: 0 <= k < |remaps| ==> !remaps[k].from.Has(b)
    ensures Moves(remaps, b) == b
  {
    if remaps != [] {
      MovesNot(remaps[1..], b);
    }
  }

  function Starts(remaps: seq<Remap>): (ks: seq<nat>)
    ensures |ks| == |remaps| && forall i :: 0 <= i < |remaps| ==> ks[i] == remaps[i].from.start
  {
    seq(|remaps|, i requires 0 <= i < |remaps| => remaps[i].from.start)
  }

  method Overlaps(r1: Range, r2: Range, index: nat) returns (found: Option<nat>)
    ensures found == if r1.start < r2.end && r2.start < r1.end then Some(index) else None
  {
    if r1.start >= r2.end || r2.start >= r1.end {
      return None;
    }
    return Some(index);
  }

  /** The first remap that ends after r starts, if r reaches any. */
  method FindFirst(r: Range, remaps: seq<Remap>) returns (found: Option<nat>)
    requires Sorted(remaps) && r.start <= r.end
    ensures found.Some? ==> found.value < |remaps| && r.start < remaps[found.value].from.end
    ensures found.Some? ==> forall k :: 0 <= k < found.value ==> remaps[k].from.end <= r.start
    ensures found.None? ==> forall k :: 0 <= k < |remaps| ==> remaps[k].from.end <= r.start || r.end <= remaps[k].from.start
  {
    if remaps == [] {
      return None;
    }
    var at := BinarySearch(Starts(remaps), r.start);
    var n := at.i;
    assert forall k :: 0 <= k < n && n < |remaps| ==> remaps[k].from.end <= remaps[n].from.start;
    if at.Hit? {
      return Some(n);
    } else if n == 0 {
      found := Overlaps(r, remaps[n].from, n);
    } else {
      assert forall k :: 0 <= k < n - 1 ==> remaps[k].from.end <= remaps[n - 1].from.start;
      found := Overlaps(r, remaps[n - 1].from, n - 1);
      if n < |remaps| && found.None? {
        found := Overlaps(r, remaps[n].from, n);
      }
    }
  }

  /** The blocks of r, each moved. */
  function AllMoved(remaps: seq<Remap>, r: Range): (bs: seq<nat>)
    ensures |bs| == r.Len()
  {
    seq<nat>(r.Len(), i requires i >= 0 => Moves(remaps, r.start + i))
  }

  lemma MovedSplit(remaps: seq<Remap>, r: Range, b: nat)
    requires r.start <= b <= r.end
    ensures AllMoved(remaps, r) == AllMoved(remaps, Range(r.start, b)) + AllMoved(remaps, Range(b, r.end))
  {
  }

  lemma MovedTogether(remaps: seq<Remap>, k: nat, r: Range)
    requires Sorted(remaps) && k < |remaps| && remaps[k].from.start <= r.start <= r.end <= remaps[k].from.end
    ensures var to := remaps[k].to + (r.start - remaps[k].from.start); AllMoved(remaps, r) == Blocks(Range(to, to + r.Len()))
  {
    var to := remaps[k].to + (r.start - remaps[k].from.start);
    forall i | 0 <= i < r.Len() ensures AllMoved(remaps, r)[i] == Blocks(Range(to, to + r.Len()))[i] {
      MovesAt(remaps, k, r.start + i);
    }
  }

  lemma NotMoved(remaps: seq<Remap>, r: Range)
    requires forall k :: 0 <= k < |remaps| ==> remaps[k].from.end <= r.start || r.end <= remaps[k].from.start
    ensures AllMoved(remaps, r) == Blocks(r)
  {
    forall i | 0 <= i < r.Len() ensures AllMoved(remaps, r)[i] == Blocks(r)[i] {
      MovesNot(remaps, r.start + i);
    }
  }

  lemma {:induction false} AllBlocksPush(rs: seq<Range>, r: Range)
    ensures AllBlocks(rs + [r]) == AllBlocks(rs) + Blocks(r)
  {
    assert (rs + [r])[..|rs|] == rs;
  }

  /** Splits a range where it must be and moves the pieces: block by block, in order, each goes where it alone would. */
  method ApplyRemaps(range: Range, remaps: seq<Remap>) returns (mapped: seq<Range>)
    requires Sorted(remaps) && range.start <= range.end
    ensures AllBlocks(mapped) == AllMoved(remaps, range)
  {
    hide AllMoved, AllBlocks, Blocks;
    mapped := [];
    var r := range;
    NothingMoved(remaps, range.start);
    var found := FindFirst(r, remaps);
    if found.None? {
      NotMoved(remaps, r);
      mapped, r := AdvanceTo(remaps, range, r, r.Len(), r, mapped);
      return;
    }
    var index := found.value;
    while true
      invariant index < |remaps| && range.start <= r.start <= r.end == range.end
      invariant forall k :: 0 <= k < index ==> remaps[k].from.end <= r.start
      invariant r.start < remaps[index].from.end
      invariant AllBlocks(mapped) == AllMoved(remaps, Range(range.start, r.start))
      decreases |remaps| - index
    {
      var Remap(from, to) := remaps[index];
      if r.start < from.start {
        var len := if r.Len() < from.start - r.start then r.Len() else from.start - r.start;
        NotMoved(remaps, Range(r.start, r.start + len));
        mapped, r := AdvanceTo(remaps, range, r, len, Range(r.start, r.start + len), mapped);
        if r.IsEmpty() {
          break;
        }
      }
      var rlen, flen := r.Len(), from.end - r.start;
      var remapStart := to + (r.start - from.start);
      var len := if rlen < flen then rlen else flen;
      MovedTogether(remaps, index, Range(r.start, r.start + len));
      mapped, r := AdvanceTo(remaps, range, r, len, Range(remapStart, remapStart + len), mapped);
      if r.IsEmpty() {
        break;
      }
      if len == flen {
        index := index + 1;
      }
      if index == |remaps| {
        NotMoved(remaps, r);
        mapped, r := AdvanceTo(remaps, range, r, r.Len(), r, mapped);
        break;
      }
    }
  }

  lemma NothingMoved(remaps: seq<Remap>, b: nat)
    ensures AllBlocks([]) == AllMoved(remaps, Range(b, b))
  {
  }

  /** Maps the next len blocks of r to `onto`. */
  method AdvanceTo(remaps: seq<Remap>, ghost range: Range, r: Range, len: nat, onto: Range, mapped: seq<Range>)
    returns (mapped': seq<Range>, r': Range)
    requires range.start <= r.start <= r.end == range.end && len <= r.Len()
    requires AllBlocks(mapped) == AllMoved(remaps, Range(range.start, r.start))
    requires AllMoved(remaps, Range(r.start, r.start + len)) == Blocks(onto)
    ensures r' == Range(r.start + len, r.end)
    ensures AllBlocks(mapped') == AllMoved(remaps, Range(range.start, r'.start))
  {
    MovedSplit(remaps, Range(range.start, r.start + len), r.start);
    AllBlocksPush(mapped, onto);
    return mapped + [onto], Range(r.start + len, r.end);
  }

  // ---- the two together

  /** Sorted and disjoint, none empty. */
  predicate RangesAscend(rs: seq<Range>) {
    && (forall i :: 0 <= i < |rs| ==> !rs[i].IsEmpty())
    && forall i, j :: 0 <= i < j < |rs| ==> rs[i].end <= rs[j].start
  }

  predicate Ascends(bs: seq<nat>) {
    forall i, j :: 0 <= i < j < |bs| ==> bs[i] < bs[j]
  }

  lemma {:induction false} AllBlocksMember(rs: seq<Range>, b: nat)
    ensures b in AllBlocks(rs) <==> exists i :: 0 <= i < |rs| && rs[i].Has(b)
    decreases |rs|
  {
    if rs != [] {
      var k := |rs| - 1;
      AllBlocksMember(rs[..k], b);
      if rs[k].Has(b) {
        assert Blocks(rs[k])[b - rs[k].start] == b;
      }
      assert forall i :: 0 <= i < k ==> rs[..k][i] == rs[i];
    }
  }

  lemma {:induction false} AllBlocksAscend(rs: seq<Range>)
    requires RangesAscend(rs)
    ensures Ascends(AllBlocks(rs))
    decreases |rs|
  {
    if rs != [] {
      var k := |rs| - 1;
      var before := AllBlocks(rs[..k]);
      AllBlocksAscend(rs[..k]);
      forall i | 0 <= i < |before| ensures before[i] < rs[k].start {
        AllBlocksMember(rs[..k], before[i]);
        var j :| 0 <= j < k && rs[..k][j].Has(before[i]);
      }
    }
  }

  /** The remap that moves the i'th source. */
  lemma {:induction false} SourceAt(remaps: seq<Remap>, i: nat) returns (k: nat)
    requires i < |Sources(remaps)|
    ensures k < |remaps| && remaps[k].from.Has(Sources(remaps)[i])
    ensures Targets(remaps)[i] == remaps[k].to + (Sources(remaps)[i] - remaps[k].from.start)
    decreases |remaps|
  {
    var n := |remaps| - 1;
    if i < |Sources(remaps[..n])| {
      k := SourceAt(remaps[..n], i);
    } else {
      k := n;
    }
  }

  lemma {:induction false} SourceHas(remaps: seq<Remap>, k: nat, b: nat)
    requires k < |remaps| && remaps[k].from.Has(b)
    ensures b in Sources(remaps)
    decreases |remaps|
  {
    var n := |remaps| - 1;
    if k < n {
      SourceHas(remaps[..n], k, b);
    } else {
      assert Blocks(remaps[n].from)[b - remaps[n].from.start] == b;
    }
  }

  lemma {:induction false} SourcesSorted(remaps: seq<Remap>)
    requires NonEmpty(remaps) && Ascends(Sources(remaps))
    ensures Sorted(remaps)
    decreases |remaps|
  {
    if remaps != [] {
      var n := |remaps| - 1;
      var before, last := Sources(remaps[..n]), Blocks(remaps[n].from);
      assert Sources(remaps) == before + last;
      assert forall i, j :: 0 <= i < j < |before| ==> before[i] == Sources(remaps)[i] && before[j] == Sources(remaps)[j];
      SourcesSorted(remaps[..n]);
      forall k | 0 <= k < n ensures remaps[k].from.end <= remaps[n].from.start {
        SourceHas(remaps[..n], k, remaps[k].from.end - 1);
        var i :| 0 <= i < |before| && before[i] == remaps[k].from.end - 1;
        assert Sources(remaps)[i] < Sources(remaps)[|before|] == last[0];
      }
    }
  }

  /** What `build_remaps` returned for these ranges: see BuildRemaps. */
  predicate Assigns(remaps: seq<Remap>, ranges: seq<Range>, free: seq<Range>) {
    && RangesAscend(ranges) && RangesAscend(free) && NonEmpty(remaps)
    && Sources(remaps) == AllBlocks(ranges) && Targets(remaps) <= AllBlocks(free)
  }

  lemma {:induction false} AssignsSorted(remaps: seq<Remap>, ranges: seq<Range>, free: seq<Range>)
    requires Assigns(remaps, ranges, free)
    ensures Sorted(remaps) && Ascends(Sources(remaps)) && Ascends(Targets(remaps))
  {
    AllBlocksAscend(ranges);
    AllBlocksAscend(free);
    SourcesSorted(remaps);
  }

  /** A block of the ranges goes to a free block; any other stays. */
  lemma {:induction false} WhereTo(remaps: seq<Remap>, ranges: seq<Range>, free: seq<Range>, b: nat)
    requires Assigns(remaps, ranges, free)
    ensures b in AllBlocks(ranges) ==>
              exists i :: 0 <= i < |Sources(remaps)| && Sources(remaps)[i] == b && Moves(remaps, b) == Targets(remaps)[i]
                          && Targets(remaps)[i] in AllBlocks(free)
    ensures b !in AllBlocks(ranges) ==> Moves(remaps, b) == b
  {
    AssignsSorted(remaps, ranges, free);
    if b in AllBlocks(ranges) {
      var i :| 0 <= i < |Sources(remaps)| && Sources(remaps)[i] == b;
      var k := SourceAt(remaps, i);
      MovesAt(remaps, k, b);
    } else {
      forall k | 0 <= k < |remaps| ensures !remaps[k].from.Has(b) {
        if remaps[k].from.Has(b) {
          SourceHas(remaps, k, b);
        }
      }
      MovesNot(remaps, b);
    }
  }

  /** No two blocks in use land on the same block, if the free blocks are free. */
  lemma {:induction false} NoTwoLandTogether(remaps: seq<Remap>, ranges: seq<Range>, free: seq<Range>, live: set<nat>, a: nat, b: nat)
    requires Assigns(remaps, ranges, free) && (forall x :: x in AllBlocks(free) ==> x !in live)
    requires a in live && b in live && a != b
    ensures Moves(remaps, a) != Moves(remaps, b)
  {
    AssignsSorted(remaps, ranges, free);
    WhereTo(remaps, ranges, free, a);
    WhereTo(remaps, ranges, free, b);
    hide Moves, Sources, Targets, AllBlocks;
    if a in AllBlocks(ranges) && b in AllBlocks(ranges) {
      var i :| 0 <= i < |Sources(remaps)| && Sources(remaps)[i] == a && Moves(remaps, a) == Targets(remaps)[i];
      var j :| 0 <= j < |Sources(remaps)| && Sources(remaps)[j] == b && Moves(remaps, b) == Targets(remaps)[j];
      assert i < j || j < i;
    }
  }

  /** With the free blocks below the new size, and the ranges holding every block in use above it, all fit. */
  lemma {:induction false} AllFit(remaps: seq<Remap>, ranges: seq<Range>, free: seq<Range>, live: set<nat>, size: nat, b: nat)
    requires Assigns(remaps, ranges, free) && (forall x :: x in AllBlocks(free) ==> x < size)
    requires (forall x :: x in live && x >= size ==> x in AllBlocks(ranges)) && b in live
    ensures Moves(remaps, b) < size
  {
    WhereTo(remaps, ranges, free, b);
  }
}
