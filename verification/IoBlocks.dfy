/** Reading small blocks through larger ones: src/io_engine/utils.rs. */
module IoBlocks {
  import opened Wrappers
  import opened Sequences
  import opened BitWords

  /** The blocks at the end of the list that lie in io block idx, as bits of it. */
  function Tail(blocks: seq<nat>, per: nat, idx: nat): set<nat>
    requires per > 0
  {
    if blocks == [] || blocks[|blocks| - 1] / per != idx then {}
    else Tail(blocks[..|blocks| - 1], per, idx) + {blocks[|blocks| - 1] % per}
  }

  /** The last run of blocks in io block idx. */
  function LastGroup(blocks: seq<nat>, per: nat, idx: nat): set<nat>
    requires per > 0
  {
    if blocks == [] then {}
    else if blocks[|blocks| - 1] / per == idx then Tail(blocks, per, idx)
    else LastGroup(blocks[..|blocks| - 1], per, idx)
  }

  predicate Touches(blocks: seq<nat>, per: nat, idx: nat)
    requires per > 0
  {
    exists i :: 0 <= i < |blocks| && blocks[i] / per == idx
  }

  function Bits(w: word): set<nat> {
    set k: nat | k < 64 && w[k]
  }

  ghost predicate Collected(m: map<nat, word>, blocks: seq<nat>, per: nat, current: Option<nat>)
    requires per > 0
  {
    forall idx :: Some(idx) != current ==>
      (idx in m <==> Touches(blocks, per, idx)) && (idx in m ==> Bits(m[idx]) == LastGroup(blocks, per, idx))
  }

  /** For each io block, the bits of the last run of blocks in it: what came before another io block is lost. */
  method MapSmallBlocks(blocks: seq<nat>, per: nat) returns (m: map<nat, word>)
    requires 0 < per <= 64
    ensures Collected(m, blocks, per, None)
  {
    m := map[];
    var current: Option<nat> := None;
    var mask := ZERO;
    for i := 0 to |blocks|
      invariant Collected(m, blocks[..i], per, current)
      invariant if i == 0 then current == None else current == Some(blocks[i - 1] / per)
      invariant i > 0 ==> Bits(mask) == Tail(blocks[..i], per, blocks[i - 1] / per)
    {
      hide Collected, Bits, Tail;
      var idx, bit := blocks[i] / per, blocks[i] % per;
      ghost var m0, current0, mask0 := m, current, mask;
      if Some(idx) != current {
        if current.Some? {
          m := m[current.value := mask];
        }
        current, mask := Some(idx), ZERO;
      }
      NextBlock(m0, blocks, per, i, current0, mask0);
      mask := Set(mask, bit);
    }
    assert blocks[..|blocks|] == blocks;
    if current.Some? {
      m := m[current.value := mask];
    }
  }

  lemma {:induction false} NextBlock(m: map<nat, word>, blocks: seq<nat>, per: nat, i: nat, current: Option<nat>, mask: word)
    requires 0 < per <= 64 && i < |blocks| && Collected(m, blocks[..i], per, current)
    requires if i == 0 then current == None else current == Some(blocks[i - 1] / per)
    requires i > 0 ==> Bits(mask) == Tail(blocks[..i], per, blocks[i - 1] / per)
    ensures var idx, bit := blocks[i] / per, blocks[i] % per;
            var same := Some(idx) == current;
            && Collected(if same || current.None? then m else m[current.value := mask], blocks[..i + 1], per, Some(idx))
            && Bits(Set(if same then mask else ZERO, bit)) == Tail(blocks[..i + 1], per, idx)
  {
    assert blocks[..i + 1][..i] == blocks[..i];
    var idx, bit := blocks[i] / per, blocks[i] % per;
    assert blocks[..i + 1] == blocks[..i] + [blocks[i]];
    forall other: nat | other != idx
      ensures Touches(blocks[..i + 1], per, other) <==> Touches(blocks[..i], per, other)
      ensures LastGroup(blocks[..i + 1], per, other) == LastGroup(blocks[..i], per, other)
    {
      if Touches(blocks[..i], per, other) {
        var k :| 0 <= k < i && blocks[..i][k] / per == other;
        assert blocks[..i + 1][k] / per == other;
      }
    }
    var w := if Some(idx) == current then mask else ZERO;
    assert Bits(Set(w, bit)) == Bits(w) + {bit};
    assert Bits(ZERO) == {};
    if i > 0 {
      assert blocks[..i][i - 1] == blocks[i - 1];
      assert Touches(blocks[..i], per, blocks[i - 1] / per);
      assert LastGroup(blocks[..i], per, blocks[i - 1] / per) == Tail(blocks[..i], per, blocks[i - 1] / per);
    }
  }

  // ---- what the handler sees

  /** The small blocks that the map asks for. */
  ghost predicate Asked(m: map<nat, word>, per: nat, b: nat)
    requires per > 0
  {
    b / per in m && b % per in Bits(m[b / per])
  }

  lemma {:induction false} TailInList(blocks: seq<nat>, per: nat, idx: nat, bit: nat)
    requires per > 0 && bit in Tail(blocks, per, idx)
    ensures exists i :: 0 <= i < |blocks| && blocks[i] / per == idx && blocks[i] % per == bit
  {
    var k := |blocks| - 1;
    if bit != blocks[k] % per {
      TailInList(blocks[..k], per, idx, bit);
      var i :| 0 <= i < k && blocks[..k][i] / per == idx && blocks[..k][i] % per == bit;
      assert blocks[i] / per == idx;
    }
  }

  lemma {:induction false} GroupInList(blocks: seq<nat>, per: nat, idx: nat, bit: nat)
    requires per > 0 && bit in LastGroup(blocks, per, idx)
    ensures exists i :: 0 <= i < |blocks| && blocks[i] / per == idx && blocks[i] % per == bit
  {
    var k := |blocks| - 1;
    if blocks[k] / per == idx {
      TailInList(blocks, per, idx, bit);
    } else {
      GroupInList(blocks[..k], per, idx, bit);
      var i :| 0 <= i < k && blocks[..k][i] / per == idx && blocks[..k][i] % per == bit;
      assert blocks[i] / per == idx;
    }
  }

  /** Once another io block has come after block i of the list, its own does not come again. */
  ghost predicate Stays(blocks: seq<nat>, per: nat, i: nat)
    requires per > 0 && i < |blocks|
  {
    forall j, k :: i < j < k < |blocks| && blocks[k] / per == blocks[i] / per ==> blocks[j] / per == blocks[i] / per
  }

  /** b is in, or repeated in, the last run of blocks in its io block. */
  ghost predicate InLastRun(blocks: seq<nat>, per: nat, b: nat)
    requires per > 0
  {
    exists i :: 0 <= i < |blocks| && blocks[i] == b && Stays(blocks, per, i)
  }

  /** The blocks at the end of the list, by position. */
  ghost predicate AtEnd(blocks: seq<nat>, per: nat, i: nat)
    requires per > 0 && i < |blocks|
  {
    forall j :: i <= j < |blocks| ==> blocks[j] / per == blocks[i] / per
  }

  lemma {:induction false} TailIs(blocks: seq<nat>, per: nat, idx: nat, bit: nat)
    requires per > 0
    ensures bit in Tail(blocks, per, idx)
            <==> exists i :: 0 <= i < |blocks| && blocks[i] / per == idx && blocks[i] % per == bit && AtEnd(blocks, per, i)
    decreases |blocks|
  {
    if blocks != [] && blocks[|blocks| - 1] / per == idx {
      var n := |blocks| - 1;
      var before := blocks[..n];
      TailIs(before, per, idx, bit);
      if bit in Tail(before, per, idx) {
        var i :| 0 <= i < n && before[i] / per == idx && before[i] % per == bit && AtEnd(before, per, i);
        assert blocks[i] == before[i] && AtEnd(blocks, per, i) by {
          assert forall j :: i <= j < n ==> blocks[j] == before[j];
        }
      }
      if blocks[n] % per == bit {
        assert AtEnd(blocks, per, n);
      }
      if i :| 0 <= i < |blocks| && blocks[i] / per == idx && blocks[i] % per == bit && AtEnd(blocks, per, i) {
        assert i < n ==> before[i] == blocks[i] && AtEnd(before, per, i);
      }
    } else {
      assert forall i :: 0 <= i < |blocks| && AtEnd(blocks, per, i) ==> blocks[|blocks| - 1] / per == blocks[i] / per;
    }
  }

  lemma {:induction false} LastGroupIs(blocks: seq<nat>, per: nat, idx: nat, bit: nat)
    requires per > 0
    ensures bit in LastGroup(blocks, per, idx)
            <==> exists i :: 0 <= i < |blocks| && blocks[i] / per == idx && blocks[i] % per == bit && Stays(blocks, per, i)
    decreases |blocks|
  {
    if blocks != [] {
      var n := |blocks| - 1;
      if blocks[n] / per == idx {
        TailIs(blocks, per, idx, bit);
        forall i | 0 <= i < |blocks| && blocks[i] / per == idx ensures Stays(blocks, per, i) <==> AtEnd(blocks, per, i) {
          StaysAtEnd(blocks, per, i);
        }
      } else {
        var before := blocks[..n];
        LastGroupIs(before, per, idx, bit);
        forall i | 0 <= i < n && blocks[i] / per == idx ensures Stays(blocks, per, i) <==> Stays(before, per, i) {
          StaysBefore(blocks, per, i);
        }
        if bit in LastGroup(before, per, idx) {
          var i :| 0 <= i < n && before[i] / per == idx && before[i] % per == bit && Stays(before, per, i);
          assert blocks[i] == before[i];
        }
        if i :| 0 <= i < |blocks| && blocks[i] / per == idx && blocks[i] % per == bit && Stays(blocks, per, i) {
          assert before[i] == blocks[i];
        }
      }
    }
  }

  lemma {:induction false} StaysAtEnd(blocks: seq<nat>, per: nat, i: nat)
    requires per > 0 && i < |blocks| && blocks[|blocks| - 1] / per == blocks[i] / per
    ensures Stays(blocks, per, i) <==> AtEnd(blocks, per, i)
  {
    if Stays(blocks, per, i) {
      forall j | i <= j < |blocks| ensures blocks[j] / per == blocks[i] / per {
        assert i < j < |blocks| - 1 ==> blocks[|blocks| - 1] / per == blocks[i] / per;
      }
    }
  }

  lemma {:induction false} StaysBefore(blocks: seq<nat>, per: nat, i: nat)
    requires per > 0 && i < |blocks| - 1 && blocks[|blocks| - 1] / per != blocks[i] / per
    ensures Stays(blocks, per, i) <==> Stays(blocks[..|blocks| - 1], per, i)
  {
    var before := blocks[..|blocks| - 1];
    assert forall j :: 0 <= j < |before| ==> before[j] == blocks[j];
  }

  /** Nothing is asked for that is not in the list; all of the list is if and only if every block is in, or repeated
      in, the last run of its io block. */
  lemma AskedFor(m: map<nat, word>, blocks: seq<nat>, per: nat)
    requires 0 < per <= 64 && Collected(m, blocks, per, None)
    ensures forall b: nat :: Asked(m, per, b) ==> b in blocks
    ensures (forall b :: b in blocks ==> Asked(m, per, b)) <==> (forall b :: b in blocks ==> InLastRun(blocks, per, b))
  {
    hide Collected, Bits, LastGroup;
    forall b: nat ensures (Asked(m, per, b) ==> b in blocks)
        && (b in blocks ==> (Asked(m, per, b) <==> InLastRun(blocks, per, b)))
    {
      AskedOne(m, blocks, per, b, b / per, b % per);
      LastRunIs(blocks, per, b);
    }
  }

  lemma {:induction false} LastRunIs(blocks: seq<nat>, per: nat, b: nat)
    requires per > 0
    ensures InLastRun(blocks, per, b) <==> b % per in LastGroup(blocks, per, b / per)
  {
    LastGroupIs(blocks, per, b / per, b % per);
    hide Stays;
    if b % per in LastGroup(blocks, per, b / per) {
      var i :| 0 <= i < |blocks| && blocks[i] / per == b / per && blocks[i] % per == b % per && Stays(blocks, per, i);
      SameBlock(blocks[i], b, per);
    }
  }

  lemma {:induction false} AskedOne(m: map<nat, word>, blocks: seq<nat>, per: nat, b: nat, idx: nat, bit: nat)
    requires 0 < per <= 64 && idx == b / per && bit == b % per && Collected(m, blocks, per, None)
    ensures Asked(m, per, b) ==> b in blocks
    ensures b in blocks ==> (Asked(m, per, b) <==> bit in LastGroup(blocks, per, idx))
  {
    if Asked(m, per, b) {
      GroupInList(blocks, per, idx, bit);
      var i :| 0 <= i < |blocks| && blocks[i] / per == idx && blocks[i] % per == bit;
      SameBlock(blocks[i], b, per);
    }
    if b in blocks {
      var i :| 0 <= i < |blocks| && blocks[i] == b;
      assert Touches(blocks, per, idx);
    }
  }

  lemma SameBlock(a: nat, b: nat, per: nat)
    requires per > 0 && a / per == b / per && a % per == b % per
    ensures a == b
  {
    assert a == per * (a / per) + a % per && b == per * (b / per) + b % per;
  }

  /** No io block is come back to. */
  ghost predicate Grouped(blocks: seq<nat>, per: nat)
    requires per > 0
  {
    forall i, j, k :: 0 <= i < j < k < |blocks| && blocks[i] / per == blocks[k] / per ==> blocks[j] / per == blocks[k] / per
  }

  /** A list that comes back to no io block, a sorted one for instance, is asked for in full. */
  lemma {:induction false} GroupedAsked(m: map<nat, word>, blocks: seq<nat>, per: nat)
    requires 0 < per <= 64 && Collected(m, blocks, per, None) && Grouped(blocks, per)
    ensures forall b: nat :: b in blocks ==> Asked(m, per, b)
  {
    AskedFor(m, blocks, per);
    hide Collected, Asked;
    forall b | b in blocks ensures InLastRun(blocks, per, b) {
      var i :| 0 <= i < |blocks| && blocks[i] == b;
      assert Stays(blocks, per, i);
    }
  }

  /** A list that comes back to an io block loses what it asked of it before. */
  lemma ComesBack(m: map<nat, word>)
    requires Collected(m, [0, 4, 1], 4, None)
    ensures !Asked(m, 4, 0) && Asked(m, 4, 1) && Asked(m, 4, 4)
  {
    var blocks: seq<nat> := [0, 4, 1];
    assert blocks[..2] == [0, 4];
    assert Tail(blocks, 4, 0) == Tail([0, 4], 4, 0) + {1} == {1};
    assert blocks[2] / 4 == 0 && blocks[1] / 4 == 1;
    assert Touches(blocks, 4, 0) && Touches(blocks, 4, 1);
    assert LastGroup(blocks, 4, 0) == {1};
    assert [0, 4][..1] == [0];
    assert LastGroup(blocks, 4, 1) == LastGroup([0, 4], 4, 1) == Tail([0, 4], 4, 1) == Tail([0], 4, 1) + {0} == {0};
  }

  /** One call of the handler: a small block, and which part of the data it gets unless the io block could not be
      read. */
  datatype Call = Call(block: nat, slot: Option<nat>)

  /** Hands over each block asked for of one io block, once, in ascending order, with its own part of the data.
      `ks` are the bits handed over. */
  method ProcessIoBlock(idx: nat, readOk: bool, per: nat, mask: word) returns (calls: seq<Call>, ghost ks: seq<nat>)
    requires 0 < per <= 64
    ensures Ascending(ks) && forall k: nat :: k in ks <==> k < per && k in Bits(mask)
    ensures |calls| == |ks|
            && forall i :: 0 <= i < |ks| ==> calls[i] == Call(idx * per + ks[i], if readOk then Some(ks[i]) else None)
  {
    calls, ks := [], [];
    var bm := mask;
    ghost var done: nat := 0;
    while bm != ZERO
      invariant done <= 64 && (forall k :: 0 <= k < 64 ==> bm[k] == (k >= done && mask[k]))
      invariant Ascending(ks) && forall k: nat :: k in ks <==> k < done && k < per && mask[k]
      invariant |calls| == |ks|
      invariant forall i :: 0 <= i < |ks| ==> calls[i] == Call(idx * per + ks[i], if readOk then Some(ks[i]) else None)
      decreases 64 - done
    {
      var tz: nat := TrailingZeros(bm);
      if tz >= per {
        break;
      }
      bm := Clear(bm, tz);
      assert forall i :: 0 <= i < |ks| ==> ks[i] in ks;
      calls, ks, done := calls + [Call(idx * per + tz, if readOk then Some(tz) else None)], ks + [tz], tz + 1;
    }
  }
}
