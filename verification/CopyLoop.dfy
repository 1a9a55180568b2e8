/** `do_reads` and `do_writes` of src/copier/sync_copier.rs: sorting and joining the ops of a chunk, and finding each
    block's buffer again.  What they do is a sequence of single reads and writes of the two threads. */
module CopyLoops {
  import opened Wrappers
  import opened Sequences
  import opened Copiers
  import opened CopySafeties

  // ---- the devices

  class Disks {
    var dev: map<Place, Data>

    constructor (dev: map<Place, Data>)
      ensures this.dev == dev
    {
      this.dev := dev;
    }

    /** Reads blocks one after another into buffers of the caller's.  It may fail as a whole or for any block. */
    method ReadBlocks(d: nat, begin: nat, iovec: seq<nat>, buffer: array<Data>) returns (r: Option<seq<bool>>)
      requires NoRepeats(iovec) && forall k :: k in iovec ==> k < buffer.Length
      modifies buffer
      ensures forall k :: 0 <= k < buffer.Length && k !in iovec ==> buffer[k] == old(buffer[k])
      ensures r.Some? ==> |r.value| == |iovec|
      ensures r.Some? ==> forall i :: 0 <= i < |iovec| && r.value[i] ==> Filled(dev, d, begin + i, iovec[i], buffer[..])
    {
      var oks: seq<bool> := [];
      for i := 0 to |iovec|
        invariant |oks| == i
        invariant forall k :: 0 <= k < buffer.Length && k !in iovec[..i] ==> buffer[k] == old(buffer[k])
        invariant forall j :: 0 <= j < i && oks[j] ==> Filled(dev, d, begin + j, iovec[j], buffer[..])
      {
        var fail: bool, torn: Data := *, *;
        var ok := !fail && Place(d, begin + i) in dev;
        assert iovec[i] in iovec && iovec[..i + 1] == iovec[..i] + [iovec[i]];
        buffer[iovec[i]] := if ok then dev[Place(d, begin + i)] else torn;
        oks := oks + [ok];
      }
      var alive: bool := *;
      r := if alive then Some(oks) else None;
    }

    /** Writes blocks one after another.  A block whose write failed may hold anything; so may all of them if the
        call fails as a whole. */
    method WriteBlocks(d: nat, begin: nat, bufs: seq<Data>) returns (r: Option<seq<bool>>, ghost written: seq<Data>)
      modifies this
      ensures |written| == |bufs| && dev == Put(old(dev), d, begin, written)
      ensures r.Some? ==> |r.value| == |bufs| && forall i :: 0 <= i < |bufs| && r.value[i] ==> written[i] == bufs[i]
    {
      var oks: seq<bool> := [];
      written := [];
      for i := 0 to |bufs|
        invariant |oks| == |written| == i && dev == Put(old(dev), d, begin, written)
        invariant forall j :: 0 <= j < i && oks[j] ==> written[j] == bufs[j]
      {
        var ok: bool, torn: Data := *, *;
        var block := if ok then bufs[i] else torn;
        assert (written + [block])[..i] == written;
        dev := dev[Place(d, begin + i) := block];
        oks, written := oks + [ok], written + [block];
      }
      var alive: bool := *;
      r := if alive then Some(oks) else None;
    }
  }

  ghost predicate Filled(dev: map<Place, Data>, d: nat, block: nat, k: nat, buffer: seq<Data>) {
    k < |buffer| && Place(d, block) in dev && buffer[k] == dev[Place(d, block)]
  }

  function Put(dev: map<Place, Data>, d: nat, begin: nat, blocks: seq<Data>): map<Place, Data> {
    if blocks == [] then dev
    else var n := |blocks| - 1; Put(dev, d, begin, blocks[..n])[Place(d, begin + n) := blocks[n]]
  }

  function BeginOf(op: Op): nat {
    op.begin
  }

  // ---- each buffer goes with its block

  ghost predicate Distinct(list: seq<Op>) {
    forall i, j :: 0 <= i < j < |list| ==> list[i] != list[j]
  }

  lemma {:induction false} DistinctOnce(list: seq<Op>, op: Op)
    requires Distinct(list)
    ensures multiset(list)[op] <= 1
    decreases |list|
  {
    if list != [] {
      var n := |list| - 1;
      assert list == list[..n] + [list[n]];
      DistinctOnce(list[..n], op);
      assert forall i :: 0 <= i < n ==> list[..n][i] != list[n];
    }
  }

  lemma {:induction false} OnceDistinct(list: seq<Op>)
    requires forall op :: multiset(list)[op] <= 1
    ensures Distinct(list)
  {
    forall i, j | 0 <= i < j < |list| ensures list[i] != list[j] {
      assert list == list[..j] + list[j..];
      assert multiset(list)[list[j]] == multiset(list[..j])[list[j]] + multiset(list[j..])[list[j]];
      assert list[j..][0] == list[j] && list[j] in list[j..];
      assert list[j] !in list[..j];
      assert list[..j][i] == list[i];
    }
  }

  /** One op for each selected block; its index is its buffer. */
  ghost predicate Singles(list: seq<Op>, blocks: seq<nat>, select: nat -> bool) {
    AllSingle(list, blocks, select) && AllThere(list, blocks, select) && Distinct(list)
  }

  ghost predicate AllSingle(list: seq<Op>, blocks: seq<nat>, select: nat -> bool) {
    forall i :: 0 <= i < |list| ==> Single(list[i], blocks, select)
  }

  ghost predicate AllThere(list: seq<Op>, blocks: seq<nat>, select: nat -> bool) {
    forall k: nat :: select(k) && k < |blocks| ==> Op(blocks[k], blocks[k] + 1, [k]) in list
  }

  ghost predicate Single(op: Op, blocks: seq<nat>, select: nat -> bool) {
    exists k: nat :: SingleOf(op, blocks, select, k)
  }

  ghost predicate SingleOf(op: Op, blocks: seq<nat>, select: nat -> bool, k: nat) {
    select(k) && k < |blocks| && op == Op(blocks[k], blocks[k] + 1, [k])
  }

  lemma {:induction false} SinglesSorted(list: seq<Op>, sorted: seq<Op>, blocks: seq<nat>, select: nat -> bool)
    requires Singles(list, blocks, select) && multiset(sorted) == multiset(list)
    ensures Singles(sorted, blocks, select)
  {
    assert Distinct(list);
    forall op ensures multiset(sorted)[op] <= 1 {
      DistinctOnce(list, op);
    }
    OnceDistinct(sorted);
    hide Distinct, Single;
    forall i | 0 <= i < |sorted| ensures Single(sorted[i], blocks, select) {
      assert sorted[i] in multiset(sorted);
      assert sorted[i] in list;
      var m :| 0 <= m < |list| && list[m] == sorted[i];
    }
    forall k: nat | select(k) && k < |blocks| ensures Op(blocks[k], blocks[k] + 1, [k]) in sorted {
      assert Op(blocks[k], blocks[k] + 1, [k]) in multiset(list);
      assert Op(blocks[k], blocks[k] + 1, [k]) in multiset(sorted);
    }
  }

  /** The blocks of a list of pairs, each with its own buffer, no buffer twice, and every selected one there. */
  ghost predicate Routed(ps: seq<(nat, nat)>, blocks: seq<nat>, select: nat -> bool) {
    && (forall i :: 0 <= i < |ps| ==> ps[i].1 < |blocks| && select(ps[i].1) && ps[i].0 == blocks[ps[i].1])
    && (forall i, j :: 0 <= i < j < |ps| ==> ps[i].1 != ps[j].1)
    && (forall k: nat :: select(k) && k < |blocks| ==> (blocks[k], k) in ps)
  }

  lemma {:induction false} SinglesPairs(list: seq<Op>)
    requires forall i :: 0 <= i < |list| ==> list[i].Ok() && |list[i].indexes| == 1
    ensures |AllPairs(list)| == |list|
    ensures forall i :: 0 <= i < |list| ==> AllPairs(list)[i] == (list[i].begin, list[i].indexes[0])
    decreases |list|
  {
    if list != [] {
      SinglesPairs(list[..|list| - 1]);
    }
  }

  lemma {:induction false} SinglesRouted(list: seq<Op>, blocks: seq<nat>, select: nat -> bool)
    requires Singles(list, blocks, select)
    ensures Routed(AllPairs(list), blocks, select) && forall i :: 0 <= i < |list| ==> list[i].Ok()
  {
    forall i | 0 <= i < |list| ensures list[i].Ok() && |list[i].indexes| == 1 {
      var k: nat :| SingleOf(list[i], blocks, select, k);
    }
    assert Distinct(list);
    SinglesPairs(list);
    var ps := AllPairs(list);
    hide AllPairs;
    forall i | 0 <= i < |ps|
      ensures ps[i].1 < |blocks| && select(ps[i].1) && ps[i].0 == blocks[ps[i].1] && SingleOf(list[i], blocks, select, ps[i].1)
    {
      var k: nat :| SingleOf(list[i], blocks, select, k);
      assert ps[i] == (list[i].begin, list[i].indexes[0]) == (blocks[k], k);
    }
    forall i, j | 0 <= i < j < |ps| ensures ps[i].1 != ps[j].1 {
      assert list[i] != list[j];
    }
    forall k: nat | select(k) && k < |blocks| ensures (blocks[k], k) in ps {
      var op := Op(blocks[k], blocks[k] + 1, [k]);
      var i :| 0 <= i < |list| && list[i] == op;
      assert ps[i] == (blocks[k], k);
    }
  }

  // ---- the loops

  function Srcs(ops: seq<CopyOp>): (bs: seq<nat>)
    ensures |bs| == |ops| && forall i :: 0 <= i < |ops| ==> bs[i] == ops[i].src
  {
    seq(|ops|, i requires 0 <= i < |ops| => ops[i].src)
  }

  function Dsts(ops: seq<CopyOp>): (bs: seq<nat>)
    ensures |bs| == |ops| && forall i :: 0 <= i < |ops| ==> bs[i] == ops[i].dst
  {
    seq(|ops|, i requires 0 <= i < |ops| => ops[i].dst)
  }

  /** The first loop and the two steps after it: one op for each selected block, sorted and joined. */
  method Prepare(blocks: seq<nat>, select: nat -> bool) returns (joined: seq<Op>)
    ensures Routed(AllPairs(joined), blocks, select) && forall i :: 0 <= i < |joined| ==> joined[i].Ok()
  {
    hide AllPairs, Singles, Routed;
    var list: seq<Op> := [];
    NoSingles(blocks, select);
    for i := 0 to |blocks|
      invariant Singles(list, blocks[..i], select)
    {
      NextSingle(list, blocks, select, i);
      if select(i) {
        list := list + [Op(blocks[i], blocks[i] + 1, [i])];
      }
    }
    assert blocks[..|blocks|] == blocks;
    var sorted := SortBy(list, BeginOf);
    SinglesSorted(list, sorted, blocks, select);
    SinglesRouted(sorted, blocks, select);
    joined := AggregateOps(sorted);
  }

  lemma {:induction false} NoSingles(blocks: seq<nat>, select: nat -> bool)
    ensures Singles([], blocks[..0], select)
  {
  }

  lemma {:induction false} NextSingle(list: seq<Op>, blocks: seq<nat>, select: nat -> bool, i: nat)
    requires i < |blocks| && Singles(list, blocks[..i], select)
    ensures Singles(if select(i) then list + [Op(blocks[i], blocks[i] + 1, [i])] else list, blocks[..i + 1], select)
  {
    NextAllSingle(list, blocks, select, i);
    NextAllThere(list, blocks, select, i);
    NextDistinct(list, blocks, select, i);
    hide AllSingle, AllThere, Distinct;
  }

  lemma {:induction false} NextAllSingle(list: seq<Op>, blocks: seq<nat>, select: nat -> bool, i: nat)
    requires i < |blocks| && AllSingle(list, blocks[..i], select)
    ensures AllSingle(list, blocks[..i + 1], select)
    ensures select(i) ==> AllSingle(list + [Op(blocks[i], blocks[i] + 1, [i])], blocks[..i + 1], select)
  {
    forall j | 0 <= j < |list| ensures Single(list[j], blocks[..i + 1], select) {
      var k: nat :| SingleOf(list[j], blocks[..i], select, k);
      assert SingleOf(list[j], blocks[..i + 1], select, k);
    }
    assert select(i) ==> SingleOf(Op(blocks[i], blocks[i] + 1, [i]), blocks[..i + 1], select, i);
    hide Single;
  }

  lemma {:induction false} NextAllThere(list: seq<Op>, blocks: seq<nat>, select: nat -> bool, i: nat)
    requires i < |blocks| && AllThere(list, blocks[..i], select)
    ensures !select(i) ==> AllThere(list, blocks[..i + 1], select)
    ensures AllThere(list + [Op(blocks[i], blocks[i] + 1, [i])], blocks[..i + 1], select)
  {
    assert forall k :: 0 <= k < i ==> blocks[..i + 1][k] == blocks[..i][k];
  }

  lemma {:induction false} NextDistinct(list: seq<Op>, blocks: seq<nat>, select: nat -> bool, i: nat)
    requires i < |blocks| && AllSingle(list, blocks[..i], select) && Distinct(list)
    ensures Distinct(list + [Op(blocks[i], blocks[i] + 1, [i])])
  {
    forall j | 0 <= j < |list| ensures list[j].indexes != [i] {
      assert Single(list[j], blocks[..i], select);
      var k: nat :| SingleOf(list[j], blocks[..i], select, k);
      assert list[j].indexes[0] == k;
    }
    hide Single, AllSingle;
  }

  ghost function Taken(ps: seq<(nat, nat)>): set<nat> {
    set p | p in ps :: p.1
  }

  lemma {:induction false} PairsPrefix(ops: seq<Op>, r: nat)
    requires r < |ops|
    ensures AllPairs(ops[..r + 1]) == AllPairs(ops[..r]) + ops[r].Pairs() <= AllPairs(ops)
    decreases |ops|
  {
    assert ops[..r + 1][..r] == ops[..r];
    if r + 1 < |ops| {
      PairsPrefix(ops[..|ops| - 1], r);
      assert ops[..|ops| - 1][..r + 1] == ops[..r + 1];
      assert ops[..|ops| - 1][..r] == ops[..r];
    } else {
      assert ops[..r + 1] == ops;
    }
  }

  /** The blocks of one joined op: their buffers are their own, and have not been taken for the ops before. */
  lemma {:induction false} OpRouted(joined: seq<Op>, r: nat, blocks: seq<nat>, select: nat -> bool)
    requires r < |joined| && joined[r].Ok() && Routed(AllPairs(joined), blocks, select)
    ensures var ks, taken := joined[r].indexes, Taken(AllPairs(joined[..r]));
            && NoRepeats(ks) && (forall i :: 0 <= i < |ks| ==> ks[i] !in taken)
            && (forall i :: 0 <= i < |ks| ==> ks[i] < |blocks| && select(ks[i]) && joined[r].begin + i == blocks[ks[i]])
            && Taken(AllPairs(joined[..r + 1])) == taken + Members(ks)
  {
    PairsPrefix(joined, r);
    var before, ps, all := AllPairs(joined[..r]), joined[r].Pairs(), AllPairs(joined);
    hide AllPairs;
    var n, ks := |before|, joined[r].indexes;
    forall i | 0 <= i < |ks| ensures n + i < |all| && all[n + i] == (joined[r].begin + i, ks[i]) && ps[i] == all[n + i] {
      assert (before + ps)[n + i] == ps[i];
    }
    assert before <= all;
    forall i | 0 <= i < |ks| ensures ks[i] !in Taken(before) {
      NotTaken(before, all, n + i);
    }
    forall i, j | 0 <= i < j < |ks| ensures ks[i] != ks[j] {
      assert all[n + i].1 != all[n + j].1;
    }
    TakenMore(before, joined[r]);
  }

  lemma {:induction false} NotTaken(before: seq<(nat, nat)>, all: seq<(nat, nat)>, k: nat)
    requires before <= all && |before| <= k < |all| && forall i, j :: 0 <= i < j < |all| ==> all[i].1 != all[j].1
    ensures all[k].1 !in Taken(before)
  {
    forall p | p in before ensures p.1 != all[k].1 {
      var j :| 0 <= j < |before| && before[j] == p;
      assert all[j] == p;
    }
  }

  lemma {:induction false} TakenMore(before: seq<(nat, nat)>, op: Op)
    ensures Taken(before + op.Pairs()) == Taken(before) + Members(op.indexes)
  {
    var ps := op.Pairs();
    forall k | k in op.indexes ensures k in Taken(before + ps) {
      var i :| 0 <= i < |op.indexes| && op.indexes[i] == k;
      assert ps[i] in before + ps;
    }
    forall k | k in Taken(before + ps) ensures k in Taken(before) || k in op.indexes {
      var p :| p in before + ps && p.1 == k;
      if p !in before {
        var i :| 0 <= i < |ps| && ps[i] == p;
      }
    }
  }

  /** Takes an op's buffers; none has been taken before. */
  method TakeBuffers(op: Op, taken: set<nat>) returns (iovec: seq<nat>, taken': set<nat>)
    requires op.Ok() && NoRepeats(op.indexes) && forall i :: 0 <= i < |op.indexes| ==> op.indexes[i] !in taken
    ensures iovec == op.indexes && taken' == taken + Members(op.indexes)
  {
    iovec, taken' := [], taken;
    for i := 0 to op.end - op.begin
      invariant iovec == op.indexes[..i] && taken' == taken + Members(op.indexes[..i])
    {
      var k := op.indexes[i];
      assert k !in taken';
      assert op.indexes[..i + 1] == op.indexes[..i] + [k];
      iovec, taken' := iovec + [k], taken' + {k};
    }
    assert op.indexes[..|op.indexes|] == op.indexes;
  }

  /** The loop over the results of one call. */
  method Succeeded(success: set<nat>, ks: seq<nat>, results: Option<seq<bool>>) returns (success': set<nat>)
    requires results.Some? ==> |results.value| == |ks|
    ensures forall k :: k in success' <==> k in success || (results.Some? && exists i :: 0 <= i < |ks| && ks[i] == k && results.value[i])
  {
    success' := success;
    if results.None? {
      return;
    }
    for i := 0 to |ks|
      invariant forall k :: k in success' <==> k in success || exists j :: 0 <= j < i && ks[j] == k && results.value[j]
    {
      if results.value[i] {
        success' := success' + {ks[i]};
      }
    }
  }

  lemma {:induction false} NothingFilled(dev: map<Place, Data>, d: nat, ops: seq<CopyOp>, buffer: seq<Data>, joined: seq<Op>)
    ensures AllFilled(dev, d, ops, {}, buffer) && Taken(AllPairs(joined[..0])) == {}
  {
  }

  /** `do_reads`: the buffer of every op counted as read holds what its own block holds. */
  method DoReads(disks: Disks, d: nat, ops: seq<CopyOp>, buffer: array<Data>) returns (success: set<nat>)
    requires buffer.Length == |ops|
    modifies buffer
    ensures AllFilled(disks.dev, d, ops, success, buffer[..])
  {
    hide AllPairs, Routed, AllFilled;
    var joined := Prepare(Srcs(ops), k => true);
    var taken: set<nat> := {};
    success := {};
    NothingFilled(disks.dev, d, ops, buffer[..], joined);
    for r := 0 to |joined|
      invariant taken == Taken(AllPairs(joined[..r])) && success <= taken
      invariant AllFilled(disks.dev, d, ops, success, buffer[..])
    {
      var op := joined[r];
      OpRouted(joined, r, Srcs(ops), k => true);
      var iovec;
      iovec, taken := TakeBuffers(op, taken);
      ghost var buffer0, success0 := buffer[..], success;
      var results := disks.ReadBlocks(d, op.begin, iovec, buffer);
      StillFilled(disks.dev, d, ops, success, buffer0, buffer[..], iovec);
      success := Succeeded(success, iovec, results);
      if results.Some? {
        MoreFilled(disks.dev, d, op.begin, ops, success0, success, buffer[..], iovec, results.value);
      } else {
        assert success == success0;
      }
    }
  }

  ghost predicate AllFilled(dev: map<Place, Data>, d: nat, ops: seq<CopyOp>, success: set<nat>, buffer: seq<Data>) {
    forall k :: k in success ==> k < |ops| && Filled(dev, d, ops[k].src, k, buffer)
  }

  lemma {:induction false} StillFilled(dev: map<Place, Data>, d: nat, ops: seq<CopyOp>, success: set<nat>,
                                       before: seq<Data>, after: seq<Data>, iovec: seq<nat>)
    requires AllFilled(dev, d, ops, success, before) && |after| == |before| && forall k :: k in success ==> k !in iovec
    requires forall k :: 0 <= k < |after| && k !in iovec ==> after[k] == before[k]
    ensures AllFilled(dev, d, ops, success, after)
  {
  }

  lemma {:induction false} MoreFilled(dev: map<Place, Data>, d: nat, begin: nat, ops: seq<CopyOp>, success: set<nat>,
                                      success': set<nat>, buffer: seq<Data>, ks: seq<nat>, oks: seq<bool>)
    requires AllFilled(dev, d, ops, success, buffer) && |oks| == |ks|
    requires forall i :: 0 <= i < |ks| ==> ks[i] < |ops| && ops[ks[i]].src == begin + i
    requires forall i :: 0 <= i < |ks| && oks[i] ==> Filled(dev, d, begin + i, ks[i], buffer)
    requires forall k :: k in success' <==> k in success || exists i :: 0 <= i < |ks| && ks[i] == k && oks[i]
    ensures AllFilled(dev, d, ops, success', buffer)
  {
    hide Filled;
  }

  /** The end of the write of op k: whether it counts as a success, and what its block then holds. */
  datatype Written = Written(k: nat, ok: bool, data: Data)

  /** The blocks after these writes, one by one. */
  function WriteAll(dev: map<Place, Data>, ops: seq<CopyOp>, ws: seq<Written>): map<Place, Data>
    requires forall i :: 0 <= i < |ws| ==> ws[i].k < |ops|
  {
    if ws == [] then dev
    else var n := |ws| - 1; WriteAll(dev, ops, ws[..n])[Place(0, ops[ws[n].k].dst) := ws[n].data]
  }

  function WroteOp(ks: seq<nat>, results: Option<seq<bool>>, written: seq<Data>): (ws: seq<Written>)
    requires |written| == |ks| && (results.Some? ==> |results.value| == |ks|)
    ensures |ws| == |ks|
    ensures forall i :: 0 <= i < |ks| ==> ws[i] == Written(ks[i], results.Some? && results.value[i], written[i])
  {
    seq(|ks|, i requires 0 <= i < |ks| => Written(ks[i], results.Some? && results.value[i], written[i]))
  }

  lemma {:induction false} WriteMore(dev: map<Place, Data>, ops: seq<CopyOp>, ws: seq<Written>, begin: nat, more: seq<Written>, written: seq<Data>)
    requires forall i :: 0 <= i < |ws| ==> ws[i].k < |ops|
    requires |written| == |more|
    requires forall i :: 0 <= i < |more| ==> more[i].k < |ops| && ops[more[i].k].dst == begin + i && more[i].data == written[i]
    ensures WriteAll(dev, ops, ws + more) == Put(WriteAll(dev, ops, ws), 0, begin, written)
    decreases |more|
  {
    hide WriteAll, Put;
    if more == [] {
      assert ws + more == ws;
      PutNone(WriteAll(dev, ops, ws), begin);
    } else {
      var n := |more| - 1;
      WriteMore(dev, ops, ws, begin, more[..n], written[..n]);
      assert (ws + more)[..|ws| + n] == ws + more[..n] && (ws + more)[|ws| + n] == more[n];
      LastWrite(dev, ops, ws + more);
      LastPut(WriteAll(dev, ops, ws), begin, written);
    }
  }

  lemma {:induction false} PutNone(dev: map<Place, Data>, begin: nat)
    ensures Put(dev, 0, begin, []) == dev
  {
  }

  lemma {:induction false} LastPut(dev: map<Place, Data>, begin: nat, written: seq<Data>)
    requires written != []
    ensures var n := |written| - 1; Put(dev, 0, begin, written) == Put(dev, 0, begin, written[..n])[Place(0, begin + n) := written[n]]
  {
  }

  /** Which writes have been made: each selected op's once, if counted with its buffer's data. */
  ghost predicate Wrote(ws: seq<Written>, ops: seq<CopyOp>, done: set<nat>, success: set<nat>, buffer: seq<Data>)
    requires |buffer| == |ops|
  {
    && (forall i :: 0 <= i < |ws| ==> ws[i].k < |ops| && ws[i].k in done && (ws[i].k in success <==> ws[i].ok))
    && (forall i :: 0 <= i < |ws| && ws[i].ok ==> ws[i].data == buffer[ws[i].k])
    && (forall i, j :: 0 <= i < j < |ws| ==> ws[i].k != ws[j].k)
    && (forall k :: k in done ==> exists i :: 0 <= i < |ws| && ws[i].k == k) && success <= done
  }

  lemma {:induction false} NothingWritten(dev: map<Place, Data>, ops: seq<CopyOp>, buffer: seq<Data>, joined: seq<Op>)
    requires |buffer| == |ops|
    ensures Wrote([], ops, {}, {}, buffer) && WriteAll(dev, ops, []) == dev && Taken(AllPairs(joined[..0])) == {}
  {
  }

  /** `do_writes`: the selected ops are written once each, every one from its own buffer into its own block. */
  method DoWrites(disks: Disks, ops: seq<CopyOp>, select: set<nat>, buffer: seq<Data>) returns (success: set<nat>, ghost ws: seq<Written>)
    requires |buffer| == |ops| && forall k :: k in select ==> k < |ops|
    modifies disks
    ensures Wrote(ws, ops, select, success, buffer) && disks.dev == WriteAll(old(disks.dev), ops, ws)
  {
    hide AllPairs, Routed, WriteAll, Put;
    var joined := Prepare(Dsts(ops), k => k in select);
    var taken: set<nat> := {};
    success, ws := {}, [];
    NothingWritten(disks.dev, ops, buffer, joined);
    for r := 0 to |joined|
      invariant taken == Taken(AllPairs(joined[..r]))
      invariant forall i :: 0 <= i < |ws| ==> ws[i].k < |ops|
      invariant Wrote(ws, ops, taken, success, buffer) && disks.dev == WriteAll(old(disks.dev), ops, ws)
    {
      var op := joined[r];
      OpRouted(joined, r, Dsts(ops), k => k in select);
      ghost var taken0, success0 := taken, success;
      var iovec;
      iovec, taken := TakeBuffers(op, taken);
      var bufs := seq(|iovec|, i requires 0 <= i < |iovec| => buffer[iovec[i]]);
      var results;
      ghost var written;
      results, written := disks.WriteBlocks(0, op.begin, bufs);
      success := Succeeded(success, iovec, results);
      ghost var more := WroteOp(iovec, results, written);
      WroteMore(ws, ops, taken0, success0, success, buffer, iovec, more);
      WriteMore(old(disks.dev), ops, ws, op.begin, more, written);
      ws := ws + more;
    }
    assert joined[..|joined|] == joined;
    AllTaken(AllPairs(joined), Dsts(ops), select);
  }

  lemma {:induction false} AllTaken(ps: seq<(nat, nat)>, blocks: seq<nat>, select: set<nat>)
    requires Routed(ps, blocks, k => k in select) && forall k :: k in select ==> k < |blocks|
    ensures Taken(ps) == select
  {
    forall k | k in select ensures k in Taken(ps) {
      assert (blocks[k], k) in ps;
    }
  }

  lemma {:induction false} WroteMore(ws: seq<Written>, ops: seq<CopyOp>, done: set<nat>, success: set<nat>, success': set<nat>,
                                     buffer: seq<Data>, ks: seq<nat>, more: seq<Written>)
    requires |buffer| == |ops| && Wrote(ws, ops, done, success, buffer) && NoRepeats(ks)
    requires forall i :: 0 <= i < |ks| ==> ks[i] < |ops| && ks[i] !in done
    requires |more| == |ks| && forall i :: 0 <= i < |ks| ==> more[i].k == ks[i] && (more[i].ok ==> more[i].data == buffer[ks[i]])
    requires forall k :: k in success' <==> k in success || exists i :: 0 <= i < |ks| && ks[i] == k && more[i].ok
    ensures Wrote(ws + more, ops, done + Members(ks), success', buffer)
  {
    var all, done' := ws + more, done + Members(ks);
    forall i | 0 <= i < |all|
      ensures all[i].k < |ops| && all[i].k in done' && (all[i].k in success' <==> all[i].ok) && (all[i].ok ==> all[i].data == buffer[all[i].k])
    {
      if i >= |ws| {
        assert all[i] == more[i - |ws|];
        assert all[i].k == ks[i - |ws|];
      }
    }
    forall k | k in done' ensures exists i :: 0 <= i < |all| && all[i].k == k {
      if k in done {
        var i :| 0 <= i < |ws| && ws[i].k == k;
        assert all[i] == ws[i];
      } else {
        var i :| 0 <= i < |ks| && ks[i] == k;
        assert all[|ws| + i] == more[i];
      }
    }
    forall i, j | 0 <= i < j < |all| ensures all[i].k != all[j].k {
      if j >= |ws| {
        assert all[j].k == ks[j - |ws|];
        assert i >= |ws| ==> all[i].k == ks[i - |ws|];
      }
    }
  }

  // ---- the loops are steps of the two threads

  lemma {:induction false} Append(job: Job, ss: seq<State>, s: State)
    requires ss != [] && Steps(job, ss) && Step(job, ss[|ss| - 1], s)
    ensures Steps(job, ss + [s]) && (ss + [s])[0] == ss[0] && (ss + [s])[|ss|] == s
  {
    hide Step;
    var all := ss + [s];
    forall i | 0 <= i < |all| - 1 ensures Step(job, all[i], all[i + 1]) {
      assert all[i] == ss[i] && (i + 1 < |ss| ==> all[i + 1] == ss[i + 1]);
    }
  }

  /** What has been read of the first n ops of the chunk. */
  function GotOf(job: Job, s: State, success: set<nat>, n: nat): map<nat, Option<Data>>
    requires s.reading < |job.chunks| && n <= |job.chunks[s.reading]|
    requires forall i: nat :: i < n ==> job.From(s.reading, i) in s.dev
  {
    if n == 0 then map[]
    else GotOf(job, s, success, n - 1)[n - 1 := if n - 1 in success then Some(s.dev[job.From(s.reading, n - 1)]) else None]
  }

  lemma {:induction false} GotKeys(job: Job, s: State, success: set<nat>, n: nat)
    requires s.reading < |job.chunks| && n <= |job.chunks[s.reading]|
    requires forall i: nat :: i < n ==> job.From(s.reading, i) in s.dev
    ensures forall i: nat :: i in GotOf(job, s, success, n) <==> i < n
    ensures forall i: nat :: i < n ==>
              GotOf(job, s, success, n)[i] == if i in success then Some(s.dev[job.From(s.reading, i)]) else None
  {
    if n > 0 {
      GotKeys(job, s, success, n - 1);
    }
  }

  lemma {:induction false} ReadsAreSteps(job: Job, s: State, success: set<nat>, n: nat) returns (ss: seq<State>)
    requires s.reading < |job.chunks| && n <= |job.chunks[s.reading]| && s.got == map[]
    requires forall i: nat :: i < |job.chunks[s.reading]| ==> job.From(s.reading, i) in s.dev
    ensures ss != [] && Steps(job, ss) && ss[0] == s
    ensures var t := ss[|ss| - 1]; t == s.(got := GotOf(job, s, success, n), fate := t.fate)
  {
    if n == 0 {
      ss := [s];
    } else {
      ss := ReadsAreSteps(job, s, success, n - 1);
      var t := ss[|ss| - 1];
      GotKeys(job, s, success, n - 1);
      var a := Read(n - 1, n - 1 in success);
      assert Enabled(job, t, a);
      assert Step(job, t, Next(job, t, a));
      hide Steps, Step;
      Append(job, ss, Next(job, t, a));
      ss := ss + [Next(job, t, a)];
    }
  }

  function WroteMap(ws: seq<Written>): map<nat, bool> {
    if ws == [] then map[] else WroteMap(ws[..|ws| - 1])[ws[|ws| - 1].k := ws[|ws| - 1].ok]
  }

  lemma {:induction false} WroteKeys(ws: seq<Written>)
    requires forall i, j :: 0 <= i < j < |ws| ==> ws[i].k != ws[j].k
    ensures forall k :: k in WroteMap(ws) <==> exists i :: 0 <= i < |ws| && ws[i].k == k
    ensures forall i :: 0 <= i < |ws| ==> WroteMap(ws)[ws[i].k] == ws[i].ok
  {
    hide WroteMap;
    forall k ensures k in WroteMap(ws) <==> exists i :: 0 <= i < |ws| && ws[i].k == k {
      WroteKey(ws, k);
    }
    forall i | 0 <= i < |ws| ensures WroteMap(ws)[ws[i].k] == ws[i].ok {
      WroteOk(ws, i);
    }
  }

  lemma {:induction false} WroteKey(ws: seq<Written>, k: nat)
    ensures k in WroteMap(ws) <==> exists i :: 0 <= i < |ws| && ws[i].k == k
  {
    if ws != [] {
      var n := |ws| - 1;
      WroteKey(ws[..n], k);
      assert forall i :: 0 <= i < n ==> ws[..n][i] == ws[i];
    }
  }

  lemma {:induction false} WroteOk(ws: seq<Written>, i: nat)
    requires i < |ws| && forall i, j :: 0 <= i < j < |ws| ==> ws[i].k != ws[j].k
    ensures ws[i].k in WroteMap(ws) && WroteMap(ws)[ws[i].k] == ws[i].ok
    decreases |ws|
  {
    var n := |ws| - 1;
    if i < n {
      WroteOk(ws[..n], i);
    }
  }

  /** Writes that the writer may make of a message, each op once. */
  ghost predicate May(job: Job, m: Msg, ws: seq<Written>) {
    && m.k < |job.chunks|
    && (forall i :: 0 <= i < |ws| ==> ws[i].k < |job.chunks[m.k]| && ws[i].k in m.bufs)
    && (forall i :: 0 <= i < |ws| && ws[i].ok ==> ws[i].data == m.bufs[ws[i].k])
    && (forall i, j :: 0 <= i < j < |ws| ==> ws[i].k != ws[j].k)
  }

  lemma {:induction false} WritesAreSteps(job: Job, s: State, ws: seq<Written>) returns (ss: seq<State>)
    requires s.writer.Writing? && s.writer.wrote == map[] && May(job, s.writer.msg, ws)
    ensures ss != [] && Steps(job, ss) && ss[0] == s
    ensures var t, m := ss[|ss| - 1], s.writer.msg;
            t == s.(dev := WriteAll(s.dev, job.chunks[m.k], ws), writer := Writing(m, WroteMap(ws)), fate := t.fate)
    decreases |ws|
  {
    if ws == [] {
      ss := [s];
    } else {
      var n := |ws| - 1;
      ss := WritesAreSteps(job, s, ws[..n]);
      var t := ss[|ss| - 1];
      WroteKeys(ws[..n]);
      hide Steps, Step, WriteAll;
      var t' := OneWrite(job, t, ws[n]);
      assert WriteAll(s.dev, job.chunks[s.writer.msg.k], ws) == t'.dev by { LastWrite(s.dev, job.chunks[s.writer.msg.k], ws); }
      Append(job, ss, t');
      ss := ss + [t'];
    }
  }

  lemma {:induction false} LastWrite(dev: map<Place, Data>, ops: seq<CopyOp>, ws: seq<Written>)
    requires ws != [] && forall i :: 0 <= i < |ws| ==> ws[i].k < |ops|
    ensures var n := |ws| - 1; WriteAll(dev, ops, ws) == WriteAll(dev, ops, ws[..n])[Place(0, ops[ws[n].k].dst) := ws[n].data]
  {
  }

  lemma {:induction false} OneWrite(job: Job, t: State, w: Written) returns (t': State)
    requires t.writer.Writing? && job.Has(t.writer.msg.k, w.k) && w.k in t.writer.msg.bufs && w.k !in t.writer.wrote
    requires w.ok ==> w.data == t.writer.msg.bufs[w.k]
    ensures Step(job, t, t')
    ensures t' == t.(dev := t.dev[job.To(t.writer.msg.k, w.k) := w.data], fate := t'.fate,
                     writer := Writing(t.writer.msg, t.writer.wrote[w.k := w.ok]))
  {
    var a := Write(w.k, w.ok, w.data);
    assert Enabled(job, t, a);
    t' := Next(job, t, a);
    assert Step(job, t, t');
  }

  /** The reader's turn at a chunk: a sequence of single reads, after which every buffer counted as read holds what
      its own op is to copy. */
  method ReadChunk(disks: Disks, job: Job, ghost s: State, k: nat) returns (buffer: array<Data>, success: set<nat>, ghost ss: seq<State>)
    requires s.dev == disks.dev && s.reading == k < |job.chunks| && s.got == map[] && job.Inside(s.dev)
    ensures fresh(buffer) && buffer.Length == |job.chunks[k]| && forall i :: i in success ==> i < buffer.Length
    ensures ss != [] && Steps(job, ss) && ss[0] == s
    ensures var t := ss[|ss| - 1];
            && t == s.(got := t.got, fate := t.fate) && (forall i: nat :: i in t.got <==> i < |job.chunks[k]|)
            && Success(t.got) == map i | i in success :: buffer[..][i]
  {
    var ops := job.chunks[k];
    buffer := new Data[|ops|](_ => [0]);
    forall i: nat | i < |ops| ensures job.From(k, i) in s.dev {
      assert job.Has(k, i);
    }
    success := DoReads(disks, if job.inFile then 0 else 1, ops, buffer);
    ss := ReadsAreSteps(job, s, success, |ops|);
    GotKeys(job, s, success, |ops|);
  }

  /** The writer's turn at a chunk: a sequence of single writes, each of an op's own buffer to its own block. */
  method WriteChunk(disks: Disks, job: Job, ghost s: State, k: nat, select: set<nat>, buffer: array<Data>)
    returns (success: set<nat>, ghost ss: seq<State>)
    requires k < |job.chunks| && buffer.Length == |job.chunks[k]| && forall i :: i in select ==> i < buffer.Length
    requires s.dev == disks.dev && s.writer == Writing(Msg(k, map i | i in select :: buffer[..][i]), map[])
    modifies disks
    ensures ss != [] && Steps(job, ss) && ss[0] == s
    ensures var t := ss[|ss| - 1];
            && t == s.(dev := disks.dev, writer := t.writer, fate := t.fate)
            && t.writer.Writing? && t.writer.msg == s.writer.msg && t.writer.wrote.Keys == select
            && forall i :: i in select ==> (t.writer.wrote[i] <==> i in success)
  {
    var ops := job.chunks[k];
    ghost var ws;
    success, ws := DoWrites(disks, ops, select, buffer[..]);
    ss := WritesAreSteps(job, s, ws);
    WroteKeys(ws);
  }
}
