/** The leaf and internal node builder of src/pdata/btree_builder.rs: what each elementary step does to the ledger, and
    the builder's methods, made of such steps. */
module NodeBuilders {
  import opened Wrappers
  import opened SpaceMaps
  import opened Ledger
  import opened Reaches
  import Spares

  /** The nodes written so far and the metadata space map.  `blocks` is the plain map from block number
      to contents that the write batcher refines (module WriteBatchers). */
  class Batcher {
    const sm: SpaceMap
    var blocks: map<nat, Node>

    constructor (sm: SpaceMap)
      ensures this.sm == sm && blocks == map[]
    {
      this.sm, blocks := sm, map[];
    }

    /** Allocates a block and writes the node there. */
    method WriteNode(node: Node) returns (loc: Option<nat>)
      requires sm.Valid()
      modifies this, sm
      ensures sm.Valid()
      ensures loc.None? <==> 0 !in old(sm.counts)
      ensures loc.None? ==> sm.counts == old(sm.counts) && blocks == old(blocks)
      ensures loc.Some? ==> loc.value < |old(sm.counts)| && old(sm.counts)[loc.value] == 0
                            && sm.counts == old(sm.counts)[loc.value := 1]
                            && blocks == old(blocks)[loc.value := node]
    {
      loc := sm.Alloc();
      if loc.Some? {
        blocks := blocks[loc.value := node];
      }
    }

    /** Reads a node of the expected kind; an unwritten block or keys out of order are errors. */
    method ReadNode(leaf: bool, b: nat) returns (es: Option<seq<Entry>>)
      requires b in blocks ==> blocks[b].leaf == leaf
      ensures es.Some? == (b in blocks && StrictlyAscending(blocks[b].entries))
      ensures es.Some? ==> es.value == blocks[b].entries
    {
      es := if b in blocks && StrictlyAscending(blocks[b].entries) then Some(blocks[b].entries) else None;
    }
  }

  /** A built or prebuilt node.  Prebuilt nodes are marked shared: unpacking one must count its values. */
  datatype Summary = Summary(block: nat, key: nat, nrEntries: nat, shared: bool)

  function Refs(nodes: seq<Summary>): (es: seq<Entry>)
    ensures |es| == |nodes|
  {
    seq(|nodes|, i requires 0 <= i < |nodes| => Entry(nodes[i].key, Loc(nodes[i].block)))
  }

  function EntriesAt(blocks: map<nat, Node>, b: nat): seq<Entry> {
    if b in blocks then blocks[b].entries else []
  }

  /** The entries of the nodes, in order. */
  ghost function Flat(blocks: map<nat, Node>, nodes: seq<Summary>): seq<Entry> {
    if nodes == [] then []
    else Flat(blocks, nodes[..|nodes| - 1]) + EntriesAt(blocks, nodes[|nodes| - 1].block)
  }

  lemma {:induction false} FlatPush(blocks: map<nat, Node>, nodes: seq<Summary>, n: Summary)
    ensures Flat(blocks, nodes + [n]) == Flat(blocks, nodes) + EntriesAt(blocks, n.block)
  {
    assert (nodes + [n])[..|nodes|] == nodes;
  }

  lemma {:induction false} FlatConcat(blocks: map<nat, Node>, a: seq<Summary>, b: seq<Summary>)
    ensures Flat(blocks, a + b) == Flat(blocks, a) + Flat(blocks, b)
  {
    if b == [] {
      assert a + b == a;
    } else {
      var n := |b| - 1;
      assert a + b == (a + b[..n]) + [b[n]];
      FlatPush(blocks, a + b[..n], b[n]);
      FlatConcat(blocks, a, b[..n]);
    }
  }

  lemma {:induction false} FlatFrame(blocks: map<nat, Node>, blocks': map<nat, Node>, nodes: seq<Summary>)
    requires forall i :: 0 <= i < |nodes| ==> EntriesAt(blocks, nodes[i].block) == EntriesAt(blocks', nodes[i].block)
    ensures Flat(blocks, nodes) == Flat(blocks', nodes)
  {
    if nodes != [] {
      FlatFrame(blocks, blocks', nodes[..|nodes| - 1]);
    }
  }

  lemma {:induction false} RefsConcat(a: seq<Summary>, b: seq<Summary>, t: Target)
    ensures Occ(Refs(a + b), t) == Occ(Refs(a), t) + Occ(Refs(b), t)
  {
    assert Refs(a + b) == Refs(a) + Refs(b);
    OccConcat(Refs(a), Refs(b), t);
  }

  lemma {:induction false} RefsOne(n: Summary, t: Target)
    ensures Occ(Refs([n]), t) == if Meta(n.block) == t then 1 else 0
  {
    assert Refs([n]) == [Entry(n.key, Loc(n.block))];
    OccOne(Entry(n.key, Loc(n.block)), t);
  }

  lemma RefsMember(nodes: seq<Summary>, i: nat)
    requires i < |nodes|
    ensures Occ(Refs(nodes), Meta(nodes[i].block)) >= 1
  {
    OccMember(Refs(nodes), i, Meta(nodes[i].block));
  }

  /** The summary agrees with the node in its block, and the block is in use. */
  ghost predicate Describes(counts: seq<nat>, blocks: map<nat, Node>, leaf: bool, max: nat, n: Summary) {
    && n.block < |counts| && counts[n.block] > 0
    && n.block in blocks && blocks[n.block].leaf == leaf
    && |blocks[n.block].entries| == n.nrEntries <= max
    && n.key == FirstKey(blocks[n.block].entries)
  }

  /** The list is what `complete` hands over: at least one node, and no node of several under half full. */
  ghost predicate WellFilled(nodes: seq<Summary>, max: nat) {
    |nodes| >= 1 && (|nodes| > 1 ==> forall i :: 0 <= i < |nodes| ==> nodes[i].nrEntries >= max / 2)
  }

  /** Changing the count of a block that stays in use changes its own balance only. */
  lemma CountChange(counts: seq<nat>, data: seq<nat>, blocks: map<nat, Node>, b: nat, n: nat, t: Target)
    requires b < |counts| && counts[b] > 0 && n > 0
    ensures Balance(counts[b := n], data, blocks, t)
            == Balance(counts, data, blocks, t) + if t == Meta(b) then n - counts[b] else 0
  {
    LiveChange(counts, blocks, counts[b := n], blocks, b, t);
  }

  /** data' is data with every mapped value of es counted once more. */
  ghost predicate Counted(data: seq<nat>, data': seq<nat>, es: seq<Entry>) {
    && |data| == |data'|
    && (forall i :: 0 <= i < |es| && es[i].val.Mapped? ==> es[i].val.block < |data|)
    && forall d :: 0 <= d < |data| ==> data'[d] == data[d] + Occ(es, Data(d))
  }

  lemma {:induction false} CountedBalance(counts: seq<nat>, data: seq<nat>, data': seq<nat>, blocks: map<nat, Node>, es: seq<Entry>, t: Target)
    requires Counted(data, data', es) && AllMapped(es)
    ensures Balance(counts, data', blocks, t) == Balance(counts, data, blocks, t) + Occ(es, t)
  {
    if t.Meta? || t.d >= |data| {
      OccAbsent(es, t);
    }
  }

  /** A builder's fixed parameters: LeafIO or InternalIO, calc_max_entries, and the `shared` mark it
      puts on the nodes it writes. */
  datatype Config = Config(leaf: bool, max: nat, shared: bool) {
    ghost predicate Valid() {
      max >= 3 && max % 3 == 0 && (shared ==> leaf)
    }
  }

  /** How many of the nodes a builder wrote itself. */
  ghost function OwnCount(c: Config, nodes: seq<Summary>): nat {
    if nodes == [] then 0
    else OwnCount(c, nodes[..|nodes| - 1]) + if c.shared || !nodes[|nodes| - 1].shared then 1 else 0
  }

  lemma {:induction false} OwnCountPush(c: Config, nodes: seq<Summary>, n: Summary)
    ensures OwnCount(c, nodes + [n]) == OwnCount(c, nodes) + if c.shared || !n.shared then 1 else 0
  {
    assert (nodes + [n])[..|nodes|] == nodes;
  }

  /** Own nodes that are half full are few. */
  lemma {:induction false} OwnFew(c: Config, blocks: map<nat, Node>, nodes: seq<Summary>)
    requires c.Valid() && forall i :: 0 <= i < |nodes| ==> |EntriesAt(blocks, nodes[i].block)| >= c.max / 2
    ensures OwnCount(c, nodes) <= Spares.Nodes(c.max / 2, |Flat(blocks, nodes)|)
  {
    if nodes != [] {
      var k := |nodes| - 1;
      OwnFew(c, blocks, nodes[..k]);
      var before, all := |Flat(blocks, nodes[..k])|, |Flat(blocks, nodes)|;
      Spares.NodesGrows(c.max / 2, before, all - c.max / 2);
    }
  }

  /** Everything a builder works on: both space maps' counts, the written blocks, its queue and its nodes. */
  datatype State = State(counts: seq<nat>, data: seq<nat>, blocks: map<nat, Node>,
                         values: seq<Entry>, nodes: seq<Summary>)
  {
    /** References to t that are counted but held neither by nodes in use nor by the builder. */
    ghost function Outside(t: Target): int {
      Balance(counts, data, blocks, t) - Occ(values, t) - Occ(Refs(nodes), t)
    }

    /** What has been pushed: the entries of the nodes, then the values still queued. */
    ghost function Contents(): seq<Entry> {
      Flat(blocks, nodes) + values
    }

    /** Node i was written by the builder itself, so nothing else refers to its block. */
    ghost predicate Owned(c: Config, i: nat)
      requires i < |nodes|
    {
      c.shared || !nodes[i].shared
    }

    ghost predicate OwnBlock(c: Config, b: nat) {
      exists i :: 0 <= i < |nodes| && Owned(c, i) && nodes[i].block == b
    }

    ghost predicate OwnedOnce(c: Config) {
      && (forall i :: 0 <= i < |nodes| && Owned(c, i) ==> nodes[i].block < |counts| && counts[nodes[i].block] == 1)
      && (forall i, j :: 0 <= i < |nodes| && 0 <= j < |nodes| && i != j && Owned(c, i) ==>
            nodes[j].block != nodes[i].block)
    }

    /** Prebuilt nodes hold mappings and are held by someone else too. */
    ghost predicate PrebuiltHeld(c: Config) {
      forall i :: 0 <= i < |nodes| && !Owned(c, i) ==>
        c.leaf && AllMapped(EntriesAt(blocks, nodes[i].block)) && Outside(Meta(nodes[i].block)) >= 1
    }

    ghost predicate Described(c: Config) {
      forall i :: 0 <= i < |nodes| ==> Describes(counts, blocks, c.leaf, c.max, nodes[i])
    }

    /** A builder of shared leaves marks them all shared. */
    ghost predicate Marked(c: Config) {
      c.shared ==> forall i :: 0 <= i < |nodes| ==> nodes[i].shared
    }

    ghost predicate Inv(c: Config) {
      Described(c) && OwnedOnce(c) && PrebuiltHeld(c) && Marked(c)
    }

    /** How full the queue and the nodes are between calls. */
    ghost predicate Fill(c: Config) {
      && |values| <= 2 * c.max
         // only a lone first node, with nothing behind it, may be under half full
      && ((values == [] && |nodes| == 1) || HalfFull(c))
         // a builder of shared leaves keeps enough queued never to take one of its own leaves back
      && (c.shared && nodes != [] ==> |values| > c.max && HalfFull(c))
    }

    ghost predicate AllOwned(c: Config) {
      forall i :: 0 <= i < |nodes| ==> Owned(c, i)
    }

    ghost function Free(): nat {
      Spares.Free(counts)
    }

    /** How far every count is from the largest. */
    ghost function Head(): int {
      Spares.Head(counts, data)
    }

    /** The unused blocks and those of the builder's own nodes: what one takes the other gives back. */
    ghost function Blocks(c: Config): nat {
      Free() + OwnCount(c, nodes)
    }

    /** There are blocks for a builder's nodes of n entries in all, whatever it has emitted of them. */
    ghost predicate Enough(c: Config, n: nat) {
      Blocks(c) >= Spares.Nodes(c.max / 2, n) + 3
    }

    /** A lone foreign node with nothing behind it may have to be unpacked. */
    ghost function Lone(c: Config): nat {
      if values == [] && |nodes| == 1 && !Owned(c, 0) then c.max else 0
    }

    /** No more references are held than counted. */
    ghost predicate Covered() {
      forall t :: Outside(t) >= 0
    }

    /** What has been pushed is in order, and nodes taken back can be counted. */
    ghost predicate Smooth(c: Config) {
      StrictlyAscending(Contents()) && (Covered() || AllOwned(c))
    }

    ghost predicate HalfFull(c: Config) {
      forall i :: 0 <= i < |nodes| ==> nodes[i].nrEntries >= c.max / 2
    }
  }

  /** Every count that is not accounted for by live nodes or the builder stays as it was. */
  ghost predicate SameOutside(s: State, s': State) {
    forall t :: s'.Outside(t) == s.Outside(t)
  }

  lemma {:induction false} FewerCounts(s: State, s': State)
    requires |s'.counts| == |s.counts| && s'.blocks == s.blocks
    requires forall b :: 0 <= b < |s.counts| && s'.counts[b] > 0 ==> s.counts[b] > 0
    ensures Ranked(s.counts, s.blocks) ==> Ranked(s'.counts, s'.blocks)
  {
    if Ranked(s.counts, s.blocks) {
      FewerRanked(s.counts, s.blocks, s'.counts);
    }
  }

  /** As long as all references held are counted, no circle of references comes about. */
  ghost predicate Grounds(s: State, s': State) {
    && (forall t :: s'.Outside(t) <= s.Outside(t))
    && (s'.Covered() && Ranked(s.counts, s.blocks) ==> Ranked(s'.counts, s'.blocks))
  }

  lemma {:induction false} GroundsTrans(s0: State, s1: State, s2: State)
    requires Grounds(s0, s1) && Grounds(s1, s2)
    ensures Grounds(s0, s2)
  {
    hide State.Outside, Ranked;
    if s2.Covered() {
      forall t ensures s1.Outside(t) >= 0 {
        assert s2.Outside(t) <= s1.Outside(t) && s2.Outside(t) >= 0;
      }
    }
  }

  /** Everything in use that is not owned stays in use, keeps its contents and stays unowned. */
  ghost predicate Undisturbed(c: Config, s: State, s': State) {
    && |s.counts| == |s'.counts| && Grounds(s, s')
    && forall b :: 0 <= b < |s.counts| && s.counts[b] > 0 && !s.OwnBlock(c, b) ==>
         && s'.counts[b] > 0 && !s'.OwnBlock(c, b)
         && (b in s.blocks <==> b in s'.blocks) && (b in s.blocks ==> s.blocks[b] == s'.blocks[b])
  }

  ghost predicate Step(c: Config, s: State, s': State) {
    SameOutside(s, s') && Undisturbed(c, s, s')
  }

  /** The state after the first n queued values are written to the unused block loc. */
  ghost function Emitted(c: Config, s: State, n: nat, loc: nat): State
    requires n <= |s.values| && loc < |s.counts|
  {
    s.(counts := s.counts[loc := 1],
       blocks := s.blocks[loc := Node(c.leaf, s.values[..n])],
       values := s.values[n..],
       nodes := s.nodes + [Summary(loc, FirstKey(s.values[..n]), n, c.shared)])
  }

  lemma EmitOutside(c: Config, s: State, n: nat, loc: nat, t: Target)
    requires n <= |s.values| && loc < |s.counts| && s.counts[loc] == 0
    ensures Emitted(c, s, n, loc).Outside(t) == s.Outside(t)
  {
    var s' := Emitted(c, s, n, loc);
    LiveChange(s.counts, s.blocks, s'.counts, s'.blocks, loc, t);
    assert s.values == s.values[..n] + s.values[n..];
    OccConcat(s.values[..n], s.values[n..], t);
    RefsConcat(s.nodes, [s'.nodes[|s.nodes|]], t);
    RefsOne(s'.nodes[|s.nodes|], t);
  }

  lemma EmitInv(c: Config, s: State, n: nat, loc: nat)
    requires s.Inv(c) && n <= |s.values| && n <= c.max && loc < |s.counts| && s.counts[loc] == 0
    ensures Emitted(c, s, n, loc).Inv(c)
  {
    hide State.Outside, Occ;
    var s' := Emitted(c, s, n, loc);
    assert forall i :: 0 <= i < |s.nodes| ==> s'.nodes[i] == s.nodes[i] && s.nodes[i].block != loc;
    assert s'.Marked(c);
    assert s'.Described(c);
    assert s'.OwnedOnce(c);
    forall i | 0 <= i < |s'.nodes| && !s'.Owned(c, i)
      ensures c.leaf && AllMapped(EntriesAt(s'.blocks, s'.nodes[i].block)) && s'.Outside(Meta(s'.nodes[i].block)) >= 1
    {
      assert i < |s.nodes| && !s.Owned(c, i);
      EmitOutside(c, s, n, loc, Meta(s.nodes[i].block));
    }
  }

  lemma EmitContents(c: Config, s: State, n: nat, loc: nat)
    requires s.Described(c) && n <= |s.values| && loc < |s.counts| && s.counts[loc] == 0
    ensures Emitted(c, s, n, loc).Contents() == s.Contents()
  {
    var s' := Emitted(c, s, n, loc);
    forall i | 0 <= i < |s.nodes| ensures EntriesAt(s.blocks, s.nodes[i].block) == EntriesAt(s'.blocks, s.nodes[i].block) {
      assert s.nodes[i].block != loc;
    }
    hide Flat, State.Described;
    FlatFrame(s.blocks, s'.blocks, s.nodes);
    FlatPush(s'.blocks, s.nodes, s'.nodes[|s.nodes|]);
    Regroup(Flat(s.blocks, s.nodes), s.values, n);
  }

  lemma {:induction false} Regroup(before: seq<Entry>, values: seq<Entry>, n: nat)
    requires n <= |values|
    ensures before + values[..n] + values[n..] == before + values
  {
    assert values == values[..n] + values[n..];
  }

  /** A node is written where nothing in use, and none of the values, refers to. */
  lemma {:induction false} EmitGrounds(c: Config, s: State, n: nat, loc: nat)
    requires n <= |s.values| && loc < |s.counts| && s.counts[loc] == 0 && SameOutside(s, Emitted(c, s, n, loc))
    ensures Grounds(s, Emitted(c, s, n, loc))
  {
    var s' := Emitted(c, s, n, loc);
    if s'.Covered() && Ranked(s.counts, s.blocks) {
      var t := Meta(loc);
      assert s'.Outside(t) == s.Outside(t) && s'.Outside(t) >= 0;
      assert s.values == s.values[..n] + s.values[n..];
      OccConcat(s.values[..n], s.values[n..], t);
      OccRefers(s.values[..n], loc);
      hide Ranked, Live;
      WriteRanked(s.counts, s.blocks, loc, Node(c.leaf, s.values[..n]));
    }
  }

  lemma EmitStep(c: Config, s: State, n: nat, loc: nat)
    requires n <= |s.values| && loc < |s.counts| && s.counts[loc] == 0
    ensures Step(c, s, Emitted(c, s, n, loc))
  {
    hide Grounds;
    var s' := Emitted(c, s, n, loc);
    forall t ensures s'.Outside(t) == s.Outside(t) {
      EmitOutside(c, s, n, loc, t);
    }
    EmitGrounds(c, s, n, loc);
    forall b | 0 <= b < |s.counts| && s.counts[b] > 0 && !s.OwnBlock(c, b) ensures !s'.OwnBlock(c, b) {
      assert forall i :: 0 <= i < |s.nodes| ==> s'.nodes[i] == s.nodes[i];
      assert forall i :: 0 <= i < |s.nodes| ==> (s'.Owned(c, i) <==> s.Owned(c, i));
    }
  }

  /** The state after the last node is popped and its entries prepended to the queue; data is what the
      value counts have become. */
  ghost function TakenBack(s: State, data: seq<nat>): State
    requires s.nodes != [] && s.nodes[|s.nodes| - 1].block < |s.counts|
    requires s.counts[s.nodes[|s.nodes| - 1].block] > 0
  {
    var n := s.nodes[|s.nodes| - 1];
    s.(counts := s.counts[n.block := s.counts[n.block] - 1], data := data,
       values := EntriesAt(s.blocks, n.block) + s.values, nodes := s.nodes[..|s.nodes| - 1])
  }

  /** An owned node's values carry their counts with them; a prebuilt node's values are counted again. */
  ghost predicate TakeBackCounts(c: Config, s: State, data: seq<nat>)
    requires s.nodes != []
  {
    var i := |s.nodes| - 1;
    if s.Owned(c, i) then data == s.data else Counted(s.data, data, EntriesAt(s.blocks, s.nodes[i].block))
  }

  lemma HeldElsewhere(s: State, b: nat, i: nat)
    requires i < |s.nodes| && s.nodes[i].block == b < |s.counts| && s.Outside(Meta(b)) >= 1
    ensures s.counts[b] >= 2
  {
    RefsMember(s.nodes, i);
  }

  lemma NodeFits(c: Config, s: State, i: nat)
    requires s.Inv(c) && i < |s.nodes|
    ensures s.nodes[i].nrEntries <= c.max
  {
  }

  lemma PrebuiltIsMapped(c: Config, s: State, i: nat)
    requires s.Inv(c) && i < |s.nodes| && !s.Owned(c, i)
    ensures AllMapped(EntriesAt(s.blocks, s.nodes[i].block))
  {
  }

  lemma TakeBackOutside(c: Config, s: State, data: seq<nat>, t: Target)
    requires s.nodes != [] && s.Inv(c) && TakeBackCounts(c, s, data)
    ensures TakenBack(s, data).Outside(t) == s.Outside(t)
  {
    var k := |s.nodes| - 1;
    var n := s.nodes[k];
    var s' := TakenBack(s, data);
    var es := EntriesAt(s.blocks, n.block);
    assert s.nodes == s.nodes[..k] + [n];
    RefsConcat(s.nodes[..k], [n], t);
    RefsOne(n, t);
    OccConcat(es, s.values, t);
    if s.Owned(c, k) {
      LiveChange(s.counts, s.blocks, s'.counts, s.blocks, n.block, t);
    } else {
      HeldElsewhere(s, n.block, k);
      CountChange(s.counts, s.data, s.blocks, n.block, s.counts[n.block] - 1, t);
      CountedBalance(s'.counts, s.data, data, s.blocks, es, t);
    }
  }

  lemma TakeBackInv(c: Config, s: State, data: seq<nat>)
    requires s.nodes != [] && s.Inv(c) && TakeBackCounts(c, s, data)
    ensures TakenBack(s, data).Inv(c)
  {
    var k := |s.nodes| - 1;
    hide State.Outside, Occ;
    var s' := TakenBack(s, data);
    assert forall i :: 0 <= i < k ==> s'.nodes[i] == s.nodes[i];
    if !s.Owned(c, k) {
      HeldElsewhere(s, s.nodes[k].block, k);
    }
    assert s'.Described(c);
    assert s'.OwnedOnce(c);
    forall i | 0 <= i < k && !s'.Owned(c, i)
      ensures c.leaf && AllMapped(EntriesAt(s'.blocks, s'.nodes[i].block)) && s'.Outside(Meta(s'.nodes[i].block)) >= 1
    {
      assert !s.Owned(c, i);
      TakeBackOutside(c, s, data, Meta(s.nodes[i].block));
    }
  }

  lemma TakeBackUndisturbed(c: Config, s: State, data: seq<nat>)
    requires s.nodes != [] && s.Inv(c) && TakeBackCounts(c, s, data)
    ensures Undisturbed(c, s, TakenBack(s, data))
  {
    hide State.Outside, Occ, Ranked;
    var k := |s.nodes| - 1;
    var s' := TakenBack(s, data);
    if !s.Owned(c, k) {
      HeldElsewhere(s, s.nodes[k].block, k);
    }
    forall t ensures s'.Outside(t) <= s.Outside(t) {
      TakeBackOutside(c, s, data, t);
    }
    FewerCounts(s, s');
    assert forall i :: 0 <= i < k ==> s'.nodes[i] == s.nodes[i];
    assert forall i :: 0 <= i < k ==> (s'.Owned(c, i) <==> s.Owned(c, i));
    assert forall b :: s'.OwnBlock(c, b) ==> s.OwnBlock(c, b);
    assert s.Owned(c, k) ==> s.OwnBlock(c, s.nodes[k].block);
  }

  lemma TakeBackStep(c: Config, s: State, data: seq<nat>)
    requires s.nodes != [] && s.Inv(c) && TakeBackCounts(c, s, data)
    ensures Step(c, s, TakenBack(s, data)) && TakenBack(s, data).Contents() == s.Contents()
  {
    hide State.Outside, State.PrebuiltHeld, State.OwnedOnce, Undisturbed;
    forall t ensures TakenBack(s, data).Outside(t) == s.Outside(t) {
      TakeBackOutside(c, s, data, t);
    }
    TakeBackUndisturbed(c, s, data);
  }

  /** The state after more entries are queued and the value counts have become data. */
  ghost function Queued(s: State, es: seq<Entry>, data: seq<nat>): State {
    s.(values := s.values + es, data := data)
  }

  lemma {:induction false} QueueOutside(s: State, es: seq<Entry>, data: seq<nat>, t: Target)
    requires (AllMapped(es) && Counted(s.data, data, es)) || (AllLoc(es) && data == s.data)
    ensures Queued(s, es, data).Outside(t) == s.Outside(t) - if AllMapped(es) then 0 else Occ(es, t)
  {
    OccConcat(s.values, es, t);
    if AllMapped(es) && Counted(s.data, data, es) {
      CountedBalance(s.counts, s.data, data, s.blocks, es, t);
    }
  }

  lemma QueueKeeps(c: Config, s: State, es: seq<Entry>, data: seq<nat>)
    requires s.Inv(c)
    requires (AllMapped(es) && Counted(s.data, data, es)) ||
             (AllLoc(es) && data == s.data && s.AllOwned(c))
    ensures var s' := Queued(s, es, data);
            s'.Inv(c) && s'.Contents() == s.Contents() + es && Undisturbed(c, s, s')
  {
    var s' := Queued(s, es, data);
    forall t ensures s'.Outside(t) <= s.Outside(t) {
      QueueOutside(s, es, data, t);
    }
    assert Flat(s.blocks, s.nodes) + (s.values + es) == Flat(s.blocks, s.nodes) + s.values + es;
    assert forall i :: 0 <= i < |s.nodes| ==> (s'.Owned(c, i) <==> s.Owned(c, i));
    assert forall b :: s'.OwnBlock(c, b) ==> s.OwnBlock(c, b);
    forall i | 0 <= i < |s.nodes| && !s'.Owned(c, i) ensures s'.Outside(Meta(s.nodes[i].block)) >= 1 {
      QueueOutside(s, es, data, Meta(s.nodes[i].block));
    }
  }

  /** A prebuilt node that may be pushed: it holds mappings and someone else keeps it alive. */
  ghost predicate Pushable(c: Config, s: State, n: Summary) {
    && n.shared && Describes(s.counts, s.blocks, c.leaf, c.max, n)
    && AllMapped(s.blocks[n.block].entries) && s.Outside(Meta(n.block)) >= 1
  }

  /** The state after a prebuilt node is used as it is. */
  ghost function Adopted(s: State, n: Summary): State
    requires n.block < |s.counts|
  {
    s.(counts := s.counts[n.block := s.counts[n.block] + 1], nodes := s.nodes + [n])
  }

  lemma AdoptOutside(s: State, n: Summary, t: Target)
    requires n.block < |s.counts| && s.counts[n.block] > 0
    ensures Adopted(s, n).Outside(t) == s.Outside(t)
  {
    CountChange(s.counts, s.data, s.blocks, n.block, s.counts[n.block] + 1, t);
    RefsConcat(s.nodes, [n], t);
    RefsOne(n, t);
  }

  lemma NotOwned(c: Config, s: State, b: nat)
    requires s.Inv(c) && s.Outside(Meta(b)) >= 1
    ensures !s.OwnBlock(c, b)
  {
    forall i | 0 <= i < |s.nodes| && s.Owned(c, i) ensures s.nodes[i].block != b {
      if s.nodes[i].block == b {
        HeldElsewhere(s, b, i);
      }
    }
  }

  lemma AdoptInv(c: Config, s: State, n: Summary)
    requires s.Inv(c) && Pushable(c, s, n) && c.leaf && !c.shared
    ensures Adopted(s, n).Inv(c)
  {
    hide State.Outside, Occ;
    var s' := Adopted(s, n);
    NotOwned(c, s, n.block);
    assert forall i :: 0 <= i < |s.nodes| ==> s'.nodes[i] == s.nodes[i];
    assert s'.Marked(c);
    assert s'.Described(c);
    assert s'.OwnedOnce(c);
    forall i | 0 <= i < |s'.nodes| && !s'.Owned(c, i)
      ensures c.leaf && AllMapped(EntriesAt(s'.blocks, s'.nodes[i].block)) && s'.Outside(Meta(s'.nodes[i].block)) >= 1
    {
      AdoptOutside(s, n, Meta(s'.nodes[i].block));
    }
  }

  lemma AdoptUndisturbed(c: Config, s: State, n: Summary)
    requires s.Inv(c) && Pushable(c, s, n) && c.leaf && !c.shared
    ensures Undisturbed(c, s, Adopted(s, n))
  {
    hide State.Outside, State.Inv, Ranked;
    var s' := Adopted(s, n);
    forall t ensures s'.Outside(t) <= s.Outside(t) {
      AdoptOutside(s, n, t);
    }
    FewerCounts(s, s');
    assert forall i :: 0 <= i < |s.nodes| ==> s'.nodes[i] == s.nodes[i];
    assert forall b :: s'.OwnBlock(c, b) ==> s.OwnBlock(c, b);
  }

  lemma AdoptStep(c: Config, s: State, n: Summary)
    requires s.Inv(c) && Pushable(c, s, n) && c.leaf && !c.shared
    ensures Step(c, s, Adopted(s, n))
    ensures s.values == [] ==> Adopted(s, n).Contents() == s.Contents() + s.blocks[n.block].entries
  {
    hide State.Outside, State.Inv, Undisturbed;
    forall t ensures Adopted(s, n).Outside(t) == s.Outside(t) {
      AdoptOutside(s, n, t);
    }
    AdoptUndisturbed(c, s, n);
    FlatPush(s.blocks, s.nodes, n);
  }

  /** One more prebuilt node used as it is. */
  lemma AdoptMore(c: Config, s0: State, s: State, ns: seq<Summary>, i: nat)
    requires s0.Inv(c) && s.Inv(c) && Step(c, s0, s) && c.leaf && !c.shared && s.values == [] && i < |ns|
    requires Pushable(c, s0, ns[i]) && s.Contents() == s0.Contents() + Flat(s.blocks, ns[..i])
    ensures Pushable(c, s, ns[i])
    ensures var s' := Adopted(s, ns[i]);
            s'.Inv(c) && Step(c, s0, s') && s'.Contents() == s0.Contents() + Flat(s'.blocks, ns[..i + 1])
  {
    hide State.Inv, State.Contents, Undisturbed, State.Outside, SameOutside;
    StaysPushable(c, s0, s, ns[i]);
    AdoptInv(c, s, ns[i]);
    AdoptStep(c, s, ns[i]);
    StepTrans(c, s0, s, Adopted(s, ns[i]));
    assert ns[..i + 1] == ns[..i] + [ns[i]];
    FlatPush(s.blocks, ns[..i], ns[i]);
  }

  lemma StepRefl(c: Config, s: State)
    ensures Step(c, s, s)
  {
  }

  lemma StepTrans(c: Config, s0: State, s1: State, s2: State)
    requires Step(c, s0, s1) && Step(c, s1, s2)
    ensures Step(c, s0, s2)
  {
    hide State.Outside, Grounds;
    GroundsTrans(s0, s1, s2);
  }

  lemma UndisturbedTrans(c: Config, s0: State, s1: State, s2: State)
    requires Undisturbed(c, s0, s1) && Undisturbed(c, s1, s2)
    ensures Undisturbed(c, s0, s2)
  {
    hide Grounds;
    GroundsTrans(s0, s1, s2);
  }

  /** A node someone else keeps alive stays pushable. */
  lemma StaysPushable(c: Config, s: State, s': State, n: Summary)
    requires s.Inv(c) && Step(c, s, s') && Pushable(c, s, n)
    ensures Pushable(c, s', n)
  {
    NotOwned(c, s, n.block);
    assert s'.Outside(Meta(n.block)) == s.Outside(Meta(n.block));
  }

  /** Prebuilt nodes keep their contents while the builder works. */
  lemma {:induction false} FlatPushable(c: Config, s: State, s': State, ns: seq<Summary>)
    requires s.Inv(c) && Step(c, s, s') && forall i :: 0 <= i < |ns| ==> Pushable(c, s, ns[i])
    ensures Flat(s'.blocks, ns) == Flat(s.blocks, ns)
  {
    forall i | 0 <= i < |ns| ensures EntriesAt(s.blocks, ns[i].block) == EntriesAt(s'.blocks, ns[i].block) {
      NotOwned(c, s, ns[i].block);
    }
    FlatFrame(s.blocks, s'.blocks, ns);
  }

  // ---- when nothing fails

  /** The values can be counted: they are inside the device and their counts stay within bounds. */
  ghost predicate Countable(data: seq<nat>, es: seq<Entry>) {
    forall i :: 0 <= i < |es| && es[i].val.Mapped? ==>
      es[i].val.block < |data| && data[es[i].val.block] + Occ(es, Data(es[i].val.block)) <= MAX_COUNT
  }

  ghost predicate InRange(data: seq<nat>, es: seq<Entry>) {
    forall i :: 0 <= i < |es| && es[i].val.Mapped? ==> es[i].val.block < |data|
  }

  lemma {:induction false} HeadCounts(counts: seq<nat>, data: seq<nat>, es: seq<Entry>)
    requires InRange(data, es) && Spares.Head(counts, data) >= |es|
    ensures Countable(data, es)
  {
    forall i | 0 <= i < |es| && es[i].val.Mapped?
      ensures data[es[i].val.block] + Occ(es, Data(es[i].val.block)) <= MAX_COUNT
    {
      Spares.HeadIs(counts, data);
      Spares.OccAtMost(es, Data(es[i].val.block));
    }
  }

  /** Whether the next value can be counted, when those before it have been. */
  lemma {:induction false} NextCounts(data: seq<nat>, data': seq<nat>, es: seq<Entry>, i: nat)
    requires i < |es| && es[i].val.Mapped? && Counted(data, data', es[..i])
    ensures var d := es[i].val.block; Countable(data, es) ==> d < |data'| && data'[d] < MAX_COUNT
  {
    var d := es[i].val.block;
    assert es == es[..i] + [es[i]] + es[i + 1..];
    OccConcat(es[..i] + [es[i]], es[i + 1..], Data(d));
    OccConcat(es[..i], [es[i]], Data(d));
    OccOne(es[i], Data(d));
  }

  lemma {:induction false} AllCounted(data: seq<nat>, data': seq<nat>, es: seq<Entry>)
    requires Counted(data, data', es) && AllMapped(es) && forall i :: 0 <= i < |data'| ==> data'[i] <= MAX_COUNT
    ensures Countable(data, es)
  {
  }

  lemma {:induction false} CountedHead(counts: seq<nat>, data: seq<nat>, data': seq<nat>, es: seq<Entry>)
    requires Counted(data, data', es)
    ensures Spares.Head(counts, data') >= Spares.Head(counts, data) - |es|
  {
    forall d | 0 <= d < |data| ensures data'[d] <= data[d] + |es| {
      Spares.OccAtMost(es, Data(d));
    }
    Spares.HeadData(counts, data, data', |es|);
  }

  /** Where node i's entries lie in the entries of all the nodes. */
  lemma {:induction false} FlatAt(blocks: map<nat, Node>, nodes: seq<Summary>, i: nat) returns (at: nat)
    requires i < |nodes|
    ensures at + |EntriesAt(blocks, nodes[i].block)| <= |Flat(blocks, nodes)|
    ensures Flat(blocks, nodes)[at..at + |EntriesAt(blocks, nodes[i].block)|] == EntriesAt(blocks, nodes[i].block)
  {
    var k := |nodes| - 1;
    if i == k {
      at := |Flat(blocks, nodes[..k])|;
    } else {
      at := FlatAt(blocks, nodes[..k], i);
      var f := Flat(blocks, nodes[..k]);
      var n := |EntriesAt(blocks, nodes[i].block)|;
      assert Flat(blocks, nodes)[at..at + n] == f[at..at + n];
    }
  }

  lemma {:induction false} NodeAscends(s: State, i: nat)
    requires i < |s.nodes| && StrictlyAscending(s.Contents())
    ensures StrictlyAscending(EntriesAt(s.blocks, s.nodes[i].block))
  {
    var at := FlatAt(s.blocks, s.nodes, i);
    var es := EntriesAt(s.blocks, s.nodes[i].block);
    assert forall k :: 0 <= k < |es| ==> s.Contents()[at + k] == es[k];
  }

  /** What a node in use holds is counted, and so inside the device. */
  lemma {:induction false} LiveInRange(s: State, b: nat)
    requires s.Covered() && b < |s.counts| && s.counts[b] > 0
    ensures InRange(s.data, EntriesAt(s.blocks, b))
  {
    var es := EntriesAt(s.blocks, b);
    forall i | 0 <= i < |es| && es[i].val.Mapped? ensures es[i].val.block < |s.data| {
      var t := Data(es[i].val.block);
      OccMember(es, i, t);
      LiveUpToAtLeast(s.counts, s.blocks, b, |s.counts|, t);
      assert s.Outside(t) >= 0;
    }
  }

  /** A builder without work left behind it stays as it is for what comes next. */
  lemma {:induction false} CoveredStays(s: State, s': State)
    requires s.Covered() && SameOutside(s, s')
    ensures s'.Covered()
  {
    forall t ensures s'.Outside(t) >= 0 {
      assert s'.Outside(t) == s.Outside(t);
    }
  }

  ghost predicate Affords(s: State, n: nat) {
    n == 0 || s.Head() >= n
  }

  /** The first node of a builder can be taken back for this. */
  lemma {:induction false} LoneCost(c: Config, s: State)
    requires s.Inv(c) && s.Fill(c) && |s.nodes| == 1 && s.nodes[0].nrEntries < c.max / 2
    ensures s.values == [] && BackCost(c, s) <= s.Lone(c) && (Affords(s, s.Lone(c)) ==> Affords(s, BackCost(c, s)))
  {
    NodeFits(c, s, 0);
  }

  lemma {:induction false} FillSays(c: Config, s: State)
    requires s.Fill(c)
    ensures |s.values| <= 2 * c.max && ((|s.nodes| == 1 && s.nodes[0].nrEntries < c.max / 2) || s.HalfFull(c))
    ensures c.shared && s.nodes != [] ==> |s.values| > c.max && s.HalfFull(c)
    ensures |s.nodes| == 1 && s.nodes[0].nrEntries < c.max / 2 ==> !c.shared
  {
  }

  lemma {:induction false} FillAfter(c: Config, s: State, s': State)
    requires s.HalfFull(c) && |s.values| < 2 * c.max && (c.shared && s.nodes != [] ==> |s.values| >= c.max)
    requires s'.nodes == s.nodes && |s'.values| == |s.values| + 1
    ensures s'.Fill(c)
  {
  }

  lemma {:induction false} NoneHalfFull(c: Config, s: State)
    requires s.nodes == []
    ensures s.HalfFull(c)
  {
  }

  lemma {:induction false} StillHalfFull(c: Config, s: State, s': State)
    requires s.HalfFull(c) && s'.nodes != [] && s'.nodes[..|s'.nodes| - 1] == s.nodes && s'.nodes[|s'.nodes| - 1].nrEntries >= c.max / 2
    ensures s'.HalfFull(c)
  {
    assert forall i :: 0 <= i < |s.nodes| ==> s'.nodes[i] == s.nodes[i];
  }

  /** What taking back the last node costs: an own one brings its values' counts along. */
  ghost function BackCost(c: Config, s: State): nat
    requires s.nodes != []
  {
    if s.Owned(c, |s.nodes| - 1) then 0 else s.nodes[|s.nodes| - 1].nrEntries
  }

  /** The last node can be taken back. */
  lemma {:induction false} CanTakeBack(c: Config, s: State)
    requires s.nodes != [] && s.Inv(c) && s.Smooth(c) && Affords(s, BackCost(c, s)) && !c.shared
    ensures var es := EntriesAt(s.blocks, s.nodes[|s.nodes| - 1].block);
            StrictlyAscending(es) && (s.nodes[|s.nodes| - 1].shared ==> Countable(s.data, es))
  {
    hide State.Outside, State.PrebuiltHeld, State.OwnedOnce;
    var k := |s.nodes| - 1;
    NodeAscends(s, k);
    hide State.Contents;
    if s.nodes[k].shared {
      assert !s.Owned(c, k);
      LiveInRange(s, s.nodes[k].block);
      if s.nodes[k].nrEntries > 0 {
        HeadCounts(s.counts, s.data, EntriesAt(s.blocks, s.nodes[k].block));
      }
    }
  }

  lemma {:induction false} TakenBackHead(c: Config, s: State, data: seq<nat>)
    requires s.nodes != [] && s.Inv(c) && TakeBackCounts(c, s, data)
    ensures TakenBack(s, data).Head() >= s.Head() - BackCost(c, s)
    ensures TakenBack(s, data).Blocks(c) == s.Blocks(c) && TakenBack(s, data).Free() >= s.Free()
  {
    var k := |s.nodes| - 1;
    var n := s.nodes[k];
    if !s.Owned(c, k) {
      HeldElsewhere(s, n.block, k);
    }
    hide State.Outside, State.PrebuiltHeld;
    Spares.HeadCount(s.counts, s.data, n.block, s.counts[n.block] - 1);
    Spares.FreeChange(s.counts, n.block, s.counts[n.block] - 1);
    if !s.Owned(c, k) {
      CountedHead(s.counts[n.block := s.counts[n.block] - 1], s.data, data, EntriesAt(s.blocks, n.block));
    }
  }

  lemma {:induction false} EmittedHead(c: Config, s: State, n: nat, loc: nat)
    requires n <= |s.values| && loc < |s.counts| && s.counts[loc] == 0
    ensures Emitted(c, s, n, loc).Head() >= s.Head() && Emitted(c, s, n, loc).Blocks(c) == s.Blocks(c)
    ensures Emitted(c, s, n, loc).Free() == s.Free() - 1
  {
    hide Spares.Head, Spares.Free, Spares.Highest, OwnCount;
    Spares.HeadTake(s.counts, s.data, loc);
    Spares.FreeChange(s.counts, loc, 1);
    OwnCountPush(c, s.nodes, Summary(loc, FirstKey(s.values[..n]), n, c.shared));
  }

  lemma {:induction false} InvDescribed(c: Config, s: State)
    requires s.Inv(c)
    ensures s.Described(c)
  {
  }

  lemma {:induction false} StillOwned(c: Config, s: State, s': State)
    requires s.AllOwned(c) && (s'.nodes <= s.nodes
                               || (s.nodes != s'.nodes && |s'.nodes| == |s.nodes| + 1 && s'.nodes[..|s.nodes|] == s.nodes
                                   && s'.nodes[|s.nodes|].shared == c.shared))
    ensures s'.AllOwned(c)
  {
    forall i | 0 <= i < |s'.nodes| ensures s'.Owned(c, i) {
      if i < |s.nodes| {
        assert s.Owned(c, i) && s'.nodes[i] == s.nodes[i];
      }
    }
  }

  lemma {:induction false} FreeIsSome(s: State)
    ensures s.Free() >= 1 <==> 0 in s.counts
  {
    Spares.FreeSome(s.counts);
  }

  lemma {:induction false} AdoptedHead(c: Config, s: State, n: Summary)
    requires n.block < |s.counts| && s.counts[n.block] > 0 && n.shared && !c.shared
    ensures Adopted(s, n).Head() >= s.Head() - 1 && Adopted(s, n).Blocks(c) == s.Blocks(c) && Adopted(s, n).Free() == s.Free()
  {
    hide Spares.Head, Spares.Free, Spares.Highest, OwnCount;
    Spares.HeadCount(s.counts, s.data, n.block, s.counts[n.block] + 1);
    Spares.FreeChange(s.counts, n.block, s.counts[n.block] + 1);
    OwnCountPush(c, s.nodes, n);
  }

  /** One value can be counted. */
  lemma {:induction false} OneCounts(s: State, e: Entry)
    requires s.Head() >= 1
    ensures e.val.Mapped? ==> (Countable(s.data, [e]) <==> e.val.block < |s.data|)
  {
    Spares.HeadIs(s.counts, s.data);
    OccOne(e, TargetOf(e.val));
  }

  lemma {:induction false} OneInside(data: seq<nat>, e: Entry)
    requires e.val.Mapped? && Countable(data, [e])
    ensures e.val.block < |data|
  {
    assert [e][0] == e;
  }

  lemma {:induction false} QueuedHead(s: State, es: seq<Entry>, data: seq<nat>)
    requires Counted(s.data, data, es) || data == s.data
    ensures Queued(s, es, data).Head() >= s.Head() - if data == s.data then 0 else |es|
  {
    if data != s.data {
      CountedHead(s.counts, s.data, data, es);
    }
  }

  /** With blocks for all that has been pushed there are some for what is emitted next. */
  lemma {:induction false} FreeEnough(c: Config, s: State, n: nat)
    requires c.Valid() && s.Inv(c) && s.Enough(c, n) && |s.Contents()| <= n && (s.HalfFull(c) || |s.nodes| == 1)
    ensures s.Free() >= 2
  {
    hide State.OwnedOnce, State.PrebuiltHeld, State.Outside;
    OwnBound(c, s);
    Spares.NodesGrows(c.max / 2, |s.Contents()|, n);
  }

  /** A builder has no more own nodes than what has been pushed can fill half, but for a lone one. */
  lemma {:induction false} OwnBound(c: Config, s: State)
    requires c.Valid() && s.Inv(c) && (s.HalfFull(c) || |s.nodes| == 1)
    ensures OwnCount(c, s.nodes) <= Spares.Nodes(c.max / 2, |s.Contents()|) + 1
  {
    hide State.OwnedOnce, State.PrebuiltHeld, State.Outside;
    if s.HalfFull(c) {
      OwnFew(c, s.blocks, s.nodes);
      Spares.NodesGrows(c.max / 2, |Flat(s.blocks, s.nodes)|, |s.Contents()|);
    } else {
      assert s.nodes[..0] == [];
    }
  }

  lemma {:induction false} PushableInUse(c: Config, s: State, n: Summary)
    requires Pushable(c, s, n)
    ensures n.block < |s.counts| && s.counts[n.block] > 0 && n.shared
  {
  }

  lemma {:induction false} HeadAt(s: State, b: nat)
    requires b < |s.counts|
    ensures s.Head() >= 1 ==> s.counts[b] < MAX_COUNT
  {
    Spares.HeadIs(s.counts, s.data);
  }

  /** A prebuilt node can be unpacked. */
  lemma {:induction false} CanAppend(c: Config, s: State, n: Summary)
    requires Pushable(c, s, n) && s.Covered() && s.Head() >= n.nrEntries
    ensures Countable(s.data, EntriesAt(s.blocks, n.block))
  {
    LiveInRange(s, n.block);
    HeadCounts(s.counts, s.data, EntriesAt(s.blocks, n.block));
  }

  lemma {:induction false} FlatNone(blocks: map<nat, Node>)
    ensures Flat(blocks, []) == []
  {
  }

  lemma {:induction false} FlatOne(blocks: map<nat, Node>, ns: seq<Summary>)
    requires |ns| == 1
    ensures Flat(blocks, ns) == EntriesAt(blocks, ns[0].block)
  {
    assert ns[..0] == [];
  }

  /** The same while a builder is at work. */
  lemma {:induction false} CanUnpack(c: Config, s0: State, s: State, n: Summary)
    requires Step(c, s0, s) && s0.Covered() && Pushable(c, s, n) && s.Head() >= c.max
    ensures Countable(s.data, EntriesAt(s.blocks, n.block))
  {
    CoveredStays(s0, s);
    CanAppend(c, s, n);
  }

  lemma {:induction false} SameEntries(c: Config, s0: State, s: State, n: Summary)
    requires s0.Inv(c) && Step(c, s0, s) && Pushable(c, s0, n)
    ensures EntriesAt(s.blocks, n.block) == EntriesAt(s0.blocks, n.block) && n.nrEntries <= c.max
  {
    NotOwned(c, s0, n.block);
  }

  /** Without contents there is at most one node, and nothing in it. */
  lemma {:induction false} LoneEmpty(c: Config, s: State)
    requires s.Inv(c) && s.Fill(c) && s.Contents() == [] && c.Valid()
    ensures s.values == [] && |s.nodes| <= 1 && (s.nodes != [] ==> s.nodes[0].nrEntries == 0)
  {
    if s.nodes != [] {
      var at := FlatAt(s.blocks, s.nodes, 0);
      assert s.nodes[0].nrEntries == 0;
    }
  }

  /** Pushed nodes continue the contents in order. */
  lemma {:induction false} FirstNodeAscends(s: State, ns: seq<Summary>)
    requires StrictlyAscending(s.Contents() + Flat(s.blocks, ns)) && ns != []
    ensures StrictlyAscending(s.Contents()) && StrictlyAscending(EntriesAt(s.blocks, ns[0].block))
  {
    var a, b := s.Contents(), Flat(s.blocks, ns);
    assert forall i :: 0 <= i < |a| ==> (a + b)[i] == a[i];
    assert forall i :: 0 <= i < |b| ==> (a + b)[|a| + i] == b[i];
    var at := FlatAt(s.blocks, ns, 0);
    var es := EntriesAt(s.blocks, ns[0].block);
    assert forall k :: 0 <= k < |es| ==> b[at + k] == es[k];
  }

  // ---- which nodes there are

  /** n entries in as few nodes as hold them: none, one, or two even ones. */
  ghost predicate Even(c: Config, own: seq<Summary>, n: nat) {
    && |own| == (if n == 0 then 0 else if n <= c.max then 1 else 2) && (forall i :: 0 <= i < |own| ==> own[i].shared == c.shared)
    && (|own| == 1 ==> own[0].nrEntries == n) && (|own| == 2 ==> own[0].nrEntries == n / 2 && own[1].nrEntries == n - n / 2)
  }

  /** Behind the nodes there were come such nodes of n entries, and then the tail. */
  ghost predicate Laid(c: Config, before: seq<Summary>, after: seq<Summary>, n: nat, tail: seq<Summary>) {
    exists own :: Even(c, own, n) && after == before + own + tail
  }

  lemma AtLeastThree(c: Config)
    requires c.Valid()
    ensures c.max >= 3
  {
  }

  lemma LaidSays(c: Config, before: seq<Summary>, after: seq<Summary>, n: nat)
    requires Laid(c, before, after, n, []) && n <= 2 * c.max
    ensures before <= after && (n == 0 <==> |after| == |before|) && (0 < n <= c.max ==> |after| == |before| + 1)
    ensures n >= c.max / 2 ==> forall i :: |before| <= i < |after| ==> after[i].nrEntries >= c.max / 2
  {
    var own :| Even(c, own, n) && after == before + own + [];
    assert after == before + own;
  }

  lemma LaidTail(c: Config, before: seq<Summary>, mid: seq<Summary>, n: nat, tail: seq<Summary>)
    requires Laid(c, before, mid, n, [])
    ensures Laid(c, before, mid + tail, n, tail)
  {
    var own :| Even(c, own, n) && mid == before + own + [];
    assert mid + tail == before + own + tail;
  }

  lemma LaidNone(c: Config, nodes: seq<Summary>)
    ensures Laid(c, nodes, nodes, 0, [])
  {
    assert Even(c, [], 0) && nodes == nodes + [] + [];
  }

  lemma LaidOne(c: Config, before: seq<Summary>, after: seq<Summary>, n: nat)
    requires 0 < n <= c.max && |after| == |before| + 1 && after[..|before|] == before
    requires after[|before|].nrEntries == n && after[|before|].shared == c.shared
    ensures Laid(c, before, after, n, [])
  {
    var own := [after[|before|]];
    assert Even(c, own, n) && after == before + own + [];
  }

  lemma LaidTwo(c: Config, before: seq<Summary>, mid: seq<Summary>, after: seq<Summary>, n: nat)
    requires c.max < n && |mid| == |before| + 1 && mid[..|before|] == before && |after| == |mid| + 1 && after[..|mid|] == mid
    requires mid[|before|].nrEntries == n / 2 && mid[|before|].shared == c.shared
    requires after[|mid|].nrEntries == n - n / 2 && after[|mid|].shared == c.shared
    ensures Laid(c, before, after, n, [])
  {
    var own := [mid[|before|], after[|mid|]];
    assert Even(c, own, n) && after == before + own + [];
  }

  /** No block in use has gained or lost a reference. */
  ghost predicate SameUsed(counts: seq<nat>, counts': seq<nat>) {
    |counts'| == |counts| && forall b :: 0 <= b < |counts| && counts[b] > 0 ==> counts'[b] == counts[b]
  }

  /** Under half full, which only a node that is alone may be. */
  ghost predicate LoneLow(c: Config, nodes: seq<Summary>) {
    |nodes| == 1 && nodes[0].nrEntries < c.max / 2
  }

  function BlocksOf(nodes: seq<Summary>): seq<nat> {
    seq(|nodes|, i requires 0 <= i < |nodes| => nodes[i].block)
  }

  /** Every block in use has a reference more for each time it is among these nodes. */
  ghost predicate CountedMore(counts: seq<nat>, counts': seq<nat>, ns: seq<Summary>) {
    |counts'| == |counts|
    && forall b :: 0 <= b < |counts| && counts[b] > 0 ==> counts'[b] == counts[b] + multiset(BlocksOf(ns))[b]
  }

  lemma {:induction false} CountedNone(counts: seq<nat>)
    ensures CountedMore(counts, counts, [])
  {
    assert multiset(BlocksOf([])) == multiset{};
  }

  lemma {:induction false} CountedPush(counts: seq<nat>, mid: seq<nat>, ns: seq<Summary>, i: nat)
    requires i < |ns| && CountedMore(counts, mid, ns[..i]) && ns[i].block < |mid| && mid[ns[i].block] > 0
    ensures CountedMore(counts, mid[ns[i].block := mid[ns[i].block] + 1], ns[..i + 1])
  {
    assert BlocksOf(ns[..i + 1]) == BlocksOf(ns[..i]) + [ns[i].block];
    assert multiset(BlocksOf(ns[..i + 1])) == multiset(BlocksOf(ns[..i])) + multiset{ns[i].block};
  }

  lemma CountedAfter(counts: seq<nat>, mid: seq<nat>, counts': seq<nat>, ns: seq<Summary>)
    requires SameUsed(counts, mid) && CountedMore(mid, counts', ns)
    ensures CountedMore(counts, counts', ns)
  {
  }

  /** Too few values are queued to make a node: a prebuilt node goes behind them. */
  ghost predicate PushedBehind(c: Config, s: State, s': State, ns: seq<Summary>)
    requires ns != []
  {
    var n := |s.values| + ns[0].nrEntries;
    if |ns| == 1 then s'.nodes == s.nodes && |s'.values| == n
    else s'.values == [] && Laid(c, s.nodes, s'.nodes, n, ns[1..]) && CountedMore(s.counts, s'.counts, ns[1..])
  }

  /** What is queued makes nodes, and the prebuilt nodes are used as they are, unless the only one is under half full. */
  ghost predicate PushedWhole(c: Config, s: State, s': State, ns: seq<Summary>)
    requires ns != []
  {
    if ns[0].nrEntries < c.max / 2 then Laid(c, s.nodes, s'.nodes, |s.values|, []) && |s'.values| == ns[0].nrEntries
    else s'.values == [] && Laid(c, s.nodes, s'.nodes, |s.values|, ns) && CountedMore(s.counts, s'.counts, ns) && s'.data == s.data
  }

  /** What a push of prebuilt nodes does with them.  A lone node under half full is taken back first. */
  ghost predicate Pushed(c: Config, s: State, s': State, ns: seq<Summary>)
    requires ns != []
  {
    var back := LoneLow(c, s.nodes);
    var queued := |s.values| + if back then s.nodes[0].nrEntries else 0;
    var kept, half := if back then [] else s.nodes, c.max / 2;
    if |ns| == 1 && s.nodes == [] && s.values == [] then
      s'.nodes == ns && s'.values == [] && s'.data == s.data && CountedMore(s.counts, s'.counts, ns)
    else if 0 < queued < half then
      if |ns| == 1 then s'.nodes == kept && |s'.values| == queued + ns[0].nrEntries
      else s'.values == [] && Laid(c, kept, s'.nodes, queued + ns[0].nrEntries, ns[1..]) && CountedTail(c, s, s', ns[1..])
    else if ns[0].nrEntries < half then
      Laid(c, kept, s'.nodes, queued, []) && |s'.values| == ns[0].nrEntries
    else
      s'.values == [] && Laid(c, kept, s'.nodes, queued, ns) && CountedTail(c, s, s', ns) && s'.data == s.data
  }

  /** Every block in use, but that of a lone node taken back, has a reference more for each time it is among these nodes. */
  ghost predicate CountedTail(c: Config, s: State, s': State, ns: seq<Summary>) {
    |s'.counts| == |s.counts|
    && forall b :: 0 <= b < |s.counts| && s.counts[b] > 0 && !(LoneLow(c, s.nodes) && s.nodes[0].block == b) ==>
         s'.counts[b] == s.counts[b] + multiset(BlocksOf(ns))[b]
  }

  /** The last node has been popped and its entries are queued before the others. */
  ghost predicate Unshifted(s: State, s': State)
    requires s.nodes != []
  {
    var n := s.nodes[|s.nodes| - 1];
    && n.block < |s.counts| && s.counts[n.block] > 0 && s'.counts == s.counts[n.block := s.counts[n.block] - 1]
    && s'.blocks == s.blocks && s'.nodes == s.nodes[..|s.nodes| - 1] && s'.values == EntriesAt(s.blocks, n.block) + s.values
    && |EntriesAt(s.blocks, n.block)| == n.nrEntries
    && (if n.shared then Counted(s.data, s'.data, EntriesAt(s.blocks, n.block)) else s'.data == s.data)
  }

  lemma {:induction false} UnshiftedEmpty(s: State, s': State)
    requires s.nodes != [] && Unshifted(s, s') && s.nodes[|s.nodes| - 1].nrEntries == 0
    ensures s'.data == s.data
  {
  }

  lemma PushedSays(c: Config, s: State, s1: State, s': State, ns: seq<Summary>)
    requires ns != [] && !(|ns| == 1 && s.nodes == [] && s.values == []) && c.max >= 3
    requires if LoneLow(c, s.nodes) then s.values == [] && Unshifted(s, s1) else s1 == s
    requires if 0 < |s1.values| < c.max / 2 then PushedBehind(c, s1, s', ns) else PushedWhole(c, s1, s', ns)
    ensures Pushed(c, s, s', ns)
  {
    hide Laid, Counted, EntriesAt;
    if LoneLow(c, s.nodes) {
      assert s1.nodes == [] && |s1.values| == s.nodes[0].nrEntries;
      if |s1.values| == 0 {
        UnshiftedEmpty(s, s1);
      }
    }
  }

  /** Room for a value has been made: a lone node under half full is taken back, and if the queue is full the first of it
      becomes a full node. */
  ghost predicate RoomMade(c: Config, s: State, s': State) {
    if LoneLow(c, s.nodes) then s'.nodes == [] && s'.values == EntriesAt(s.blocks, s.nodes[0].block) + s.values
    else if |s.values| == 2 * c.max then Laid(c, s.nodes, s'.nodes, c.max, []) && s'.values == s.values[c.max..]
    else s'.nodes == s.nodes && s'.values == s.values
  }

  /** What there is when nothing more is pushed: an empty node if nothing has been; otherwise what is queued makes nodes,
      with the entries of the last one if it is too little alone. */
  ghost predicate Ended(c: Config, s: State, nodes: seq<Summary>) {
    var back := 0 < |s.values| < c.max / 2 && s.nodes != [];
    if s.values == [] && s.nodes == [] then |nodes| == 1 && nodes[0].nrEntries == 0 && nodes[0].shared == c.shared
    else if back then Laid(c, s.nodes[..|s.nodes| - 1], nodes, |s.values| + s.nodes[|s.nodes| - 1].nrEntries, [])
    else Laid(c, s.nodes, nodes, |s.values|, [])
  }

  lemma EndedFilled(c: Config, s: State, nodes: seq<Summary>)
    requires c.Valid() && s.Fill(c) && Ended(c, s, nodes) && (s.nodes != [] ==> s.nodes[|s.nodes| - 1].nrEntries <= c.max)
    ensures WellFilled(nodes, c.max)
  {
    hide Laid;
    if s.values == [] && s.nodes == [] {
    } else if 0 < |s.values| < c.max / 2 && s.nodes != [] {
      LaidSays(c, s.nodes[..|s.nodes| - 1], nodes, |s.values| + s.nodes[|s.nodes| - 1].nrEntries);
    } else {
      LaidSays(c, s.nodes, nodes, |s.values|);
    }
  }

  class NodeBuilder {
    const c: Config
    const w: Batcher
    // The counts of the values: `value_rc` counts a Mapped value's data block here, and does nothing
    // for a Loc value (NoopRC).
    const data: SpaceMap
    var values: seq<Entry>
    var nodes: seq<Summary>
    var lastKey: Option<nat>

    constructor (c: Config, w: Batcher, data: SpaceMap)
      requires c.Valid() && w.sm.Valid() && data.Valid() && w.sm != data
      ensures Valid() && this.c == c && this.w == w && this.data == data
      ensures values == [] && nodes == [] && lastKey == None
    {
      this.c, this.w, this.data := c, w, data;
      values, nodes, lastKey := [], [], None;
    }

    ghost function S(): State
      reads this, w, w.sm, data
    {
      State(w.sm.counts, data.counts, w.blocks, values, nodes)
    }

    ghost predicate Ok()
      reads this, w, w.sm, data
    {
      c.Valid() && w.sm.Valid() && data.Valid() && w.sm != data && S().Inv(c)
    }

    ghost predicate Valid()
      reads this, w, w.sm, data
    {
      Ok() && S().Fill(c)
    }

    /** Counts every value of es once more. */
    method CountValues(es: seq<Entry>) returns (ok: bool)
      requires data.Valid()
      modifies data
      ensures data.Valid()
      ensures ok && AllMapped(es) ==> Counted(old(data.counts), data.counts, es)
      ensures AllMapped(es) ==> (ok <==> Countable(old(data.counts), es))
      ensures AllLoc(es) ==> ok && data.counts == old(data.counts)
      ensures |data.counts| == old(|data.counts|)
    {
      for i := 0 to |es|
        invariant data.Valid() && |data.counts| == old(|data.counts|)
        invariant AllMapped(es) ==> Counted(old(data.counts), data.counts, es[..i])
        invariant AllLoc(es) ==> data.counts == old(data.counts)
      {
        ghost var before := data.counts;
        if es[i].val.Mapped? {
          if AllMapped(es) {
            NextCounts(old(data.counts), data.counts, es, i);
          }
          ok := data.Inc(es[i].val.block);
          if !ok {
            return;
          }
        }
        assert es[..i + 1] == es[..i] + [es[i]];
        forall d ensures Occ(es[..i + 1], Data(d)) == Occ(es[..i], Data(d)) + if TargetOf(es[i].val) == Data(d) then 1 else 0 {
          OccConcat(es[..i], [es[i]], Data(d));
          OccOne(es[i], Data(d));
        }
      }
      assert es[..|es|] == es;
      if AllMapped(es) {
        AllCounted(old(data.counts), data.counts, es);
      }
      ok := true;
    }

    /** Writes a node with the first n queued values. */
    method EmitValues(n: nat) returns (ok: bool)
      requires Ok() && n <= |values| && n <= c.max
      modifies this, w, w.sm
      ensures ok ==> Ok() && Step(c, old(S()), S()) && S().Contents() == old(S().Contents())
      ensures ok ==> values == old(values)[n..] && lastKey == old(lastKey)
      ensures ok ==> |nodes| == old(|nodes|) + 1 && nodes[..|nodes| - 1] == old(nodes)
      ensures ok ==> nodes[|nodes| - 1].nrEntries == n && nodes[|nodes| - 1].shared == c.shared
      ensures ok ==> SameUsed(old(w.sm.counts), w.sm.counts)
      ensures ok <==> old(S().Free()) >= 1
      ensures ok && old(S().AllOwned(c)) ==> S().AllOwned(c)
      ensures ok ==> S().Head() >= old(S().Head()) && S().Blocks(c) == old(S().Blocks(c)) && S().Free() == old(S().Free()) - 1
    {
      hide State.Head, State.Blocks, State.Free, State.Inv, State.Contents, Undisturbed, SameOutside;
      ghost var s := S();
      FreeIsSome(s);
      var loc := w.WriteNode(Node(c.leaf, values[..n]));
      if loc.None? {
        return false;
      }
      EmitInv(c, s, n, loc.value);
      InvDescribed(c, s);
      EmitContents(c, s, n, loc.value);
      EmitStep(c, s, n, loc.value);
      EmittedHead(c, s, n, loc.value);
      values, nodes := values[n..], nodes + [Summary(loc.value, FirstKey(values[..n]), n, c.shared)];
      assert S() == Emitted(c, s, n, loc.value);
      if s.AllOwned(c) {
        StillOwned(c, s, S());
      }
      ok := true;
    }

    /** Emits all queued values as one node, or as two even ones.  The panic for a longer queue is unreachable. */
    method EmitAll() returns (ok: bool)
      requires Ok() && |values| <= 2 * c.max
      modifies this, w, w.sm
      ensures ok ==> Ok() && Step(c, old(S()), S()) && S().Contents() == old(S().Contents())
      ensures ok ==> values == [] && lastKey == old(lastKey)
      ensures ok ==> Laid(c, old(nodes), nodes, old(|values|), []) && SameUsed(old(w.sm.counts), w.sm.counts)
      ensures ok ==> S().Head() >= old(S().Head()) && S().Blocks(c) == old(S().Blocks(c))
      ensures ok && old(|values|) == 0 ==> S() == old(S())
      ensures ok && old(S().AllOwned(c)) ==> S().AllOwned(c)
      ensures old(S().Free()) >= 2 ==> ok
    {
      hide State.AllOwned, State.Head, State.Free, State.Blocks, State.Inv, Undisturbed, SameOutside, State.Contents, Laid;
      var n := |values|;
      ghost var before := nodes;
      if n == 0 {
        StepRefl(c, S());
        LaidNone(c, nodes);
        ok := true;
      } else if n <= c.max {
        ok := EmitValues(n);
        if ok {
          LaidOne(c, before, nodes, n);
        }
      } else if n <= c.max * 2 {
        ok := EmitValues(n / 2);
        if ok {
          ghost var s := S();
          ok := EmitValues(n - n / 2);
          if ok {
            StepTrans(c, old(S()), s, S());
            LaidTwo(c, before, s.nodes, nodes, n);
          }
        }
      } else {
        assert false;
      }
    }

    /** Pops the last node and puts its entries back at the front of the queue. */
    method UnshiftNode() returns (ok: bool)
      requires Ok() && nodes != [] && !c.shared
      modifies this, w.sm, data
      ensures ok ==> Ok() && Step(c, old(S()), S()) && S().Contents() == old(S().Contents())
      ensures ok ==> Unshifted(old(S()), S()) && lastKey == old(lastKey)
      ensures ok && old(S().AllOwned(c)) ==> S().AllOwned(c)
      ensures ok ==> S().Head() >= old(S().Head()) - BackCost(c, old(S()))
      ensures ok ==> S().Blocks(c) == old(S().Blocks(c)) && S().Free() >= old(S().Free())
      ensures |data.counts| == old(|data.counts|)
      ensures old(S().Smooth(c)) && Affords(old(S()), BackCost(c, old(S()))) ==> ok
    {
      hide Undisturbed, SameOutside, State.Contents, State.PrebuiltHeld, State.OwnedOnce, State.Head, State.Blocks, State.Free,
           State.Smooth, State.AllOwned, Countable, BackCost, Affords;
      ghost var s := S();
      if s.Smooth(c) && Affords(s, BackCost(c, s)) {
        CanTakeBack(c, s);
      }
      var last := nodes[|nodes| - 1];
      var es := w.ReadNode(c.leaf, last.block);
      if es.None? {
        return false;
      }
      var deleted := w.sm.Dec(last.block);
      if last.shared {
        PrebuiltIsMapped(c, s, |nodes| - 1);
        ok := CountValues(es.value);
        if !ok {
          return;
        }
      }
      TakeBackInv(c, s, data.counts);
      TakeBackStep(c, s, data.counts);
      TakenBackHead(c, s, data.counts);
      nodes, values := nodes[..|nodes| - 1], es.value + values;
      assert S() == TakenBack(s, data.counts);
      if s.AllOwned(c) {
        StillOwned(c, s, S());
      }
      ok := true;
    }

    method CheckOrderedKey(key: nat) returns (ok: bool)
      modifies `lastKey
      ensures ok <==> (old(lastKey).Some? ==> old(lastKey).value < key)
      ensures lastKey == if ok then Some(key) else old(lastKey)
    {
      ok := lastKey.None? || key > lastKey.value;
      if ok {
        lastKey := Some(key);
      }
    }

    /** The start of `push_value`: takes back a lone under populated node, or emits a node if the queue is full. */
    method MakeRoom() returns (ok: bool)
      requires Valid()
      modifies this, w, w.sm, data
      ensures ok ==> Ok() && Step(c, old(S()), S()) && S().Contents() == old(S().Contents())
      ensures ok ==> |values| < 2 * c.max && S().HalfFull(c) && lastKey == old(lastKey) && RoomMade(c, old(S()), S())
      ensures ok && c.shared && nodes != [] ==> |values| >= c.max
      ensures ok && old(S().AllOwned(c)) ==> S().AllOwned(c)
      ensures ok ==> S().Head() >= old(S().Head()) - old(S().Lone(c)) && S().Blocks(c) == old(S().Blocks(c))
      ensures |data.counts| == old(|data.counts|)
      ensures old(S().Smooth(c)) && Affords(old(S()), old(S().Lone(c))) && old(S().Free()) >= 1 ==> ok
    {
      hide State.Fill, State.HalfFull, BackCost, Affords, State.AllOwned, State.Lone, State.Head, State.Blocks, State.Free,
           State.Smooth, State.Inv, State.Contents, SameOutside, Undisturbed, Laid, Counted, EntriesAt, SameUsed, Config.Valid;
      ghost var s := S();
      if |nodes| == 1 && nodes[0].nrEntries < c.max / 2 {
        LoneCost(c, s);
      }
      FillSays(c, s);
      AtLeastThree(c);
      ok := true;
      if |nodes| == 1 && nodes[0].nrEntries < c.max / 2 {
        ok := UnshiftNode();
        if ok {
          NoneHalfFull(c, S());
        }
      } else if |values| == c.max * 2 {
        ok := EmitValues(c.max);
        if ok {
          StillHalfFull(c, s, S());
          LaidOne(c, s.nodes, nodes, c.max);
        }
      } else {
        StepRefl(c, S());
      }
    }

    /** Pushes one value.  A Mapped value's data block is counted; a Loc value brings its reference along. */
    method PushValue(key: nat, val: Val) returns (ok: bool)
      requires Valid() && (val.Mapped? || S().AllOwned(c))
      modifies this, w, w.sm, data
      ensures ok ==> Valid() && Undisturbed(c, old(S()), S())
      ensures ok ==> S().Contents() == old(S().Contents()) + [Entry(key, val)]
      ensures ok ==> forall t :: S().Outside(t) == old(S()).Outside(t) - if val.Loc? && t == Meta(val.loc) then 1 else 0
      ensures ok ==> (old(lastKey).Some? ==> old(lastKey).value < key) && lastKey == Some(key)
      ensures ok && old(S().AllOwned(c)) ==> S().AllOwned(c)
      ensures ok ==> (val.Mapped? ==> val.block < |data.counts|)
      ensures |data.counts| == old(|data.counts|)
      ensures ok ==> S().Head() >= old(S().Head()) - old(S().Lone(c)) - if val.Mapped? then 1 else 0
      ensures ok ==> S().Blocks(c) == old(S().Blocks(c)) && values != []
      ensures ok ==> RoomMade(c, old(S()), S().(values := values[..|values| - 1])) && values[|values| - 1] == Entry(key, val)
      ensures old(S().Smooth(c)) && old(S().Enough(c, |S().Contents()|)) && (old(lastKey).Some? ==> old(lastKey).value < key)
              && Affords(old(S()), old(S().Lone(c)) + if val.Mapped? then 1 else 0) && (val.Mapped? ==> val.block < old(|data.counts|))
              ==> ok
    {
      hide State.Fill, State.HalfFull, State.AllOwned, State.Lone, State.Head, State.Blocks, State.Free, State.Enough, State.Smooth,
           State.Inv, State.Contents, Undisturbed, State.Outside, Countable, Laid;
      FillSays(c, S());
      if S().Enough(c, |S().Contents()|) {
        FreeEnough(c, S(), |S().Contents()|);
      }
      ok := MakeRoom();
      if !ok {
        return;
      }
      ok := CheckOrderedKey(key);
      if !ok {
        return;
      }
      ghost var s := S();
      ok := QueueValue(Entry(key, val));
      if ok {
        UndisturbedTrans(c, old(S()), s, S());
        FillAfter(c, s, S());
        assert values[..|values| - 1] == s.values;
        if s.AllOwned(c) {
          StillOwned(c, s, S());
        }
      }
    }

    /** The end of `push_value`: counts a value and queues it. */
    method QueueValue(e: Entry) returns (ok: bool)
      requires Ok() && (e.val.Mapped? || S().AllOwned(c))
      modifies this`values, data
      ensures ok ==> Ok() && Undisturbed(c, old(S()), S()) && S().Contents() == old(S().Contents()) + [e]
      ensures ok ==> forall t :: S().Outside(t) == old(S()).Outside(t) - if e.val.Loc? && t == Meta(e.val.loc) then 1 else 0
      ensures ok ==> values == old(values) + [e] && (e.val.Mapped? ==> e.val.block < |data.counts|)
      ensures |data.counts| == old(|data.counts|)
      ensures ok ==> S().Head() >= old(S().Head()) - if e.val.Mapped? then 1 else 0
      ensures ok ==> S().Blocks(c) == old(S().Blocks(c))
      ensures (e.val.Mapped? ==> e.val.block < old(|data.counts|) && old(S().Head()) >= 1) ==> ok
    {
      hide State.Head, State.Inv, State.Contents, Undisturbed, State.Outside, Countable;
      ghost var s := S();
      if s.Head() >= 1 {
        OneCounts(s, e);
      }
      ok := CountValues([e]);
      if !ok {
        return;
      }
      if e.val.Mapped? {
        OneInside(s.data, e);
      }
      QueuedHead(s, [e], data.counts);
      QueueKeeps(c, s, [e], data.counts);
      values := values + [e];
      assert S() == Queued(s, [e], data.counts);
      forall t ensures S().Outside(t) == s.Outside(t) - if e.val.Loc? && t == Meta(e.val.loc) then 1 else 0 {
        QueueOutside(s, [e], data.counts, t);
        OccOne(e, t);
      }
    }

    /** Unpacks a prebuilt node: its values are counted again and queued. */
    method AppendValues(n: Summary) returns (ok: bool)
      requires Ok() && Pushable(c, S(), n)
      modifies this, data
      ensures ok ==> Ok() && Step(c, old(S()), S())
      ensures ok ==> S().Contents() == old(S().Contents()) + EntriesAt(w.blocks, n.block)
      ensures ok ==> nodes == old(nodes) && lastKey == old(lastKey) && |values| == old(|values|) + n.nrEntries
      ensures var es := EntriesAt(w.blocks, n.block); ok <==> StrictlyAscending(es) && Countable(old(data.counts), es)
      ensures ok ==> S().Head() >= old(S().Head()) - n.nrEntries && S().Blocks(c) == old(S().Blocks(c)) && S().Free() == old(S().Free())
      ensures |data.counts| == old(|data.counts|)
    {
      hide State.Head, Countable, State.Inv, State.Contents, Undisturbed, State.Outside;
      ghost var s := S();
      var es := w.ReadNode(c.leaf, n.block);
      if es.None? {
        return false;
      }
      ok := CountValues(es.value);
      if !ok {
        return;
      }
      QueueKeeps(c, s, es.value, data.counts);
      QueuedHead(s, es.value, data.counts);
      values := values + es.value;
      assert S() == Queued(s, es.value, data.counts);
      forall t ensures S().Outside(t) == s.Outside(t) {
        QueueOutside(s, es.value, data.counts, t);
      }
    }

    /** Uses prebuilt nodes as they are, counting each node's block once more. */
    method AdoptNodes(ns: seq<Summary>) returns (ok: bool)
      requires Ok() && values == [] && c.leaf && !c.shared
      requires forall i :: 0 <= i < |ns| ==> Pushable(c, S(), ns[i])
      modifies this`nodes, w.sm
      ensures ok ==> Ok() && Step(c, old(S()), S()) && S().Contents() == old(S().Contents()) + Flat(w.blocks, ns)
      ensures ok ==> nodes == old(nodes) + ns && CountedMore(old(w.sm.counts), w.sm.counts, ns)
      ensures ok ==> S().Head() >= old(S().Head()) - |ns| && S().Blocks(c) == old(S().Blocks(c))
      ensures old(S().Head()) >= |ns| ==> ok
    {
      hide State.Head, State.Blocks, Pushable, State.Inv, State.Contents, Undisturbed, State.Outside, SameOutside, CountedMore;
      ghost var s0 := S();
      StepRefl(c, s0);
      assert ns[..0] == [];
      CountedNone(s0.counts);
      for i := 0 to |ns|
        invariant Ok() && Step(c, s0, S()) && values == []
        invariant S().Contents() == s0.Contents() + Flat(w.blocks, ns[..i])
        invariant nodes == old(nodes) + ns[..i] && CountedMore(s0.counts, w.sm.counts, ns[..i])
        invariant S().Head() >= s0.Head() - i && S().Blocks(c) == s0.Blocks(c)
      {
        ghost var s := S();
        AdoptMore(c, s0, s, ns, i);
        PushableInUse(c, s, ns[i]);
        AdoptedHead(c, s, ns[i]);
        HeadAt(s, ns[i].block);
        CountedPush(s0.counts, s.counts, ns, i);
        ok := w.sm.Inc(ns[i].block);
        if !ok {
          return;
        }
        nodes := nodes + [ns[i]];
        assert S() == Adopted(s, ns[i]);
      }
      assert ns[..|ns|] == ns;
      ok := true;
    }

    /** Pushes prebuilt shared nodes, which are used as they are where possible and unpacked where an under
        populated node would result.  `WellFilled` is the source's sanity check, whose panic is unreachable for
        the result of another builder's `complete`. */
    method PushNodes(ns: seq<Summary>) returns (ok: bool)
      requires Valid() && c.leaf && !c.shared && WellFilled(ns, c.max)
      requires forall i :: 0 <= i < |ns| ==> Pushable(c, S(), ns[i])
      modifies this, w, w.sm, data
      ensures ok ==> Valid() && Step(c, old(S()), S())
      ensures ok ==> S().Contents() == old(S().Contents()) + Flat(old(w.blocks), ns)
      ensures ok ==> Pushed(c, old(S()), S(), ns)
      ensures ok ==> if |ns| == 1 && old(nodes) == [] && old(values) == [] then lastKey == old(lastKey)
                     else lastKey == Some(ns[|ns| - 1].key) && (old(lastKey).Some? ==> old(lastKey).value < ns[0].key)
      ensures ok ==> S().Head() >= old(S().Head()) - 3 * c.max - |ns| && S().Blocks(c) == old(S().Blocks(c))
      ensures |data.counts| == old(|data.counts|)
      ensures old(S().Covered()) && StrictlyAscending(old(S().Contents()) + Flat(old(w.blocks), ns))
              && old(S().Head()) >= 3 * c.max + |ns| && old(S().Enough(c, |S().Contents()|))
              && ((|ns| == 1 && old(nodes) == [] && old(values) == []) || (old(lastKey).Some? ==> old(lastKey).value < ns[0].key))
              ==> ok
    {
      hide State.Head, State.Blocks, State.Free, State.Enough, State.Covered, State.Inv, State.Contents, Undisturbed, State.Outside,
           SameOutside, Flat, Pushable, Laid, CountedMore;
      if |ns| == 1 && nodes == [] && values == [] {
        ok := AdoptNodes(ns);
        return;
      }
      ok := PushBehind(ns);
    }

    /** The rest of `push_nodes`, for nodes that do not come first. */
    method PushBehind(ns: seq<Summary>) returns (ok: bool)
      requires Valid() && c.leaf && !c.shared && WellFilled(ns, c.max) && !(|ns| == 1 && nodes == [] && values == [])
      requires forall i :: 0 <= i < |ns| ==> Pushable(c, S(), ns[i])
      modifies this, w, w.sm, data
      ensures ok ==> Valid() && Step(c, old(S()), S())
      ensures ok ==> S().Contents() == old(S().Contents()) + Flat(old(w.blocks), ns)
      ensures ok ==> Pushed(c, old(S()), S(), ns)
      ensures ok ==> lastKey == Some(ns[|ns| - 1].key) && (old(lastKey).Some? ==> old(lastKey).value < ns[0].key)
      ensures ok ==> S().Head() >= old(S().Head()) - 3 * c.max - |ns| && S().Blocks(c) == old(S().Blocks(c))
      ensures |data.counts| == old(|data.counts|)
      ensures old(S().Covered()) && StrictlyAscending(old(S().Contents()) + Flat(old(w.blocks), ns))
              && old(S().Head()) >= 3 * c.max + |ns| && old(S().Enough(c, |S().Contents()|))
              && (old(lastKey).Some? ==> old(lastKey).value < ns[0].key)
              ==> ok
    {
      hide State.Head, State.Blocks, State.Free, State.Enough, State.Covered, State.Inv, State.Contents, Undisturbed, State.Outside,
           SameOutside, Flat, Pushable, PushedBehind, PushedWhole, Pushed;
      ghost var s0 := S();
      if nodes != [] {
        NodeFits(c, s0, |nodes| - 1);
      }
      if s0.Enough(c, |s0.Contents()|) {
        FreeEnough(c, s0, |s0.Contents()|);
      }
      ghost var smooth := s0.Covered() && StrictlyAscending(s0.Contents() + Flat(s0.blocks, ns));
      if smooth {
        FirstNodeAscends(s0, ns);
      }
      if lastKey.Some? && ns[0].key <= lastKey.value {
        return false;
      }
      ok := true;
      if |nodes| == 1 && nodes[0].nrEntries < c.max / 2 {
        ok := UnshiftNode();
      } else {
        StepRefl(c, s0);
      }
      if !ok {
        return;
      }
      ghost var s1 := S();
      if 0 < |values| < c.max / 2 {
        ok := PushUnpacked(s0, ns);
      } else {
        ok := PushAsBuilt(s0, ns);
      }
      if ok {
        PushedSays(c, s0, s1, S(), ns);
        lastKey := Some(ns[|ns| - 1].key);
      }
    }

    /** Too few values are queued to make a node: the first prebuilt node is unpacked behind them. */
    method PushUnpacked(ghost s0: State, ns: seq<Summary>) returns (ok: bool)
      requires Ok() && c.leaf && !c.shared && WellFilled(ns, c.max) && S().HalfFull(c) && 0 < |values| < c.max / 2
      requires s0.Inv(c) && Step(c, s0, S()) && S().Contents() == s0.Contents()
      requires forall i :: 0 <= i < |ns| ==> Pushable(c, s0, ns[i])
      modifies this, w, w.sm, data
      ensures ok ==> Valid() && Step(c, s0, S()) && S().Contents() == s0.Contents() + Flat(s0.blocks, ns)
      ensures ok ==> PushedBehind(c, old(S()), S(), ns)
      ensures ok ==> S().Head() >= old(S().Head()) - 2 * c.max - |ns| && S().Blocks(c) == old(S().Blocks(c))
      ensures |data.counts| == old(|data.counts|)
      ensures s0.Covered() && StrictlyAscending(EntriesAt(s0.blocks, ns[0].block)) && old(S().Head()) >= 2 * c.max + |ns|
              && old(S().Free()) >= 2
              ==> ok
    {
      hide Flat, Pushable, State.Head, State.Blocks, State.Free, State.Covered, State.Inv, State.Contents, Undisturbed, State.Outside,
           SameOutside, Countable, Laid, CountedMore, SameUsed;
      ok := true;
      ghost var s1 := S();
      StaysPushable(c, s0, s1, ns[0]);
      if s0.Covered() && s1.Head() >= 2 * c.max {
        CanUnpack(c, s0, s1, ns[0]);
      }
      SameEntries(c, s0, s1, ns[0]);
      ok := AppendValues(ns[0]);
      if !ok {
        return;
      }
      ghost var s2 := S();
      StepTrans(c, s0, s1, s2);
      FlatPushable(c, s0, s2, ns[..1]);
      FlatOne(s0.blocks, ns[..1]);
      if |ns| > 1 {
        ok := EmitAll();
        if !ok {
          return;
        }
        ghost var s3 := S();
        StepTrans(c, s0, s2, s3);
        LaidSays(c, s2.nodes, nodes, |s2.values|);
        ok := AdoptRest(s0, ns, 1);
        if ok {
          LaidTail(c, s2.nodes, s3.nodes, |s2.values|, ns[1..]);
          CountedAfter(s2.counts, s3.counts, w.sm.counts, ns[1..]);
        }
      } else {
        assert ns[..1] == ns;
      }
    }

    method PushAsBuilt(ghost s0: State, ns: seq<Summary>) returns (ok: bool)
      requires Ok() && c.leaf && !c.shared && WellFilled(ns, c.max) && S().HalfFull(c)
      requires values == [] || c.max / 2 <= |values| <= 2 * c.max
      requires s0.Inv(c) && Step(c, s0, S()) && S().Contents() == s0.Contents()
      requires forall i :: 0 <= i < |ns| ==> Pushable(c, s0, ns[i])
      modifies this, w, w.sm, data
      ensures ok ==> Valid() && Step(c, s0, S()) && S().Contents() == s0.Contents() + Flat(s0.blocks, ns)
      ensures ok ==> PushedWhole(c, old(S()), S(), ns)
      ensures ok ==> S().Head() >= old(S().Head()) - 2 * c.max - |ns| && S().Blocks(c) == old(S().Blocks(c))
      ensures |data.counts| == old(|data.counts|)
      ensures s0.Covered() && StrictlyAscending(EntriesAt(s0.blocks, ns[0].block)) && old(S().Head()) >= 2 * c.max + |ns|
              && old(S().Free()) >= 2
              ==> ok
    {
      hide Flat, Pushable, State.Head, State.Blocks, State.Free, State.Covered, State.Inv, State.Contents, Undisturbed, State.Outside,
           SameOutside, Countable, Laid, CountedMore, SameUsed;
      ghost var s1 := S();
      ok := EmitAll();
      if !ok {
        return;
      }
      ghost var s2 := S();
      StepTrans(c, s0, s1, s2);
      LaidSays(c, s1.nodes, s2.nodes, |s1.values|);
      if ns[0].nrEntries < c.max / 2 {
        StaysPushable(c, s0, s2, ns[0]);
        if s0.Covered() && s2.Head() >= c.max {
          CanUnpack(c, s0, s2, ns[0]);
        }
        SameEntries(c, s0, s2, ns[0]);
        ok := AppendValues(ns[0]);
        if ok {
          StepTrans(c, s0, s2, S());
          FlatPushable(c, s0, S(), ns);
          FlatOne(s0.blocks, ns);
        }
      } else {
        assert ns[..0] == [];
        FlatNone(s0.blocks);
        ok := AdoptRest(s0, ns, 0);
        assert ns[0..] == ns;
        if ok {
          LaidTail(c, s1.nodes, s2.nodes, |s1.values|, ns);
          CountedAfter(s1.counts, s2.counts, w.sm.counts, ns);
        }
      }
    }

    method AdoptRest(ghost s0: State, ns: seq<Summary>, k: nat) returns (ok: bool)
      requires Ok() && values == [] && c.leaf && !c.shared && k <= |ns| && S().HalfFull(c)
      requires s0.Inv(c) && Step(c, s0, S()) && S().Contents() == s0.Contents() + Flat(s0.blocks, ns[..k])
      requires forall i :: 0 <= i < |ns| ==> Pushable(c, s0, ns[i]) && ns[i].nrEntries >= c.max / 2
      modifies this`nodes, w.sm
      ensures ok ==> Valid() && Step(c, s0, S()) && S().Contents() == s0.Contents() + Flat(s0.blocks, ns)
      ensures ok ==> nodes == old(nodes) + ns[k..] && CountedMore(old(w.sm.counts), w.sm.counts, ns[k..])
      ensures ok ==> S().Head() >= old(S().Head()) - |ns| && S().Blocks(c) == old(S().Blocks(c))
      ensures old(S().Head()) >= |ns| ==> ok
    {
      hide State.Head, State.Blocks, Pushable, Flat, State.Inv, State.Contents, Undisturbed, State.Outside, SameOutside;
      ghost var s1 := S();
      forall i | k <= i < |ns| ensures Pushable(c, s1, ns[i]) {
        StaysPushable(c, s0, s1, ns[i]);
      }
      ok := AdoptNodes(ns[k..]);
      if ok {
        StepTrans(c, s0, s1, S());
        FlatPushable(c, s0, S(), ns[k..]);
        assert ns == ns[..k] + ns[k..];
        FlatConcat(s0.blocks, ns[..k], ns[k..]);
      }
    }

    /** Signals that nothing more will be pushed and returns the built nodes. */
    method Complete() returns (r: Option<seq<Summary>>)
      requires Valid()
      modifies this, w, w.sm, data
      ensures r.Some? ==> Ok() && Step(c, old(S()), S()) && nodes == r.value && values == []
      ensures r.Some? ==> Flat(w.blocks, r.value) == old(S().Contents()) && WellFilled(r.value, c.max)
      ensures r.Some? ==> Ended(c, old(S()), r.value)
      ensures r.Some? ==> S().Head() >= old(S().Head()) - (if old(S().AllOwned(c)) then 0 else c.max)
      ensures r.Some? ==> S().Blocks(c) == old(S().Blocks(c)) && (old(S().AllOwned(c)) ==> S().AllOwned(c))
      ensures |data.counts| == old(|data.counts|)
      ensures old(S().Smooth(c)) && old(S().Enough(c, |S().Contents()|))
              && (old(S().AllOwned(c)) || old(S().Head()) >= c.max)
              ==> r.Some?
    {
      hide State.Head, State.Blocks, State.Free, State.Enough, State.Smooth, Flat, State.Inv, Undisturbed, State.Outside, SameOutside,
           Laid, SameUsed, Counted, WellFilled;
      ghost var s0 := S();
      if s0.Enough(c, |s0.Contents()|) {
        FreeEnough(c, s0, |s0.Contents()|);
      }
      if nodes != [] {
        NodeFits(c, s0, |nodes| - 1);
        assert s0.AllOwned(c) ==> s0.Owned(c, |nodes| - 1);
      }
      StepRefl(c, s0);
      var ok := true;
      if 0 < |values| < c.max / 2 && nodes != [] {
        NodeFits(c, s0, |nodes| - 1);
        ok := UnshiftNode();
      }
      if ok {
        ghost var s1 := S();
        ok := EmitLast();
        if ok {
          StepTrans(c, s0, s1, S());
          EndedFilled(c, s0, nodes);
        }
      }
      r := if ok then Some(nodes) else None;
      assert ok ==> S().Contents() == Flat(w.blocks, nodes);
    }

    /** The end of `complete`: emits what is queued, and an empty node if there would be none. */
    method EmitLast() returns (ok: bool)
      requires Ok() && |values| <= 2 * c.max
      modifies this, w, w.sm
      ensures ok ==> Ok() && Step(c, old(S()), S()) && S().Contents() == old(S().Contents()) && values == []
      ensures ok ==> if old(nodes) == [] && old(values) == [] then |nodes| == 1 && nodes[0].nrEntries == 0 && nodes[0].shared == c.shared
                     else nodes != [] && Laid(c, old(nodes), nodes, old(|values|), [])
      ensures ok ==> S().Head() >= old(S().Head()) && S().Blocks(c) == old(S().Blocks(c))
      ensures ok && old(S().AllOwned(c)) ==> S().AllOwned(c)
      ensures old(S().Free()) >= 2 ==> ok
    {
      hide State.Head, State.Blocks, State.Free, State.AllOwned, State.Inv, State.Contents, Undisturbed, State.Outside, SameOutside,
           Laid, SameUsed;
      ghost var s0 := S();
      ok := EmitAll();
      if ok {
        LaidSays(c, s0.nodes, nodes, |s0.values|);
        if nodes == [] {
          ghost var s := S();
          ok := EmitValues(0);
          if ok {
            StepTrans(c, s0, s, S());
          }
        }
      }
    }
  }
}
