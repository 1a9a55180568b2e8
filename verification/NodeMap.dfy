/** What the threads of the layer reader of src/thin/check.rs share, and what one does with the nodes of a layer. */
module NodeMaps {
  datatype Info = Info(keys: seq<nat>, children: seq<nat>)

  datatype Error = IoError | ChecksumError | NotANode | BlockNrMismatch | BadNode(what: nat)

  /** What is known of a block.  A node below which nobody has looked yet is taken for a leaf. */
  datatype Found = Leaf | Internal(info: Info) | Bad(error: Error)

  datatype Update = Update(loc: nat, info: Found)

  /** Whether an update is accepted: a block is classified once, except that a supposed leaf may turn out not
      to be one. */
  predicate Accepts(nodes: map<nat, Found>, u: Update) {
    u.loc !in nodes || (nodes[u.loc].Leaf? && !u.info.Leaf?)
  }

  function Insert(nodes: map<nat, Found>, u: Update): map<nat, Found> {
    if Accepts(nodes, u) then nodes[u.loc := u.info] else nodes
  }

  function InsertAll(nodes: map<nat, Found>, us: seq<Update>): map<nat, Found> {
    if us == [] then nodes else Insert(InsertAll(nodes, us[..|us| - 1]), us[|us| - 1])
  }

  /** What is known of block b after some updates: what it was, unless it was not seen or supposed a leaf; then what the
      first of the updates says that does not suppose it a leaf; and otherwise a leaf, if it was one or any says so. */
  ghost predicate Classified(nodes: map<nat, Found>, us: seq<Update>, b: nat, nodes': map<nat, Found>) {
    && (b in nodes && nodes[b] != Leaf ==> b in nodes' && nodes'[b] == nodes[b])
    && (b !in nodes || nodes[b] == Leaf ==>
          && (forall i :: FirstNoLeaf(us, b, i) ==> b in nodes' && nodes'[b] == us[i].info)
          && ((forall i :: !FirstNoLeaf(us, b, i)) ==>
                (b in nodes' <==> b in nodes || Update(b, Leaf) in us) && (b in nodes' ==> nodes'[b] == Leaf)))
  }

  ghost predicate FirstNoLeaf(us: seq<Update>, b: nat, i: int) {
    && 0 <= i < |us| && us[i].loc == b && us[i].info != Leaf
    && forall k :: 0 <= k < i && us[k].loc == b ==> us[k].info == Leaf
  }

  lemma {:induction false} AllClassified(nodes: map<nat, Found>, us: seq<Update>, b: nat)
    ensures Classified(nodes, us, b, InsertAll(nodes, us))
    decreases |us|
  {
    if us != [] {
      var n := |us| - 1;
      var before := us[..n];
      AllClassified(nodes, before, b);
      assert us == before + [us[n]];
      forall i ensures FirstNoLeaf(us, b, i) <==>
          FirstNoLeaf(before, b, i)
          || (i == n && us[n].loc == b && us[n].info != Leaf && forall k :: 0 <= k < n && us[k].loc == b ==> us[k].info == Leaf)
      {
        assert forall k :: 0 <= k < n ==> before[k] == us[k];
      }
      if us[n].loc == b && us[n].info != Leaf && !exists i :: FirstNoLeaf(before, b, i) {
        OnlyLeaves(before, b);
        assert forall k :: 0 <= k < n ==> before[k] == us[k];
        assert FirstNoLeaf(us, b, n);
      }
    }
  }

  lemma {:induction false} OnlyLeaves(us: seq<Update>, b: nat)
    requires forall i :: !FirstNoLeaf(us, b, i)
    ensures forall k :: 0 <= k < |us| && us[k].loc == b ==> us[k].info == Leaf
    decreases |us|
  {
    if us != [] {
      var n := |us| - 1;
      assert forall k :: 0 <= k < n ==> us[..n][k] == us[k];
      forall i ensures !FirstNoLeaf(us[..n], b, i) {
        assert FirstNoLeaf(us[..n], b, i) ==> FirstNoLeaf(us, b, i);
      }
      OnlyLeaves(us[..n], b);
      assert !FirstNoLeaf(us, b, n);
    }
  }

  /** Two bits for each block: neither of one not seen, both of an internal node. */
  ghost predicate BitsOk(nodeType: set<nat>, nodes: map<nat, Found>) {
    forall b: nat :: (2 * b in nodeType <==> b in nodes && !nodes[b].Bad?) && (2 * b + 1 in nodeType <==> b in nodes && !nodes[b].Leaf?)
  }

  ghost predicate LeavesOk(leafNodes: set<nat>, nrLeaves: int, nodes: map<nat, Found>) {
    nrLeaves == |leafNodes| && forall b :: b in leafNodes <==> b in nodes && nodes[b].Leaf?
  }

  ghost predicate InfosOk(infos: map<nat, Info>, nodes: map<nat, Found>) {
    && (forall b :: b in infos <==> b in nodes && nodes[b].Internal?)
    && (forall b :: b in infos ==> nodes[b].info == infos[b])
  }

  ghost predicate ErrorsOk(errors: map<nat, Error>, nodes: map<nat, Found>) {
    && (forall b :: b in errors <==> b in nodes && nodes[b].Bad?)
    && (forall b :: b in errors ==> nodes[b].error == errors[b])
  }

  lemma LeafBit(bits: set<nat>, leaves: set<nat>, n: int, nodes: map<nat, Found>, b: nat)
    requires BitsOk(bits, nodes) && LeavesOk(leaves, n, nodes) && (b in nodes ==> nodes[b].Leaf?)
    ensures 2 * b in bits <==> b in leaves
  {
  }

  lemma BitsChange(bits: set<nat>, bits': set<nat>, nodes: map<nat, Found>, b: nat, f: Found)
    requires BitsOk(bits, nodes)
    requires forall i: nat :: i != 2 * b && i != 2 * b + 1 ==> (i in bits' <==> i in bits)
    requires (2 * b in bits' <==> !f.Bad?) && (2 * b + 1 in bits' <==> !f.Leaf?)
    ensures BitsOk(bits', nodes[b := f])
  {
    forall c: nat
      ensures 2 * c in bits' <==> c in nodes[b := f] && !nodes[b := f][c].Bad?
      ensures 2 * c + 1 in bits' <==> c in nodes[b := f] && !nodes[b := f][c].Leaf?
    {
    }
  }

  lemma LeavesChange(leaves: set<nat>, n: int, nodes: map<nat, Found>, b: nat, f: Found)
    requires LeavesOk(leaves, n, nodes) && (f.Leaf? ==> b !in nodes)
    ensures f.Leaf? ==> LeavesOk(leaves + {b}, n + 1, nodes[b := f])
    ensures !f.Leaf? ==> LeavesOk(leaves - {b}, if b in leaves then n - 1 else n, nodes[b := f])
  {
    if !f.Leaf? && b !in leaves {
      assert leaves - {b} == leaves;
    }
  }

  lemma TablesChange(infos: map<nat, Info>, errors: map<nat, Error>, nodes: map<nat, Found>, b: nat, f: Found)
    requires InfosOk(infos, nodes) && ErrorsOk(errors, nodes) && (b in nodes ==> nodes[b].Leaf?)
    ensures InfosOk(if f.Internal? then infos[b := f.info] else infos, nodes[b := f])
    ensures ErrorsOk(if f.Bad? then errors[b := f.error] else errors, nodes[b := f])
  {
  }

  lemma Changes(bits: set<nat>, bits': set<nat>, leaves: set<nat>, n: int, infos: map<nat, Info>, errors: map<nat, Error>,
                nodes: map<nat, Found>, b: nat, f: Found)
    requires BitsOk(bits, nodes) && LeavesOk(leaves, n, nodes) && InfosOk(infos, nodes) && ErrorsOk(errors, nodes)
    requires Accepts(nodes, Update(b, f))
    requires bits' == bits + (if f.Leaf? then {2 * b} else if f.Internal? then {2 * b, 2 * b + 1} else {2 * b + 1})
                      - (if f.Bad? then {2 * b} else {})
    ensures BitsOk(bits', nodes[b := f])
    ensures f.Leaf? ==> LeavesOk(leaves + {b}, n + 1, nodes[b := f])
    ensures !f.Leaf? ==> LeavesOk(leaves - {b}, if b in leaves then n - 1 else n, nodes[b := f])
    ensures InfosOk(if f.Internal? then infos[b := f.info] else infos, nodes[b := f])
    ensures ErrorsOk(if f.Bad? then errors[b := f.error] else errors, nodes[b := f])
  {
    hide InfosOk, ErrorsOk, LeavesOk;
    assert 2 * b + 1 in bits <==> b in nodes && !nodes[b].Leaf?;
    hide BitsOk;
    BitsChange(bits, bits', nodes, b, f);
    LeavesChange(leaves, n, nodes, b, f);
    TablesChange(infos, errors, nodes, b, f);
  }

  /** Two bits for each block, the set of leaves and its size, kept in step. */
  class NodeMap {
    const nrBlocks: nat
    var nodeType: set<nat> // bit 2b and bit 2b + 1 for block b
    var leafNodes: set<nat>
    var nrLeaves: int
    var internalInfo: map<nat, Info>
    var nodeErrors: map<nat, Error>
    ghost var nodes: map<nat, Found>

    ghost predicate Valid()
      reads this
    {
      && BitsOk(nodeType, nodes) && LeavesOk(leafNodes, nrLeaves, nodes)
      && InfosOk(internalInfo, nodes) && ErrorsOk(nodeErrors, nodes)
    }

    constructor (nrBlocks: nat)
      ensures Valid() && nodes == map[] && this.nrBlocks == nrBlocks
    {
      this.nrBlocks := nrBlocks;
      nodeType, leafNodes, nrLeaves := {}, {}, 0;
      internalInfo, nodeErrors, nodes := map[], map[], map[];
    }

    /** Whether a block has been read or supposed a leaf, whether it is a leaf, and whether it is in error. */
    method GetType(b: nat) returns (isNone: bool, isLeaf: bool, isError: bool)
      requires Valid()
      ensures isNone <==> b !in nodes
      ensures isLeaf <==> b in nodes && nodes[b].Leaf?
      ensures isError <==> b in nodes && nodes[b].Bad?
    {
      var lsb, msb := 2 * b in nodeType, 2 * b + 1 in nodeType;
      isNone, isLeaf, isError := !lsb && !msb, lsb && !msb, !lsb && msb;
    }

    method InsertLeaf(b: nat) returns (ok: bool)
      requires Valid() && b < nrBlocks
      modifies this
      ensures Valid() && (ok <==> b !in old(nodes)) && nodes == if ok then old(nodes)[b := Leaf] else old(nodes)
    {
      hide BitsOk, LeavesOk, InfosOk, ErrorsOk;
      var isNone, _, _ := GetType(b);
      if !isNone {
        return false;
      }
      Changes(nodeType, nodeType + {2 * b}, leafNodes, nrLeaves, internalInfo, nodeErrors, nodes, b, Leaf);
      nodeType, leafNodes, nrLeaves := nodeType + {2 * b}, leafNodes + {b}, nrLeaves + 1;
      nodes := nodes[b := Leaf];
      ok := true;
    }

    method InsertInternal(b: nat, info: Info) returns (ok: bool)
      requires Valid() && b < nrBlocks
      modifies this
      ensures Valid() && (ok <==> b !in old(nodes) || old(nodes)[b] == Leaf)
      ensures nodes == if ok then old(nodes)[b := Internal(info)] else old(nodes)
    {
      hide BitsOk, LeavesOk, InfosOk, ErrorsOk;
      var isNone, isLeaf, _ := GetType(b);
      if !isNone && !isLeaf {
        return false;
      }
      Changes(nodeType, nodeType + {2 * b, 2 * b + 1}, leafNodes, nrLeaves, internalInfo, nodeErrors, nodes, b, Internal(info));
      internalInfo := internalInfo[b := info];
      nodeType := nodeType + {2 * b, 2 * b + 1};
      if b in leafNodes {
        leafNodes, nrLeaves := leafNodes - {b}, nrLeaves - 1;
      } else {
        assert leafNodes - {b} == leafNodes;
      }
      nodes := nodes[b := Internal(info)];
      ok := true;
    }

    method InsertError(b: nat, e: Error) returns (ok: bool)
      requires Valid() && b < nrBlocks
      modifies this
      ensures Valid() && (ok <==> b !in old(nodes) || old(nodes)[b] == Leaf)
      ensures nodes == if ok then old(nodes)[b := Bad(e)] else old(nodes)
    {
      hide BitsOk, LeavesOk, InfosOk, ErrorsOk;
      var isNone, isLeaf, _ := GetType(b);
      if !isNone && !isLeaf {
        return false;
      }
      LeafBit(nodeType, leafNodes, nrLeaves, nodes, b);
      Changes(nodeType, nodeType + {2 * b + 1} - {2 * b}, leafNodes, nrLeaves, internalInfo, nodeErrors, nodes, b, Bad(e));
      nodeErrors := nodeErrors[b := e];
      nodeType := nodeType + {2 * b + 1};
      if b in leafNodes {
        nodeType, leafNodes, nrLeaves := nodeType - {2 * b}, leafNodes - {b}, nrLeaves - 1;
      } else {
        assert nodeType - {2 * b} == nodeType && leafNodes - {b} == leafNodes;
      }
      nodes := nodes[b := Bad(e)];
      ok := true;
    }

    /** `batch_update`: the updates in order, those not accepted having no effect. */
    method BatchUpdate(updates: seq<Update>)
      requires Valid() && forall u :: u in updates ==> u.loc < nrBlocks
      modifies this
      ensures Valid() && nodes == InsertAll(old(nodes), updates)
      ensures forall b :: Classified(old(nodes), updates, b, nodes)
    {
      hide BitsOk, LeavesOk, InfosOk, ErrorsOk;
      for i := 0 to |updates|
        invariant Valid() && nodes == InsertAll(old(nodes), updates[..i])
      {
        var u := updates[i];
        assert u in updates && updates[..i + 1][..i] == updates[..i];
        match u.info {
          case Leaf =>
            var _ := InsertLeaf(u.loc);
          case Internal(info) =>
            var _ := InsertInternal(u.loc, info);
          case Bad(e) =>
            var _ := InsertError(u.loc, e);
        }
      }
      assert updates[..|updates|] == updates;
      forall b ensures Classified(old(nodes), updates, b, nodes) {
        AllClassified(old(nodes), updates, b);
      }
    }
  }

  /** How many of the blocks are b. */
  function Mult(bs: seq<nat>, b: nat): (n: nat)
    ensures n > 0 <==> b in bs
  {
    if bs == [] then 0 else Mult(bs[..|bs| - 1], b) + if bs[|bs| - 1] == b then 1 else 0
  }

  /** Reference counts, shared by the threads. */
  class Aggregator {
    var counts: seq<nat>

    constructor (nrBlocks: nat)
      ensures counts == seq(nrBlocks, i => 0)
    {
      counts := seq(nrBlocks, i => 0);
    }

    /** Increments each of the blocks, telling which had been counted before.  Blocks past the end are ignored. */
    method TestAndInc(blocks: seq<nat>) returns (seen: seq<bool>)
      modifies this
      ensures Counted(old(counts), blocks, counts) && SeenBefore(old(counts), blocks, seen)
    {
      seen := [];
      for i := 0 to |blocks|
        invariant Counted(old(counts), blocks[..i], counts) && SeenBefore(old(counts), blocks[..i], seen)
      {
        hide Counted, SeenBefore;
        ghost var counts0, seen0 := counts, seen;
        var b := blocks[i];
        if b < |counts| {
          seen := seen + [counts[b] > 0];
          counts := counts[b := counts[b] + 1];
        } else {
          seen := seen + [false];
        }
        assert blocks[..i + 1] == blocks[..i] + [b];
        CountedMore(old(counts), blocks[..i], counts0, seen0, b);
      }
      assert blocks[..|blocks|] == blocks;
    }
  }

  ghost predicate Counted(before: seq<nat>, blocks: seq<nat>, after: seq<nat>) {
    |after| == |before| && forall b :: 0 <= b < |after| ==> after[b] == before[b] + Mult(blocks, b)
  }

  /** seen[i] tells whether blocks[i] was counted before the call, or earlier in it. */
  ghost predicate SeenBefore(before: seq<nat>, blocks: seq<nat>, seen: seq<bool>) {
    && |seen| == |blocks|
    && forall i :: 0 <= i < |seen| ==>
         seen[i] == (blocks[i] < |before| && (before[blocks[i]] > 0 || blocks[i] in blocks[..i]))
  }

  lemma CountedMore(before: seq<nat>, blocks: seq<nat>, counts: seq<nat>, seen: seq<bool>, b: nat)
    requires Counted(before, blocks, counts) && SeenBefore(before, blocks, seen)
    ensures Counted(before, blocks + [b], if b < |counts| then counts[b := counts[b] + 1] else counts)
    ensures SeenBefore(before, blocks + [b], seen + [b < |counts| && counts[b] > 0])
  {
    MultPush(blocks, b);
    hide Mult;
    var blocks', seen' := blocks + [b], seen + [b < |counts| && counts[b] > 0];
    forall i | 0 <= i < |seen'|
      ensures seen'[i] == (blocks'[i] < |before| && (before[blocks'[i]] > 0 || blocks'[i] in blocks'[..i]))
    {
      assert blocks'[..i] == blocks[..i];
    }
  }

  lemma {:induction false} MultPush(blocks: seq<nat>, b: nat)
    ensures forall c: nat :: Mult(blocks + [b], c) == Mult(blocks, c) + if c == b then 1 else 0
    ensures Mult(blocks, b) > 0 <==> b in blocks
  {
    assert (blocks + [b])[..|blocks|] == blocks;
  }

  /** What reading a block gave: a failure, or a node whose header checks passed. */
  datatype BlockRead = Failed(error: Error) | GoodLeaf | GoodInternal(keys: seq<nat>, vals: seq<nat>)

  /** The new children a thread is first to reach. */
  ghost function Reached(counts: seq<nat>, blocks: seq<nat>): set<nat> {
    set b | b in blocks && b < |counts| && counts[b] == 0
  }

  lemma ReachedMore(counts: seq<nat>, blocks: seq<nat>, b: nat)
    ensures Reached(counts, blocks + [b])
            == Reached(counts, blocks) + if b < |counts| && counts[b] == 0 && b !in blocks then {b} else {}
  {
  }

  const NODE_MAP_BATCH_SIZE := 1024

  class LayerHandler {
    const aggregator: Aggregator
    const nodes: NodeMap
    var children: set<nat>
    var updates: seq<Update>

    ghost predicate Valid()
      reads this, aggregator, nodes
    {
      && nodes.Valid() && |aggregator.counts| == nodes.nrBlocks
      && (forall u :: u in updates ==> u.loc < nodes.nrBlocks) && |updates| <= NODE_MAP_BATCH_SIZE
    }

    constructor (aggregator: Aggregator, nodes: NodeMap)
      requires nodes.Valid() && |aggregator.counts| == nodes.nrBlocks
      ensures Valid() && children == {} && updates == [] && this.aggregator == aggregator && this.nodes == nodes
    {
      this.aggregator, this.nodes, children, updates := aggregator, nodes, {}, [];
    }

    method FlushUpdates()
      requires Valid()
      modifies this`updates, nodes
      ensures Valid() && updates == [] && nodes.nodes == InsertAll(old(nodes.nodes), old(updates))
    {
      if updates != [] {
        var us := updates;
        updates := [];
        nodes.BatchUpdate(us);
      }
    }

    /** Handles the outcome of reading a block.  What has been inserted and what is waiting to be, taken together,
        gain the block's update; the children nobody had reached before are this thread's to read. */
    method Handle(loc: nat, data: BlockRead)
      requires Valid() && loc < nodes.nrBlocks
      modifies this, nodes, aggregator
      ensures Valid()
      ensures InsertAll(nodes.nodes, updates)
              == InsertAll(InsertAll(old(nodes.nodes), old(updates)),
                   match data
                   case Failed(e) => [Update(loc, Bad(e))]
                   case GoodLeaf => []
                   case GoodInternal(keys, vals) => [Update(loc, Internal(Info(keys, vals)))])
      ensures children == old(children) + if data.GoodInternal? then Reached(old(aggregator.counts), data.vals) else {}
      ensures Counted(old(aggregator.counts), if data.GoodInternal? then data.vals else [], aggregator.counts)
    {
      hide BitsOk, LeavesOk, InfosOk, ErrorsOk, Insert, SeenBefore;
      ghost var all := InsertAll(nodes.nodes, updates);
      if |updates| >= NODE_MAP_BATCH_SIZE {
        FlushUpdates();
      }
      assert InsertAll(nodes.nodes, updates) == all;
      match data
      case Failed(e) =>
        Push(loc, Bad(e));
      case GoodLeaf =>
      case GoodInternal(keys, vals) =>
        Push(loc, Internal(Info(keys, vals)));
        ghost var counts := aggregator.counts;
        var seen := aggregator.TestAndInc(vals);
        AddChildren(vals, seen, counts);
    }

    method Push(loc: nat, info: Found)
      requires Valid() && |updates| < NODE_MAP_BATCH_SIZE && loc < nodes.nrBlocks
      modifies this`updates
      ensures Valid() && updates == old(updates) + [Update(loc, info)]
      ensures InsertAll(nodes.nodes, updates) == InsertAll(InsertAll(nodes.nodes, old(updates)), [Update(loc, info)])
    {
      ghost var us, u := updates, Update(loc, info);
      updates := updates + [Update(loc, info)];
      assert (us + [u])[..|us|] == us;
      assert [u][..0] == [];
      assert InsertAll(InsertAll(nodes.nodes, us), [u]) == Insert(InsertAll(InsertAll(nodes.nodes, us), []), u);
    }

    method AddChildren(vals: seq<nat>, seen: seq<bool>, ghost counts: seq<nat>)
      requires |counts| == |aggregator.counts| && SeenBefore(counts, vals, seen)
      modifies this`children
      ensures children == old(children) + Reached(counts, vals)
    {
      for i := 0 to |vals|
        invariant children == old(children) + Reached(counts, vals[..i])
      {
        hide Reached;
        assert vals[..i + 1] == vals[..i] + [vals[i]];
        ReachedMore(counts, vals[..i], vals[i]);
        if !seen[i] && vals[i] < |aggregator.counts| {
          children := children + {vals[i]};
        }
      }
      assert vals[..|vals|] == vals;
    }

    method Complete()
      requires Valid()
      modifies this`updates, nodes
      ensures Valid() && updates == [] && nodes.nodes == InsertAll(old(nodes.nodes), old(updates))
    {
      FlushUpdates();
    }
  }
}
