/** Metadata nodes, the references they hold, and the ledger that sets counts against references. */
module Ledger {
  import opened Wrappers

  /** A leaf of a mapping tree holds `Mapped` values (BlockTime), whose data blocks are counted in the
      data space map.  Internal nodes, and the leaves of the top level tree, hold `Loc` values: metadata
      block numbers (u64), counted in the metadata space map. */
  datatype Val = Mapped(block: nat, time: nat) | Loc(loc: nat)

  datatype Entry = Entry(key: nat, val: Val)

  datatype Node = Node(leaf: bool, entries: seq<Entry>)

  /** What a reference can point at: a data block or a metadata block. */
  datatype Target = Data(d: nat) | Meta(b: nat)

  function TargetOf(v: Val): Target {
    match v
    case Mapped(b, _) => Data(b)
    case Loc(l) => Meta(l)
  }

  ghost predicate AllMapped(es: seq<Entry>) {
    forall i :: 0 <= i < |es| ==> es[i].val.Mapped?
  }

  ghost predicate AllLoc(es: seq<Entry>) {
    forall i :: 0 <= i < |es| ==> es[i].val.Loc?
  }

  predicate StrictlyAscending(es: seq<Entry>) {
    forall i, j :: 0 <= i < j < |es| ==> es[i].key < es[j].key
  }

  function FirstKey(es: seq<Entry>): nat {
    if es == [] then 0 else es[0].key
  }

  /** How many of the entries refer to t. */
  ghost function Occ(es: seq<Entry>, t: Target): nat {
    if es == [] then 0
    else (if TargetOf(es[0].val) == t then 1 else 0) + Occ(es[1..], t)
  }

  lemma {:induction false} OccOne(e: Entry, t: Target)
    ensures Occ([e], t) == if TargetOf(e.val) == t then 1 else 0
  {
    assert [e][1..] == [];
  }

  lemma {:induction false} OccConcat(a: seq<Entry>, b: seq<Entry>, t: Target)
    ensures Occ(a + b, t) == Occ(a, t) + Occ(b, t)
  {
    if a == [] {
      assert a + b == b;
    } else {
      assert (a + b)[1..] == a[1..] + b;
      OccConcat(a[1..], b, t);
    }
  }

  lemma {:induction false} OccMember(es: seq<Entry>, i: nat, t: Target)
    requires i < |es| && TargetOf(es[i].val) == t
    ensures Occ(es, t) >= 1
  {
    if i > 0 {
      OccMember(es[1..], i - 1, t);
    }
  }

  lemma {:induction false} OccAbsent(es: seq<Entry>, t: Target)
    requires forall i :: 0 <= i < |es| ==> TargetOf(es[i].val) != t
    ensures Occ(es, t) == 0
  {
    if es != [] {
      OccAbsent(es[1..], t);
    }
  }

  /** The references to t that block b's node holds: none unless the block is in use. */
  ghost function Contrib(counts: seq<nat>, blocks: map<nat, Node>, b: nat, t: Target): nat
    requires b < |counts|
  {
    if counts[b] > 0 && b in blocks then Occ(blocks[b].entries, t) else 0
  }

  /** The references to t held by all nodes in use among the first n blocks. */
  ghost function LiveUpTo(counts: seq<nat>, blocks: map<nat, Node>, n: nat, t: Target): nat
    requires n <= |counts|
  {
    if n == 0 then 0 else LiveUpTo(counts, blocks, n - 1, t) + Contrib(counts, blocks, n - 1, t)
  }

  ghost function Live(counts: seq<nat>, blocks: map<nat, Node>, t: Target): nat {
    LiveUpTo(counts, blocks, |counts|, t)
  }

  /** The reference count the space maps record for t. */
  ghost function Count(counts: seq<nat>, data: seq<nat>, t: Target): nat {
    match t
    case Data(d) => if d < |data| then data[d] else 0
    case Meta(b) => if b < |counts| then counts[b] else 0
  }

  /** The references to t that are counted but not held by any node in use. */
  ghost function Balance(counts: seq<nat>, data: seq<nat>, blocks: map<nat, Node>, t: Target): int {
    Count(counts, data, t) - Live(counts, blocks, t)
  }

  /** At least these references are counted that no node in use holds. */
  ghost predicate Covers(counts: seq<nat>, data: seq<nat>, blocks: map<nat, Node>, es: seq<Entry>) {
    forall t :: Balance(counts, data, blocks, t) >= Occ(es, t)
  }

  /** Only block b may hold different references in the second state. */
  ghost predicate SameNodesBut(counts: seq<nat>, blocks: map<nat, Node>,
                               counts': seq<nat>, blocks': map<nat, Node>, b: nat)
  {
    && |counts| == |counts'|
    && forall i :: 0 <= i < |counts| && i != b ==>
         && (counts[i] > 0 <==> counts'[i] > 0)
         && (counts[i] > 0 ==> (i in blocks <==> i in blocks') && (i in blocks ==> blocks[i] == blocks'[i]))
  }

  lemma {:induction false} LiveUpToChange(counts: seq<nat>, blocks: map<nat, Node>,
                                          counts': seq<nat>, blocks': map<nat, Node>, b: nat, n: nat, t: Target)
    requires SameNodesBut(counts, blocks, counts', blocks', b) && n <= |counts|
    ensures LiveUpTo(counts', blocks', n, t) ==
            LiveUpTo(counts, blocks, n, t) +
            if b < n then Contrib(counts', blocks', b, t) - Contrib(counts, blocks, b, t) else 0
  {
    if n > 0 {
      LiveUpToChange(counts, blocks, counts', blocks', b, n - 1, t);
    }
  }

  /** Changing one block changes what live nodes hold by the difference of that block's references. */
  lemma LiveChange(counts: seq<nat>, blocks: map<nat, Node>,
                   counts': seq<nat>, blocks': map<nat, Node>, b: nat, t: Target)
    requires b < |counts| && SameNodesBut(counts, blocks, counts', blocks', b)
    ensures Live(counts', blocks', t) ==
            Live(counts, blocks, t) + Contrib(counts', blocks', b, t) - Contrib(counts, blocks, b, t)
  {
    LiveUpToChange(counts, blocks, counts', blocks', b, |counts|, t);
  }

  lemma {:induction false} LiveUpToAtLeast(counts: seq<nat>, blocks: map<nat, Node>, b: nat, n: nat, t: Target)
    requires b < n <= |counts|
    ensures LiveUpTo(counts, blocks, n, t) >= Contrib(counts, blocks, b, t)
  {
    if b < n - 1 {
      LiveUpToAtLeast(counts, blocks, b, n - 1, t);
    }
  }

  /** The value an in-order list of entries holds for a key. */
  function Lookup(es: seq<Entry>, key: nat): Option<Val> {
    if es == [] then None else if es[0].key == key then Some(es[0].val) else Lookup(es[1..], key)
  }

  lemma {:induction false} LookupAbsent(es: seq<Entry>, key: nat)
    requires forall i :: 0 <= i < |es| ==> es[i].key > key
    ensures Lookup(es, key) == None
  {
    if es != [] {
      LookupAbsent(es[1..], key);
    }
  }

  lemma {:induction false} LookupMember(es: seq<Entry>, key: nat)
    requires Lookup(es, key).Some?
    ensures exists i :: 0 <= i < |es| && es[i] == Entry(key, Lookup(es, key).value)
  {
    if es[0].key != key {
      LookupMember(es[1..], key);
      var i :| 0 <= i < |es[1..]| && es[1..][i] == Entry(key, Lookup(es[1..], key).value);
      assert es[i + 1] == Entry(key, Lookup(es, key).value);
    }
  }

  lemma {:induction false} LookupConcat(a: seq<Entry>, b: seq<Entry>, key: nat)
    ensures Lookup(a + b, key) == if Lookup(a, key).Some? then Lookup(a, key) else Lookup(b, key)
  {
    if a == [] {
      assert a + b == b;
    } else {
      assert (a + b)[1..] == a[1..] + b;
      LookupConcat(a[1..], b, key);
    }
  }

  lemma {:induction false} LookupMisses(es: seq<Entry>, key: nat)
    requires forall i :: 0 <= i < |es| ==> es[i].key != key
    ensures Lookup(es, key) == None
  {
    if es != [] {
      LookupMisses(es[1..], key);
    }
  }

  lemma {:induction false} LookupAt(es: seq<Entry>, i: nat)
    requires StrictlyAscending(es) && i < |es|
    ensures Lookup(es, es[i].key) == Some(es[i].val)
  {
    if i > 0 {
      LookupAt(es[1..], i - 1);
    }
  }
}
