/** The thin `Restorer` of src/thin/restore.rs: a state machine over metadata events. */
module Restorers {
  // Definitions and devices are built as runs of leaves; a device shares the leaves of the definitions it refers to,
  // and its tree is built when its section ends.  Finally the references that the definitions hold are given back.

  import opened Wrappers
  import opened SpaceMaps
  import opened Ledger
  import opened ThinEvents
  import opened NodeBuilders
  import opened BtreeBuilders
  import opened Reaches
  import Spares

  const SUPERBLOCK_LOCATION: nat := 0

  /** A definition's name and its leaves: an entry of `sub_trees`. */
  datatype SubTree = SubTree(name: string, leaves: seq<Summary>)

  predicate Defines(ts: seq<SubTree>, name: string) {
    exists i :: 0 <= i < |ts| && ts[i].name == name
  }

  function Find(ts: seq<SubTree>, name: string): Option<seq<Summary>> {
    if ts == [] then None
    else if ts[0].name == name then Some(ts[0].leaves)
    else Find(ts[1..], name)
  }

  /** Inserting replaces the leaves of a name that is already there. */
  function Insert(ts: seq<SubTree>, name: string, leaves: seq<Summary>): seq<SubTree> {
    if ts == [] then [SubTree(name, leaves)]
    else if ts[0].name == name then [SubTree(name, leaves)] + ts[1..]
    else [ts[0]] + Insert(ts[1..], name, leaves)
  }

  /** Every reference the definitions hold to their leaves. */
  ghost function SubRefs(ts: seq<SubTree>): seq<Entry> {
    if ts == [] then [] else Refs(ts[0].leaves) + SubRefs(ts[1..])
  }

  function Leaves(r: Option<seq<Summary>>): seq<Summary> {
    if r.Some? then r.value else []
  }

  lemma {:induction false} InsertRefs(ts: seq<SubTree>, name: string, leaves: seq<Summary>, t: Target)
    ensures Occ(SubRefs(Insert(ts, name, leaves)), t) + Occ(Refs(Leaves(Find(ts, name))), t)
            == Occ(SubRefs(ts), t) + Occ(Refs(leaves), t)
  {
    if ts == [] {
      assert Refs(leaves) + [] == Refs(leaves);
      assert Refs([]) == [];
      assert SubRefs([SubTree(name, leaves)]) == Refs(leaves) + SubRefs([]);
    } else if ts[0].name == name {
      assert ([SubTree(name, leaves)] + ts[1..])[1..] == ts[1..];
      OccConcat(Refs(leaves), SubRefs(ts[1..]), t);
      OccConcat(Refs(ts[0].leaves), SubRefs(ts[1..]), t);
    } else {
      InsertRefs(ts[1..], name, leaves, t);
      assert ([ts[0]] + Insert(ts[1..], name, leaves))[1..] == Insert(ts[1..], name, leaves);
      OccConcat(Refs(ts[0].leaves), SubRefs(Insert(ts[1..], name, leaves)), t);
      OccConcat(Refs(ts[0].leaves), SubRefs(ts[1..]), t);
    }
  }

  lemma {:induction false} InsertFinds(ts: seq<SubTree>, name: string, leaves: seq<Summary>, other: string)
    ensures Find(Insert(ts, name, leaves), other) == if other == name then Some(leaves) else Find(ts, other)
  {
    if ts != [] && ts[0].name != name {
      InsertFinds(ts[1..], name, leaves, other);
    }
  }

  lemma {:induction false} FindRefs(ts: seq<SubTree>, name: string, i: nat)
    requires Find(ts, name).Some? && i < |Find(ts, name).value|
    ensures Occ(SubRefs(ts), Meta(Find(ts, name).value[i].block)) >= 1
  {
    var t := Meta(Find(ts, name).value[i].block);
    OccConcat(Refs(ts[0].leaves), SubRefs(ts[1..]), t);
    if ts[0].name == name {
      RefsMember(ts[0].leaves, i);
    } else {
      FindRefs(ts[1..], name, i);
    }
  }

  /** Devices are kept as entries (thin id, root), ascending by id. */
  function InsertEntry(es: seq<Entry>, e: Entry): seq<Entry> {
    if es == [] || e.key < es[0].key then [e] + es
    else if e.key == es[0].key then [e] + es[1..]
    else [es[0]] + InsertEntry(es[1..], e)
  }

  function Replaced(es: seq<Entry>, key: nat): seq<Entry> {
    if Lookup(es, key).Some? then [Entry(key, Lookup(es, key).value)] else []
  }

  lemma {:induction false} InsertEntryOcc(es: seq<Entry>, e: Entry, t: Target)
    requires StrictlyAscending(es)
    ensures Occ(InsertEntry(es, e), t) + Occ(Replaced(es, e.key), t) == Occ(es, t) + Occ([e], t)
  {
    if es == [] {
    } else if e.key < es[0].key {
      LookupAbsent(es, e.key);
      OccConcat([e], es, t);
    } else if e.key == es[0].key {
      OccConcat([e], es[1..], t);
      assert es == [es[0]] + es[1..];
      OccConcat([es[0]], es[1..], t);
      assert Replaced(es, e.key) == [es[0]];
    } else {
      InsertEntryOcc(es[1..], e, t);
      OccConcat([es[0]], InsertEntry(es[1..], e), t);
      assert es == [es[0]] + es[1..];
      OccConcat([es[0]], es[1..], t);
    }
  }

  lemma {:induction false} InsertEntryFinds(es: seq<Entry>, e: Entry, key: nat)
    requires StrictlyAscending(es)
    ensures Lookup(InsertEntry(es, e), key) == if key == e.key then Some(e.val) else Lookup(es, key)
  {
    if es == [] || e.key <= es[0].key {
    } else {
      InsertEntryFinds(es[1..], e, key);
    }
  }

  lemma {:induction false} InsertEntryAscending(es: seq<Entry>, e: Entry)
    requires StrictlyAscending(es)
    ensures StrictlyAscending(InsertEntry(es, e))
    ensures AllLoc(es) && e.val.Loc? ==> AllLoc(InsertEntry(es, e))
    ensures forall k :: k in InsertEntry(es, e) ==> k == e || k in es
  {
    if es == [] || e.key <= es[0].key {
    } else {
      InsertEntryAscending(es[1..], e);
      var r := InsertEntry(es[1..], e);
      assert forall i :: 0 <= i < |r| ==> r[i] in r && (r[i] == e || r[i] in es[1..]);
      assert forall i :: 0 <= i < |r| ==> es[0].key < r[i].key;
    }
  }

  /** The root heads a tree whose in-order entries are es, every node of which is well formed if es is in order. */
  ghost predicate HasTree(counts: seq<nat>, blocks: map<nat, Node>, root: nat, es: seq<Entry>) {
    exists d: nat :: IsTreeOf(counts, blocks, root, es, d)
  }

  ghost predicate IsTreeOf(counts: seq<nat>, blocks: map<nat, Node>, root: nat, es: seq<Entry>, d: nat) {
    && Tree(counts, blocks, root, d) && TreeEntries(blocks, root, d) == es
    && (StrictlyAscending(es) ==> Strict(blocks, root, d, LEAF_MAX, true))
  }

  ghost predicate LeavesOk(counts: seq<nat>, blocks: map<nat, Node>, leaves: seq<Summary>, es: seq<Entry>) {
    && WellFilled(leaves, LEAF_MAX) && Flat(blocks, leaves) == es
    && forall i :: 0 <= i < |leaves| ==> LeafOk(counts, blocks, leaves[i])
  }

  ghost predicate LeafOk(counts: seq<nat>, blocks: map<nat, Node>, n: Summary) {
    n.shared && Describes(counts, blocks, true, LEAF_MAX, n) && AllMapped(blocks[n.block].entries)
  }

  /** The definitions seen so far are exactly the sub trees, each with the right mappings. */
  ghost predicate SubTreesOk(counts: seq<nat>, blocks: map<nat, Node>, ts: seq<SubTree>, defs: map<string, seq<Entry>>) {
    forall name :: (name in defs <==> Find(ts, name).Some?)
                   && (name in defs ==> LeavesOk(counts, blocks, Find(ts, name).value, defs[name]))
  }

  /** The devices seen so far are exactly the recorded roots, each the root of a tree of the right mappings. */
  ghost predicate DevicesOk(counts: seq<nat>, blocks: map<nat, Node>, devices: seq<Entry>, devs: map<nat, seq<Entry>>) {
    && StrictlyAscending(devices) && AllLoc(devices)
    && forall id :: (id in devs <==> Lookup(devices, id).Some?)
                    && (id in devs ==> HasTree(counts, blocks, Child(Entry(id, Lookup(devices, id).value)), devs[id]))
  }

  /** The devices are those that the events give, each the root of a tree of exactly the mappings that they give it. */
  ghost predicate DevicesGiven(counts: seq<nat>, blocks: map<nat, Node>, devices: seq<Entry>, events: seq<Event>) {
    && StrictlyAscending(devices) && AllLoc(devices)
    && forall id :: (Lookup(devices, id).Some? <==> DeviceGiven(events, id))
                    && (Lookup(devices, id).Some? ==>
                          exists es :: HasTree(counts, blocks, Child(Entry(id, Lookup(devices, id).value)), es) && HasMappings(es, events, id))
  }

  ghost predicate HasMappings(es: seq<Entry>, events: seq<Event>, id: nat) {
    forall k, v :: Entry(k, v) in es <==> DeviceMaps(events, id, k, v)
  }

  lemma {:induction false} AsGiven(counts: seq<nat>, blocks: map<nat, Node>, devices: seq<Entry>, events: seq<Event>)
    requires Orderly(events) && DevicesOk(counts, blocks, devices, MeaningOf(events).devs)
    ensures DevicesGiven(counts, blocks, devices, events)
  {
    hide MeaningOf, HasTree, DeviceGiven, DeviceMaps, Orderly;
    var devs := MeaningOf(events).devs;
    forall id ensures id in devs <==> DeviceGiven(events, id) {
      DevicesSay(events, id);
    }
    forall id | id in devs ensures HasMappings(devs[id], events, id) {
      DevicesSay(events, id);
    }
  }

  lemma {:induction false} OneOrderly(events: seq<Event>, n: nat)
    requires n < |events| && Orderly(events[..n]) && Follows(MeaningOf(events[..n]), events[n])
    ensures Orderly(events[..n + 1])
  {
    hide MeaningOf, Follows;
    var es := events[..n + 1];
    forall i | 0 <= i < |es| ensures Follows(MeaningOf(es[..i]), es[i]) {
      if i < n {
        assert es[..i] == events[..n][..i] && es[i] == events[..n][i];
      } else {
        assert es[..i] == events[..n];
      }
    }
  }

  lemma HasTreeFrame(counts: seq<nat>, blocks: map<nat, Node>, counts': seq<nat>, blocks': map<nat, Node>,
                     root: nat, es: seq<Entry>)
    requires HasTree(counts, blocks, root, es) && Preserves(counts, blocks, counts', blocks')
    ensures HasTree(counts', blocks', root, es)
  {
    var d: nat :| IsTreeOf(counts, blocks, root, es, d);
    TreeFrame(counts, blocks, counts', blocks', root, d);
    if StrictlyAscending(es) {
      StrictFrame(counts, blocks, counts', blocks', root, d, LEAF_MAX, true);
    }
    assert IsTreeOf(counts', blocks', root, es, d);
  }

  lemma DevicesFrame(counts: seq<nat>, blocks: map<nat, Node>, counts': seq<nat>, blocks': map<nat, Node>,
                     devices: seq<Entry>, devs: map<nat, seq<Entry>>)
    requires DevicesOk(counts, blocks, devices, devs) && Preserves(counts, blocks, counts', blocks')
    ensures DevicesOk(counts', blocks', devices, devs)
  {
    forall id | id in devs ensures HasTree(counts', blocks', Child(Entry(id, Lookup(devices, id).value)), devs[id]) {
      HasTreeFrame(counts, blocks, counts', blocks', Child(Entry(id, Lookup(devices, id).value)), devs[id]);
    }
  }

  /** What the restorer holds on to: its definitions' leaves, its devices' roots, and references it has lost. */
  ghost function HeldRefs(ts: seq<SubTree>, devices: seq<Entry>, lost: seq<Entry>, t: Target): int {
    Occ(SubRefs(ts), t) + Occ(devices, t) + Occ(lost, t) + if t == Meta(SUPERBLOCK_LOCATION) then 1 else 0
  }

  /** The ledger: every reference that is counted is held by a node in use, by the builder, or by the restorer. */
  ghost predicate Balanced(s: State, ts: seq<SubTree>, devices: seq<Entry>, lost: seq<Entry>) {
    (forall t :: s.Outside(t) == HeldRefs(ts, devices, lost, t)) && Sound(s)
  }

  /** No reference leads round in a circle, and the superblock's block holds no node. */
  ghost predicate Sound(s: State) {
    Ranked(s.counts, s.blocks) && SUPERBLOCK_LOCATION !in s.blocks
  }

  lemma {:induction false} LeavesPushable(c: Config, s: State, ts: seq<SubTree>, devices: seq<Entry>, lost: seq<Entry>,
                       defs: map<string, seq<Entry>>, name: string)
    requires Balanced(s, ts, devices, lost) && SubTreesOk(s.counts, s.blocks, ts, defs) && name in defs
    requires c.leaf && c.max == LEAF_MAX
    ensures forall i :: 0 <= i < |Find(ts, name).value| ==> Pushable(c, s, Find(ts, name).value[i])
  {
    var leaves := Find(ts, name).value;
    forall i | 0 <= i < |leaves| ensures Pushable(c, s, leaves[i]) {
      assert LeafOk(s.counts, s.blocks, leaves[i]);
      FindRefs(ts, name, i);
      assert s.Outside(Meta(leaves[i].block)) == HeldRefs(ts, devices, lost, Meta(leaves[i].block));
    }
  }

  /** A builder at work leaves the definitions' leaves alone: the restorer holds them. */
  lemma SubTreesFrame(c: Config, s: State, s': State, ts: seq<SubTree>, devices: seq<Entry>, lost: seq<Entry>,
                      defs: map<string, seq<Entry>>)
    requires s.Inv(c) && Balanced(s, ts, devices, lost) && Undisturbed(c, s, s')
    requires SubTreesOk(s.counts, s.blocks, ts, defs)
    ensures SubTreesOk(s'.counts, s'.blocks, ts, defs)
  {
    forall name | name in defs ensures LeavesOk(s'.counts, s'.blocks, Find(ts, name).value, defs[name]) {
      LeavesFrame(c, s, s', ts, devices, lost, defs, name);
    }
  }

  lemma {:induction false} LeavesFrame(c: Config, s: State, s': State, ts: seq<SubTree>, devices: seq<Entry>, lost: seq<Entry>,
                    defs: map<string, seq<Entry>>, name: string)
    requires s.Inv(c) && Balanced(s, ts, devices, lost) && Undisturbed(c, s, s')
    requires SubTreesOk(s.counts, s.blocks, ts, defs) && name in defs
    ensures LeavesOk(s'.counts, s'.blocks, Find(ts, name).value, defs[name])
  {
    hide Undisturbed, State.Inv, State.Outside, Flat;
    var leaves := Find(ts, name).value;
    assert LeavesOk(s.counts, s.blocks, leaves, defs[name]);
    forall i | 0 <= i < |leaves|
      ensures LeafOk(s'.counts, s'.blocks, leaves[i])
      ensures EntriesAt(s.blocks, leaves[i].block) == EntriesAt(s'.blocks, leaves[i].block)
    {
      var b := leaves[i].block;
      assert LeafOk(s.counts, s.blocks, leaves[i]);
      FindRefs(ts, name, i);
      assert s.Outside(Meta(b)) == HeldRefs(ts, devices, lost, Meta(b));
      NotOwned(c, s, b);
      UndisturbedAt(c, s, s', b);
    }
    FlatFrame(s.blocks, s'.blocks, leaves);
  }

  lemma UndisturbedAt(c: Config, s: State, s': State, b: nat)
    requires Undisturbed(c, s, s') && b < |s.counts| && s.counts[b] > 0 && !s.OwnBlock(c, b)
    ensures |s'.counts| == |s.counts| && s'.counts[b] > 0
    ensures (b in s.blocks <==> b in s'.blocks) && (b in s.blocks ==> s.blocks[b] == s'.blocks[b])
  {
  }

  lemma SubTreesPreserved(counts: seq<nat>, blocks: map<nat, Node>, counts': seq<nat>, blocks': map<nat, Node>,
                          ts: seq<SubTree>, defs: map<string, seq<Entry>>)
    requires SubTreesOk(counts, blocks, ts, defs) && Preserves(counts, blocks, counts', blocks')
    ensures SubTreesOk(counts', blocks', ts, defs)
  {
    forall name | name in defs ensures LeavesOk(counts', blocks', Find(ts, name).value, defs[name]) {
      var leaves := Find(ts, name).value;
      assert LeavesOk(counts, blocks, leaves, defs[name]);
      forall i | 0 <= i < |leaves|
        ensures LeafOk(counts', blocks', leaves[i])
        ensures EntriesAt(blocks, leaves[i].block) == EntriesAt(blocks', leaves[i].block)
      {
        assert LeafOk(counts, blocks, leaves[i]);
      }
      FlatFrame(blocks, blocks', leaves);
    }
  }

  /** The leaves of a finished definition. */
  lemma CompletedLeavesOk(s: State, es: seq<Entry>)
    requires s.Inv(Config(true, LEAF_MAX, true)) && WellFilled(s.nodes, LEAF_MAX)
    requires Flat(s.blocks, s.nodes) == es && AllMapped(es)
    ensures LeavesOk(s.counts, s.blocks, s.nodes, es)
  {
    forall i | 0 <= i < |s.nodes| ensures LeafOk(s.counts, s.blocks, s.nodes[i]) {
      var at := FlatAt(s.blocks, s.nodes, i);
      var ls := EntriesAt(s.blocks, s.nodes[i].block);
      forall j | 0 <= j < |ls| ensures ls[j].val.Mapped? {
        assert ls[j] == es[at..at + |ls|][j];
      }
    }
  }

  /** Finishing a definition hands the builder's references to the definition; a replaced one loses its own. */
  lemma {:induction false} DefEndBalanced(s: State, ts: seq<SubTree>, devices: seq<Entry>, lost: seq<Entry>, name: string)
    requires Balanced(s, ts, devices, lost) && s.values == []
    ensures Balanced(s.(nodes := []), Insert(ts, name, s.nodes), devices, lost + Refs(Leaves(Find(ts, name))))
  {
    forall t ensures s.(nodes := []).Outside(t)
                     == HeldRefs(Insert(ts, name, s.nodes), devices, lost + Refs(Leaves(Find(ts, name))), t)
    {
      assert s.Outside(t) == HeldRefs(ts, devices, lost, t);
      InsertRefs(ts, name, s.nodes, t);
      OccConcat(lost, Refs(Leaves(Find(ts, name))), t);
    }
  }

  lemma {:induction false} DefEndSubTrees(counts: seq<nat>, blocks: map<nat, Node>, ts: seq<SubTree>, defs: map<string, seq<Entry>>,
                       name: string, leaves: seq<Summary>, es: seq<Entry>)
    requires SubTreesOk(counts, blocks, ts, defs) && LeavesOk(counts, blocks, leaves, es)
    ensures SubTreesOk(counts, blocks, Insert(ts, name, leaves), defs[name := es])
  {
    forall other
      ensures Find(Insert(ts, name, leaves), other) == if other == name then Some(leaves) else Find(ts, other)
    {
      InsertFinds(ts, name, leaves, other);
    }
  }

  /** Finishing a device leaves one reference, from the device to its root; a replaced root loses its own. */
  lemma {:induction false} DeviceEndBalanced(s: State, s': State, ts: seq<SubTree>, devices: seq<Entry>, lost: seq<Entry>, id: nat, root: nat)
    requires Balanced(s, ts, devices, lost) && s.values == [] && s'.values == [] && s'.nodes == []
    requires StrictlyAscending(devices)
    requires forall t :: Balance(s'.counts, s'.data, s'.blocks, t)
                         == Balance(s.counts, s.data, s.blocks, t) - Occ(Refs(s.nodes), t) + if t == Meta(root) then 1 else 0
    requires Sound(s')
    ensures Balanced(s', ts, InsertEntry(devices, Entry(id, Loc(root))), lost + Replaced(devices, id))
  {
    var e := Entry(id, Loc(root));
    forall t ensures s'.Outside(t) == HeldRefs(ts, InsertEntry(devices, e), lost + Replaced(devices, id), t) {
      assert s.Outside(t) == HeldRefs(ts, devices, lost, t);
      InsertEntryOcc(devices, e, t);
      OccOne(e, t);
      OccConcat(lost, Replaced(devices, id), t);
    }
  }

  lemma {:induction false} DeviceEndDevices(counts: seq<nat>, blocks: map<nat, Node>, devices: seq<Entry>, devs: map<nat, seq<Entry>>,
                         id: nat, root: nat, es: seq<Entry>)
    requires DevicesOk(counts, blocks, devices, devs) && HasTree(counts, blocks, root, es)
    ensures DevicesOk(counts, blocks, InsertEntry(devices, Entry(id, Loc(root))), devs[id := es])
  {
    var e := Entry(id, Loc(root));
    InsertEntryAscending(devices, e);
    forall other
      ensures Lookup(InsertEntry(devices, e), other) == if other == id then Some(Loc(root)) else Lookup(devices, other)
    {
      InsertEntryFinds(devices, e, other);
    }
  }

  lemma FreshPreserves(c: Config, s0: State, s: State)
    requires s0.nodes == [] && Undisturbed(c, s0, s)
    ensures Preserves(s0.counts, s0.blocks, s.counts, s.blocks)
  {
  }

  lemma {:induction false} LeavesAllMapped(counts: seq<nat>, blocks: map<nat, Node>, leaves: seq<Summary>)
    requires forall i :: 0 <= i < |leaves| ==> LeafOk(counts, blocks, leaves[i])
    ensures AllMapped(Flat(blocks, leaves))
  {
    if leaves != [] {
      LeavesAllMapped(counts, blocks, leaves[..|leaves| - 1]);
    }
  }

  lemma {:induction false} NothingLive(counts: seq<nat>, blocks: map<nat, Node>, n: nat, t: Target)
    requires blocks == map[] && n <= |counts|
    ensures LiveUpTo(counts, blocks, n, t) == 0
  {
    if n > 0 {
      NothingLive(counts, blocks, n - 1, t);
    }
  }

  lemma BuilderInv(b: NodeBuilder)
    requires b.Valid()
    ensures b.S().Inv(b.c) && b.w.sm.Valid() && b.data.Valid()
  {
  }

  lemma BalancedSame(c: Config, s: State, s': State, ts: seq<SubTree>, devices: seq<Entry>, lost: seq<Entry>)
    requires Balanced(s, ts, devices, lost) && SameOutside(s, s') && s.Inv(c) && Undisturbed(c, s, s')
    ensures Balanced(s', ts, devices, lost)
  {
    hide Ranked;
    forall t ensures s'.Outside(t) == HeldRefs(ts, devices, lost, t) && s'.Outside(t) >= 0 {
      assert s'.Outside(t) == s.Outside(t);
    }
    SuperblockInUse(s, ts, devices, lost);
    NotOwned(c, s, SUPERBLOCK_LOCATION);
  }

  lemma {:induction false} SuperblockInUse(s: State, ts: seq<SubTree>, devices: seq<Entry>, lost: seq<Entry>)
    requires Balanced(s, ts, devices, lost)
    ensures s.Outside(Meta(SUPERBLOCK_LOCATION)) >= 1
    ensures SUPERBLOCK_LOCATION < |s.counts| && s.counts[SUPERBLOCK_LOCATION] > 0
  {
    assert s.Outside(Meta(SUPERBLOCK_LOCATION)) == HeldRefs(ts, devices, lost, Meta(SUPERBLOCK_LOCATION));
  }

  /** Building a tree over the section's nodes makes no circle. */
  lemma {:induction false} BuiltSound(s: State, s': State, ts: seq<SubTree>, devices: seq<Entry>, lost: seq<Entry>)
    requires Balanced(s, ts, devices, lost) && Preserves(s.counts, s.blocks, s'.counts, s'.blocks)
    requires Ranked(s'.counts, s'.blocks)
    ensures Sound(s')
  {
    hide Ranked;
    SuperblockInUse(s, ts, devices, lost);
  }

  lemma {:induction false} NodesCovered(s: State, ts: seq<SubTree>, devices: seq<Entry>, lost: seq<Entry>)
    requires Balanced(s, ts, devices, lost) && s.values == []
    ensures Covers(s.counts, s.data, s.blocks, Refs(s.nodes)) && Ranked(s.counts, s.blocks)
  {
    hide Ranked;
    forall t ensures Balance(s.counts, s.data, s.blocks, t) >= Occ(Refs(s.nodes), t) {
      assert s.Outside(t) == HeldRefs(ts, devices, lost, t);
    }
  }

  /** Replacing a definition loses references: every definition has at least one leaf. */
  lemma {:induction false} DefEndRepeats(counts: seq<nat>, blocks: map<nat, Node>, ts: seq<SubTree>, defs: map<string, seq<Entry>>, name: string)
    requires SubTreesOk(counts, blocks, ts, defs)
    ensures Refs(Leaves(Find(ts, name))) == [] <==> name !in defs
  {
    assert name in defs ==> LeavesOk(counts, blocks, Find(ts, name).value, defs[name]);
  }

  lemma DeviceEndRepeats(counts: seq<nat>, blocks: map<nat, Node>, devices: seq<Entry>, devs: map<nat, seq<Entry>>, id: nat)
    requires DevicesOk(counts, blocks, devices, devs)
    ensures Replaced(devices, id) == [] <==> id !in devs
  {
  }

  lemma DevicesAscend(counts: seq<nat>, blocks: map<nat, Node>, devices: seq<Entry>, devs: map<nat, seq<Entry>>)
    requires DevicesOk(counts, blocks, devices, devs)
    ensures StrictlyAscending(devices) && AllLoc(devices)
  {
  }

  lemma DescribedLeaves(s: State)
    requires s.Inv(Config(true, LEAF_MAX, false))
    ensures forall i :: 0 <= i < |s.nodes| ==> Describes(s.counts, s.blocks, true, LEAF_MAX, s.nodes[i])
  {
  }

  lemma CompletedBalance(s0: State, s1: State, s2: State, es: seq<Entry>)
    requires forall t :: s0.Outside(t) == Balance(s0.counts, s0.data, s0.blocks, t)
    requires forall t :: s1.Outside(t) == s0.Outside(t) - Occ(es, t)
    requires SameOutside(s1, s2) && s2.values == []
    ensures forall t :: Balance(s2.counts, s2.data, s2.blocks, t) - Occ(Refs(s2.nodes), t)
                        == Balance(s0.counts, s0.data, s0.blocks, t) - Occ(es, t)
  {
    forall t ensures Balance(s2.counts, s2.data, s2.blocks, t) - Occ(Refs(s2.nodes), t)
                     == Balance(s0.counts, s0.data, s0.blocks, t) - Occ(es, t)
    {
      assert s2.Outside(t) == s1.Outside(t);
    }
  }

  ghost predicate Releasable(blocks: map<nat, Node>, n: Summary) {
    n.block in blocks && blocks[n.block].leaf && AllMapped(blocks[n.block].entries)
  }

  /** Dropping a leaf's reference, and with the last one the counts of its values, takes exactly that reference away. */
  lemma ReleaseBalance(counts: seq<nat>, data: seq<nat>, data': seq<nat>, blocks: map<nat, Node>, n: Summary, t: Target)
    requires Releasable(blocks, n) && n.block < |counts| && counts[n.block] > 0
    requires if counts[n.block] == 1 then Counted(data', data, blocks[n.block].entries) else data' == data
    ensures Balance(counts[n.block := counts[n.block] - 1], data', blocks, t)
            == Balance(counts, data, blocks, t) - if t == Meta(n.block) then 1 else 0
  {
    var b := n.block;
    if counts[b] == 1 {
      LiveChange(counts, blocks, counts[b := 0], blocks, b, t);
      CountedBalance(counts[b := 0], data', data, blocks, blocks[b].entries, t);
    } else {
      CountChange(counts, data, blocks, b, counts[b] - 1, t);
    }
  }

  /** The final ledger: counts equal the references held by nodes in use, by the superblock and by lost holders. */
  ghost predicate Settled(counts: seq<nat>, data: seq<nat>, blocks: map<nat, Node>, root: nat, lost: seq<Entry>) {
    forall t :: Count(counts, data, t) == Live(counts, blocks, t) + Occ(lost, t)
                                          + (if t == Meta(SUPERBLOCK_LOCATION) then 1 else 0)
                                          + (if t == Meta(root) then 1 else 0)
  }

  /** The metadata blocks that lost references point at. */
  ghost function LostBlocks(lost: seq<Entry>): set<nat> {
    set e | e in lost && e.val.Loc? :: e.val.loc
  }

  /** In use are the superblock, what the root leads to and what is kept in use by lost references, and nothing else. */
  ghost predicate InUseIsReached(counts: seq<nat>, blocks: map<nat, Node>, root: nat, lost: seq<Entry>) {
    forall b: nat :: b < |counts| && counts[b] > 0
                     <==> b == SUPERBLOCK_LOCATION || ReachedFrom(blocks, {root} + LostBlocks(lost), b)
  }

  lemma {:induction false} SettledReached(counts: seq<nat>, data: seq<nat>, blocks: map<nat, Node>, root: nat, lost: seq<Entry>)
    requires Settled(counts, data, blocks, root, lost) && Ranked(counts, blocks) && SUPERBLOCK_LOCATION !in blocks
    ensures InUseIsReached(counts, blocks, root, lost)
  {
    var from := {root} + LostBlocks(lost);
    SettledHeld(counts, data, blocks, root, lost);
    var rank :| Descends(counts, blocks, rank);
    Spares.HighestIs(rank);
    hide Settled, Descends, Live;
    forall b: nat ensures b < |counts| && counts[b] > 0 <==> b == SUPERBLOCK_LOCATION || ReachedFrom(blocks, from, b) {
      if b < |counts| && counts[b] > 0 {
        AllReached(counts, blocks, from + {SUPERBLOCK_LOCATION}, rank, Spares.Highest(rank), b);
        NotThroughSuperblock(blocks, from, b);
      }
      if ReachedFrom(blocks, from, b) {
        var p :| Chain(blocks, p) && p[0] in from && p[|p| - 1] == b;
        ReachedIsUsed(counts, data, blocks, from, p, |p| - 1);
      }
    }
  }

  lemma {:induction false} NotThroughSuperblock(blocks: map<nat, Node>, from: set<nat>, b: nat)
    requires SUPERBLOCK_LOCATION !in blocks && ReachedFrom(blocks, from + {SUPERBLOCK_LOCATION}, b)
    ensures b == SUPERBLOCK_LOCATION || ReachedFrom(blocks, from, b)
  {
    var p :| Chain(blocks, p) && p[0] in from + {SUPERBLOCK_LOCATION} && p[|p| - 1] == b;
    if |p| > 1 {
      assert Leads(blocks, p[0], p[0 + 1]);
    }
  }

  /** What the final ledger says of each block. */
  lemma {:induction false} SettledHeld(counts: seq<nat>, data: seq<nat>, blocks: map<nat, Node>, root: nat, lost: seq<Entry>)
    requires Settled(counts, data, blocks, root, lost)
    ensures forall t :: Count(counts, data, t) >= Live(counts, blocks, t)
    ensures var from := {root} + LostBlocks(lost);
            && (forall b :: b in from ==> b < |counts| && counts[b] > 0)
            && SUPERBLOCK_LOCATION < |counts| && counts[SUPERBLOCK_LOCATION] > 0
            && forall b :: 0 <= b < |counts| && counts[b] > 0 && b !in from + {SUPERBLOCK_LOCATION} ==>
                 Live(counts, blocks, Meta(b)) > 0
  {
    var from := {root} + LostBlocks(lost);
    assert Count(counts, data, Meta(SUPERBLOCK_LOCATION)) >= 1;
    forall b | b in from ensures b < |counts| && counts[b] > 0 {
      if b in LostBlocks(lost) {
        var e :| e in lost && e.val == Loc(b);
        var i :| 0 <= i < |lost| && lost[i] == e;
        OccMember(lost, i, Meta(b));
      }
      assert Count(counts, data, Meta(b)) >= 1;
    }
    forall b | 0 <= b < |counts| && counts[b] > 0 && b !in from + {SUPERBLOCK_LOCATION} ensures Live(counts, blocks, Meta(b)) > 0 {
      assert forall i :: 0 <= i < |lost| ==> lost[i] in lost;
      OccAbsent(lost, Meta(b));
      assert Count(counts, data, Meta(b)) == counts[b];
    }
  }

  lemma {:induction false} DevicesCovered(s: State, ts: seq<SubTree>, devices: seq<Entry>, lost: seq<Entry>, lost': seq<Entry>)
    requires Balanced(s, ts, devices, lost)
    requires forall t :: Balance(s.counts, s.data, s.blocks, t) == HeldRefs(ts, devices, lost', t)
    ensures Covers(s.counts, s.data, s.blocks, devices) && Ranked(s.counts, s.blocks) && SUPERBLOCK_LOCATION !in s.blocks
  {
    hide Ranked, Balance;
  }

  lemma {:induction false} NoSuperblockNode(s: State, counts: seq<nat>, blocks: map<nat, Node>)
    requires Preserves(s.counts, s.blocks, counts, blocks) && SUPERBLOCK_LOCATION !in s.blocks
    requires SUPERBLOCK_LOCATION < |s.counts| && s.counts[SUPERBLOCK_LOCATION] > 0
    ensures SUPERBLOCK_LOCATION !in blocks
  {
  }

  /** A section still open at the end is abandoned: what its builder held is lost. */
  lemma AbandonedBalance(s: State, ts: seq<SubTree>, devices: seq<Entry>, lost: seq<Entry>, lost': seq<Entry>)
    requires Balanced(s, ts, devices, lost) && lost' == lost + s.values + Refs(s.nodes)
    ensures forall t :: Balance(s.counts, s.data, s.blocks, t) == HeldRefs(ts, devices, lost', t)
  {
    forall t ensures Balance(s.counts, s.data, s.blocks, t) == HeldRefs(ts, devices, lost', t) {
      assert s.Outside(t) == HeldRefs(ts, devices, lost, t);
      OccConcat(lost + s.values, Refs(s.nodes), t);
      OccConcat(lost, s.values, t);
    }
  }

  lemma SubTreesReleasable(counts: seq<nat>, blocks: map<nat, Node>, ts: seq<SubTree>, defs: map<string, seq<Entry>>)
    requires SubTreesOk(counts, blocks, ts, defs) && NamesOnce(ts)
    ensures forall i, j :: 0 <= i < |ts| && 0 <= j < |ts[i].leaves| ==> Releasable(blocks, ts[i].leaves[j])
  {
    forall i, j | 0 <= i < |ts| && 0 <= j < |ts[i].leaves| ensures Releasable(blocks, ts[i].leaves[j]) {
      FindOnce(ts, i);
      assert LeavesOk(counts, blocks, ts[i].leaves, defs[ts[i].name]);
      assert LeafOk(counts, blocks, ts[i].leaves[j]);
    }
  }

  ghost predicate NamesOnce(ts: seq<SubTree>) {
    forall i, j :: 0 <= i < j < |ts| ==> ts[i].name != ts[j].name
  }

  lemma {:induction false} FindOnce(ts: seq<SubTree>, i: nat)
    requires NamesOnce(ts) && i < |ts|
    ensures Find(ts, ts[i].name) == Some(ts[i].leaves)
  {
    if i > 0 {
      FindOnce(ts[1..], i - 1);
    }
  }

  lemma {:induction false} InsertOnce(ts: seq<SubTree>, name: string, leaves: seq<Summary>)
    requires NamesOnce(ts)
    ensures NamesOnce(Insert(ts, name, leaves))
    ensures forall i :: 0 <= i < |Insert(ts, name, leaves)| ==>
              Insert(ts, name, leaves)[i].name == name || Defines(ts, Insert(ts, name, leaves)[i].name)
  {
    if ts == [] {
    } else if ts[0].name == name {
      var r := Insert(ts, name, leaves);
      assert forall i :: 0 < i < |r| ==> r[i] == ts[i];
    } else {
      InsertOnce(ts[1..], name, leaves);
      var r := Insert(ts[1..], name, leaves);
      forall i | 0 <= i < |r| ensures r[i].name != ts[0].name && (r[i].name == name || Defines(ts, r[i].name)) {
        if r[i].name != name {
          assert Defines(ts[1..], r[i].name);
          var k :| 0 <= k < |ts[1..]| && ts[1..][k].name == r[i].name;
          assert ts[k + 1].name == r[i].name;
        }
      }
      assert Defines(ts, ts[0].name);
    }
  }

  lemma ReleasedBalance(s: State, counts: seq<nat>, data: seq<nat>, counts': seq<nat>, data': seq<nat>,
                        blocks: map<nat, Node>, ts: seq<SubTree>, devices: seq<Entry>, lost: seq<Entry>, root: nat)
    requires forall t :: Balance(s.counts, s.data, s.blocks, t) == HeldRefs(ts, devices, lost, t)
    requires forall t :: Balance(counts, data, blocks, t)
                         == Balance(s.counts, s.data, s.blocks, t) - Occ(devices, t) + if t == Meta(root) then 1 else 0
    requires forall t :: Balance(counts', data', blocks, t) == Balance(counts, data, blocks, t) - Occ(SubRefs(ts), t)
    ensures Settled(counts', data', blocks, root, lost)
  {
    forall t
      ensures Count(counts', data', t) == Live(counts', blocks, t) + Occ(lost, t)
                                          + (if t == Meta(SUPERBLOCK_LOCATION) then 1 else 0)
                                          + (if t == Meta(root) then 1 else 0)
    {
      assert Balance(counts', data', blocks, t) == Balance(counts, data, blocks, t) - Occ(SubRefs(ts), t);
    }
  }

  lemma LiveAtLeast(counts: seq<nat>, blocks: map<nat, Node>, b: nat, i: nat)
    requires b < |counts| && counts[b] > 0 && b in blocks && i < |blocks[b].entries|
    ensures Live(counts, blocks, TargetOf(blocks[b].entries[i].val)) >= 1
  {
    var t := TargetOf(blocks[b].entries[i].val);
    OccMember(blocks[b].entries, i, t);
    LiveUpToAtLeast(counts, blocks, b, |counts|, t);
  }

  /** If no count falls short of the references held by nodes in use, a tree lives as long as its root. */
  lemma {:induction false} TreeLives(counts: seq<nat>, counts': seq<nat>, data: seq<nat>, blocks: map<nat, Node>, b: nat, d: nat)
    requires Tree(counts, blocks, b, d) && |counts'| == |counts| && counts'[b] > 0
    requires forall t :: Count(counts', data, t) >= Live(counts', blocks, t)
    ensures Tree(counts', blocks, b, d)
    decreases d
  {
    if d > 0 {
      var es := blocks[b].entries;
      forall i | 0 <= i < |es| ensures Tree(counts', blocks, Child(es[i]), d - 1) {
        LiveAtLeast(counts', blocks, b, i);
        assert Count(counts', data, Meta(Child(es[i]))) >= 1;
        TreeLives(counts, counts', data, blocks, Child(es[i]), d - 1);
      }
    }
  }

  /** Every entry of a tree in use is a reference held by a node in use. */
  lemma {:induction false} TreeHolds(counts: seq<nat>, blocks: map<nat, Node>, b: nat, d: nat, k: nat)
    requires Tree(counts, blocks, b, d) && k < |TreeEntries(blocks, b, d)|
    ensures Live(counts, blocks, TargetOf(TreeEntries(blocks, b, d)[k].val)) >= 1
    decreases d, 0
  {
    if d == 0 {
      LiveAtLeast(counts, blocks, b, k);
    } else {
      UnderHolds(counts, blocks, blocks[b].entries, d - 1, k);
    }
  }

  lemma {:induction false} UnderHolds(counts: seq<nat>, blocks: map<nat, Node>, es: seq<Entry>, d: nat, k: nat)
    requires forall i :: 0 <= i < |es| ==> Tree(counts, blocks, Child(es[i]), d)
    requires k < |Under(blocks, es, d)|
    ensures Live(counts, blocks, TargetOf(Under(blocks, es, d)[k].val)) >= 1
    decreases d, 1 + |es|
  {
    var n := |TreeEntries(blocks, Child(es[0]), d)|;
    if k < n {
      TreeHolds(counts, blocks, Child(es[0]), d, k);
    } else {
      UnderHolds(counts, blocks, es[1..], d, k - n);
    }
  }

  lemma SettledCovers(counts: seq<nat>, data: seq<nat>, blocks: map<nat, Node>, root: nat, lost: seq<Entry>)
    requires Settled(counts, data, blocks, root, lost)
    ensures forall t :: Count(counts, data, t) >= Live(counts, blocks, t)
    ensures Count(counts, data, Meta(root)) >= 1
  {
  }

  /** Releasing the definitions frees nothing that a device still reaches. */
  lemma StillThere(counts: seq<nat>, counts': seq<nat>, data: seq<nat>, blocks: map<nat, Node>, root: nat,
                   devices: seq<Entry>, devs: map<nat, seq<Entry>>, lost: seq<Entry>)
    requires Settled(counts', data, blocks, root, lost) && |counts'| == |counts|
    requires HasTree(counts, blocks, root, devices) && DevicesOk(counts, blocks, devices, devs)
    ensures HasTree(counts', blocks, root, devices) && DevicesOk(counts', blocks, devices, devs)
  {
    hide Settled, Live;
    SettledCovers(counts', data, blocks, root, lost);
    var d: nat :| IsTreeOf(counts, blocks, root, devices, d);
    TreeLives(counts, counts', data, blocks, root, d);
    assert IsTreeOf(counts', blocks, root, devices, d);
    forall id | id in devs ensures HasTree(counts', blocks, Child(Entry(id, Lookup(devices, id).value)), devs[id]) {
      var r := Child(Entry(id, Lookup(devices, id).value));
      LookupMember(devices, id);
      var k :| 0 <= k < |devices| && devices[k] == Entry(id, Lookup(devices, id).value);
      TreeHolds(counts', blocks, root, d, k);
      assert TargetOf(devices[k].val) == Meta(r);
      assert Count(counts', data, Meta(r)) >= 1;
      var e: nat :| IsTreeOf(counts, blocks, r, devs[id], e);
      TreeLives(counts, counts', data, blocks, r, e);
      assert IsTreeOf(counts', blocks, r, devs[id], e);
    }
  }

  lemma {:induction false} FinallySettled(counts: seq<nat>, counts': seq<nat>, data: seq<nat>, blocks: map<nat, Node>, root: nat,
                                          devices: seq<Entry>, devs: map<nat, seq<Entry>>, lost: seq<Entry>)
    requires Settled(counts', data, blocks, root, lost) && |counts'| == |counts| && Ranked(counts, blocks)
    requires HasTree(counts, blocks, root, devices) && DevicesOk(counts, blocks, devices, devs) && SUPERBLOCK_LOCATION !in blocks
    requires forall b :: 0 <= b < |counts| && counts'[b] > 0 ==> counts[b] > 0
    ensures HasTree(counts', blocks, root, devices) && DevicesOk(counts', blocks, devices, devs)
    ensures InUseIsReached(counts', blocks, root, lost)
  {
    hide Settled, Ranked, HasTree, DevicesOk, InUseIsReached;
    StillThere(counts, counts', data, blocks, root, devices, devs, lost);
    FewerRanked(counts, blocks, counts');
    SettledReached(counts', data, blocks, root, lost);
  }

  // ---- when nothing fails

  lemma {:induction false} CoveredBy(s: State, ts: seq<SubTree>, devices: seq<Entry>, lost: seq<Entry>)
    requires Balanced(s, ts, devices, lost)
    ensures s.Covered()
  {
    forall t ensures s.Outside(t) >= 0 {
      assert s.Outside(t) == HeldRefs(ts, devices, lost, t);
    }
  }

  /** The last key that the builder checked is not above what the section holds. */
  ghost predicate KeyOk(m: Meaning, lastKey: Option<nat>) {
    StrictlyAscending(m.entries) && m.emptyRefs == 0 && lastKey.Some? ==>
      m.entries != [] && lastKey.value <= m.entries[|m.entries| - 1].key
  }

  lemma {:induction false} AscendingParts(a: seq<Entry>, b: seq<Entry>)
    requires StrictlyAscending(a + b)
    ensures StrictlyAscending(a) && StrictlyAscending(b)
    ensures a != [] && b != [] ==> a[|a| - 1].key < b[0].key
  {
    assert forall i :: 0 <= i < |a| ==> (a + b)[i] == a[i];
    assert forall i :: 0 <= i < |b| ==> (a + b)[|a| + i] == b[i];
  }

  lemma {:induction false} KeyBelow(m: Meaning, lastKey: Option<nat>, es: seq<Entry>)
    requires KeyOk(m, lastKey) && m.emptyRefs == 0 && es != [] && StrictlyAscending(m.entries + es)
    ensures StrictlyAscending(m.entries) && (lastKey.Some? ==> lastKey.value < es[0].key)
  {
    AscendingParts(m.entries, es);
  }

  /** There are no more leaves than entries, but for one that is empty. */
  lemma {:induction false} LeavesFew(counts: seq<nat>, blocks: map<nat, Node>, leaves: seq<Summary>, es: seq<Entry>)
    requires WellFilled(leaves, LEAF_MAX) && Flat(blocks, leaves) == es
    requires forall i :: 0 <= i < |leaves| ==> Describes(counts, blocks, true, LEAF_MAX, leaves[i])
    ensures |leaves| <= |es| + 1 && (es == [] ==> |leaves| == 1 && leaves[0].nrEntries == 0)
    ensures es != [] ==> |leaves| <= |es| && forall i :: 0 <= i < |leaves| ==> EntriesAt(blocks, leaves[i].block) != []
  {
    if |leaves| > 1 {
      FlatLength(blocks, leaves);
    } else {
      FlatOne(blocks, leaves);
    }
  }

  lemma {:induction false} LeavesDescribed(counts: seq<nat>, blocks: map<nat, Node>, leaves: seq<Summary>, es: seq<Entry>)
    requires LeavesOk(counts, blocks, leaves, es)
    ensures WellFilled(leaves, LEAF_MAX) && Flat(blocks, leaves) == es
    ensures forall i :: 0 <= i < |leaves| ==> Describes(counts, blocks, true, LEAF_MAX, leaves[i])
  {
    assert forall i :: 0 <= i < |leaves| ==> LeafOk(counts, blocks, leaves[i]);
  }

  /** The first key is the first node's, and the last node's is not above the last key. */
  lemma {:induction false} LeafKeys(counts: seq<nat>, blocks: map<nat, Node>, leaves: seq<Summary>, es: seq<Entry>)
    requires WellFilled(leaves, LEAF_MAX) && Flat(blocks, leaves) == es && es != [] && StrictlyAscending(es)
    requires forall i :: 0 <= i < |leaves| ==> Describes(counts, blocks, true, LEAF_MAX, leaves[i])
    ensures leaves[|leaves| - 1].key <= es[|es| - 1].key && leaves[0].key == es[0].key && |leaves| <= |es|
  {
    LeavesFew(counts, blocks, leaves, es);
    FirstOfFlat(blocks, leaves);
    var n := |leaves| - 1;
    var before, last := Flat(blocks, leaves[..n]), EntriesAt(blocks, leaves[n].block);
    assert es == before + last;
    assert es[|before|] == last[0];
  }

  lemma {:induction false} FirstOfFlat(blocks: map<nat, Node>, leaves: seq<Summary>)
    requires leaves != [] && EntriesAt(blocks, leaves[0].block) != []
    ensures Flat(blocks, leaves) != [] && Flat(blocks, leaves)[0] == EntriesAt(blocks, leaves[0].block)[0]
  {
    if |leaves| == 1 {
      FlatOne(blocks, leaves);
    } else {
      FirstOfFlat(blocks, leaves[..|leaves| - 1]);
    }
  }

  /** After a definition's leaves are pushed. */
  lemma {:induction false} RefKeyOk(counts: seq<nat>, blocks: map<nat, Node>, leaves: seq<Summary>, m: Meaning, name: string,
                                    lastKey: Option<nat>, lastKey': Option<nat>)
    requires name in m.defs && LeavesOk(counts, blocks, leaves, m.defs[name]) && KeyOk(m, lastKey)
    requires lastKey' == lastKey || (leaves != [] && lastKey' == Some(leaves[|leaves| - 1].key))
    ensures KeyOk(Interpret(m, Ref(name)), lastKey')
  {
    var es := m.defs[name];
    hide LeavesOk, KeyOk;
    if es != [] && StrictlyAscending(es) && lastKey' != lastKey {
      LastLeafKey(counts, blocks, leaves, es);
    }
    hide StrictlyAscending;
    KeyGrows(m, Interpret(m, Ref(name)), es, lastKey, lastKey');
  }

  lemma {:induction false} KeyGrows(m: Meaning, m': Meaning, es: seq<Entry>, lastKey: Option<nat>, lastKey': Option<nat>)
    requires KeyOk(m, lastKey) && m'.entries == m.entries + es && (m'.emptyRefs == 0 ==> m.emptyRefs == 0 && es != [])
    requires lastKey' == lastKey ||
             (es != [] && StrictlyAscending(es) ==> lastKey'.Some? && lastKey'.value <= es[|es| - 1].key)
    ensures KeyOk(m', lastKey')
  {
    if StrictlyAscending(m.entries + es) && es != [] {
      AscendingParts(m.entries, es);
      KeyAtMost(m, es);
      hide StrictlyAscending;
      assert m'.entries[|m'.entries| - 1] == es[|es| - 1];
    }
  }

  lemma {:induction false} LastLeafKey(counts: seq<nat>, blocks: map<nat, Node>, leaves: seq<Summary>, es: seq<Entry>)
    requires LeavesOk(counts, blocks, leaves, es) && es != [] && StrictlyAscending(es) && leaves != []
    ensures leaves[|leaves| - 1].key <= es[|es| - 1].key
  {
    LeavesDescribed(counts, blocks, leaves, es);
    LeafKeys(counts, blocks, leaves, es);
  }

  lemma {:induction false} KeyAtMost(m: Meaning, es: seq<Entry>)
    requires es != [] && StrictlyAscending(m.entries + es)
    ensures m.entries != [] ==> m.entries[|m.entries| - 1].key <= es[|es| - 1].key
  {
    assert m.entries != [] ==> (m.entries + es)[|m.entries| - 1] == m.entries[|m.entries| - 1];
    assert (m.entries + es)[|m.entries| + |es| - 1] == es[|es| - 1];
  }

  lemma {:induction false} FilledLeaves(counts: seq<nat>, blocks: map<nat, Node>, leaves: seq<Summary>, es: seq<Entry>)
    requires LeavesOk(counts, blocks, leaves, es)
    ensures WellFilled(leaves, LEAF_MAX) && Flat(blocks, leaves) == es && AllMapped(es)
  {
    LeavesAllMapped(counts, blocks, leaves);
  }

  lemma {:induction false} KnownLeaves(counts: seq<nat>, blocks: map<nat, Node>, ts: seq<SubTree>, defs: map<string, seq<Entry>>, name: string)
    requires SubTreesOk(counts, blocks, ts, defs)
    ensures name in defs <==> Find(ts, name).Some?
    ensures name in defs ==> LeavesOk(counts, blocks, Find(ts, name).value, defs[name])
  {
  }

  lemma {:induction false} NothingYet(s: State)
    requires s.blocks == map[] && s.values == [] && s.nodes == []
    requires |s.counts| > 0 && s.counts[0] == 1 && forall i :: 0 < i < |s.counts| ==> s.counts[i] == 0
    requires forall i :: 0 <= i < |s.data| ==> s.data[i] == 0
    ensures Balanced(s, [], [], []) && SubTreesOk(s.counts, s.blocks, [], map[]) && DevicesOk(s.counts, s.blocks, [], map[])
    ensures NamesOnce([])
  {
    EmptyBuilder(s);
    NoneRanked(s.counts);
    hide State.Outside, State.Contents;
    forall t ensures s.Outside(t) == HeldRefs([], [], [], t) {
      NothingLive(s.counts, s.blocks, |s.counts|, t);
    }
  }

  /** What a push into the open section leaves as it should be. */
  lemma {:induction false} AfterPush(c: Config, start: State, s: State, s': State, ts: seq<SubTree>, devices: seq<Entry>,
                                     lost: seq<Entry>, defs: map<string, seq<Entry>>)
    requires s.Inv(c) && Balanced(s, ts, devices, lost) && SubTreesOk(s.counts, s.blocks, ts, defs)
    requires Undisturbed(c, start, s) && Undisturbed(c, s, s') && SameOutside(s, s')
    ensures Balanced(s', ts, devices, lost) && SubTreesOk(s'.counts, s'.blocks, ts, defs) && Undisturbed(c, start, s')
  {
    SubTreesFrame(c, s, s', ts, devices, lost, defs);
    hide SubTreesOk, State.Inv, Undisturbed, Balanced;
    UndisturbedTrans(c, start, s, s');
    BalancedSame(c, s, s', ts, devices, lost);
  }

  lemma {:induction false} NothingHeld(b: NodeBuilder)
    requires b.Valid() && b.S().Contents() == []
    ensures b.values == [] && |b.nodes| <= 1 && (b.nodes != [] ==> b.nodes[0].nrEntries == 0)
  {
    hide State.Inv, State.Contents;
    LoneEmpty(b.c, b.S());
  }

  /** An empty leaf takes an empty leaf back, or comes first. */
  lemma {:induction false} PushedEmpty(c: Config, s: State, s': State, leaves: seq<Summary>)
    requires |leaves| == 1 && leaves[0].nrEntries == 0 && Pushed(c, s, s', leaves) && c.max >= 3
    requires s.values == [] && |s.nodes| <= 1 && (s.nodes != [] ==> s.nodes[0].nrEntries == 0)
    ensures s'.values == [] && s'.nodes == if s.nodes == [] then leaves else []
  {
    hide Laid, CountedMore, CountedTail;
    if s.nodes != [] {
      LaidSays(c, [], s'.nodes, 0);
    }
  }

  lemma {:induction false} Parity(m: Meaning, name: string, nothing: bool)
    requires name in m.defs && (m.entries == [] ==> (nothing <==> m.emptyRefs % 2 == 0))
    ensures var m' := Interpret(m, Ref(name));
            m'.entries == [] ==> m.entries == [] && m.defs[name] == [] && (!nothing <==> m'.emptyRefs % 2 == 0)
  {
  }

  lemma {:induction false} MapInOrder(es: seq<Entry>, thinBegin: nat, dataBegin: nat, time: nat, len: nat, i: nat)
    requires i < len
    ensures StrictlyAscending(es + MapEntries(thinBegin, dataBegin, time, len)) ==>
              StrictlyAscending(es + MapEntries(thinBegin, dataBegin, time, i) + [Entry(thinBegin + i, Mapped(dataBegin + i, time))])
  {
    var part := es + MapEntries(thinBegin, dataBegin, time, i) + [Entry(thinBegin + i, Mapped(dataBegin + i, time))];
    var all := es + MapEntries(thinBegin, dataBegin, time, len);
    assert forall k :: 0 <= k < |part| ==> part[k] == all[k];
  }

  lemma {:induction false} MapKeyOk(m: Meaning, e: Entry)
    ensures KeyOk(m.(entries := m.entries + [e]), Some(e.key))
  {
  }

  /** What pushing a definition's leaves needs: they are few, and the first key is above what was checked. */
  lemma {:induction false} RefFits(counts: seq<nat>, blocks: map<nat, Node>, leaves: seq<Summary>, m: Meaning, name: string,
                                   lastKey: Option<nat>)
    requires name in m.defs && LeavesOk(counts, blocks, leaves, m.defs[name]) && KeyOk(m, lastKey)
    ensures m.defs[name] == [] ==> |leaves| == 1 && leaves[0].nrEntries == 0
    ensures |leaves| <= |m.defs[name]| + 1
    ensures m.emptyRefs == 0 && m.defs[name] != [] && StrictlyAscending(m.entries + m.defs[name]) ==>
              StrictlyAscending(m.entries) && (lastKey.Some? ==> lastKey.value < leaves[0].key)
    ensures var m' := Interpret(m, Ref(name)); m' == m.(entries := m.entries + m.defs[name], emptyRefs := m'.emptyRefs)
    ensures Strain(m, Ref(name)) >= 4 * LEAF_MAX + |leaves| && Weight(m, Ref(name)) == |m.defs[name]|
  {
    var es := m.defs[name];
    LeavesDescribed(counts, blocks, leaves, es);
    LeavesFew(counts, blocks, leaves, es);
    if m.emptyRefs == 0 && es != [] && StrictlyAscending(m.entries + es) {
      KeyBelow(m, lastKey, es);
      AscendingParts(m.entries, es);
      LeafKeys(counts, blocks, leaves, es);
    }
  }

  lemma {:induction false} SmoothBy(c: Config, s: State, ts: seq<SubTree>, devices: seq<Entry>, lost: seq<Entry>)
    requires Balanced(s, ts, devices, lost)
    ensures s.Covered() && (StrictlyAscending(s.Contents()) ==> s.Smooth(c))
  {
    CoveredBy(s, ts, devices, lost);
  }

  /** The values of a leaf can be uncounted, for no count falls short of what live nodes hold. */
  ghost predicate Uncountable(data: seq<nat>, es: seq<Entry>) {
    forall i :: 0 <= i < |es| && es[i].val.Mapped? ==>
      es[i].val.block < |data| && data[es[i].val.block] >= Occ(es, Data(es[i].val.block))
  }

  ghost predicate LeavesAscend(blocks: map<nat, Node>, leaves: seq<Summary>) {
    forall i :: 0 <= i < |leaves| ==> StrictlyAscending(EntriesAt(blocks, leaves[i].block))
  }

  ghost predicate TreesAscend(blocks: map<nat, Node>, ts: seq<SubTree>) {
    forall i :: 0 <= i < |ts| ==> LeavesAscend(blocks, ts[i].leaves)
  }

  lemma {:induction false} DefsAscendTrees(counts: seq<nat>, blocks: map<nat, Node>, ts: seq<SubTree>, m: Meaning)
    requires SubTreesOk(counts, blocks, ts, m.defs) && NamesOnce(ts) && DefsAscend(m)
    ensures TreesAscend(blocks, ts)
  {
    forall i, j | 0 <= i < |ts| && 0 <= j < |ts[i].leaves| ensures StrictlyAscending(EntriesAt(blocks, ts[i].leaves[j].block)) {
      FindOnce(ts, i);
      var es := m.defs[ts[i].name];
      assert LeavesOk(counts, blocks, ts[i].leaves, es);
      var at := FlatAt(blocks, ts[i].leaves, j);
      AscendingSlice(es, at, at + |EntriesAt(blocks, ts[i].leaves[j].block)|);
    }
  }

  /** While funds are left there are blocks for the open section's nodes. */
  lemma {:induction false} FundsSuffice(c: Config, s: State, n: nat)
    requires c.max == LEAF_MAX
    ensures 63 * s.Blocks(c) - n >= 252 ==> s.Enough(c, n)
  {
    ParentsGrow(0, n);
  }

  lemma {:induction false} LoneAtMost(c: Config, s: State)
    ensures s.Lone(c) <= c.max
  {
  }

  /** A section's nodes are few, own or not. */
  lemma {:induction false} SectionFew(c: Config, s: State, es: seq<Entry>)
    requires c.max == LEAF_MAX && s.Inv(c) && WellFilled(s.nodes, LEAF_MAX) && Flat(s.blocks, s.nodes) == es
    ensures |s.nodes| <= Parents(|es|) && OwnCount(c, s.nodes) <= |s.nodes| && |s.nodes| >= 1
  {
    hide State.OwnedOnce, State.PrebuiltHeld;
    OwnAtMost(c, s.nodes);
    if |s.nodes| > 1 {
      FilledFew(s.blocks, s.nodes);
    }
  }

  lemma {:induction false} OwnAtMost(c: Config, nodes: seq<Summary>)
    ensures OwnCount(c, nodes) <= |nodes|
  {
    if nodes != [] {
      OwnAtMost(c, nodes[..|nodes| - 1]);
    }
  }

  /** An open section has few own nodes. */
  lemma {:induction false} SectionOwn(c: Config, b: NodeBuilder)
    requires b.Valid() && b.c == c && c.max == LEAF_MAX
    ensures 126 * OwnCount(c, b.nodes) <= |b.S().Contents()| + 126
  {
    var s := b.S();
    FillSays(c, s);
    hide State.Inv, State.HalfFull;
    OwnBound(c, s);
    ParentsGrow(0, |s.Contents()|);
  }

  /** There are no more entries in the device list than devices. */
  lemma {:induction false} DevicesFew(counts: seq<nat>, blocks: map<nat, Node>, devices: seq<Entry>, devs: map<nat, seq<Entry>>)
    requires DevicesOk(counts, blocks, devices, devs)
    ensures |devices| <= |devs|
  {
    hide HasTree;
    var ids := set e | e in devices :: e.key;
    KeysDistinct(devices);
    forall id | id in ids ensures id in devs.Keys {
      var e :| e in devices && e.key == id;
      var i :| 0 <= i < |devices| && devices[i] == e;
      LookupAt(devices, i);
    }
    SubsetSmaller(ids, devs.Keys);
  }

  lemma {:induction false} SubsetSmaller(a: set<nat>, b: set<nat>)
    requires a <= b
    ensures |a| <= |b|
  {
    assert b == a + (b - a);
  }

  lemma {:induction false} KeysDistinct(es: seq<Entry>)
    requires StrictlyAscending(es)
    ensures |set e | e in es :: e.key| == |es|
    decreases |es|
  {
    if es != [] {
      var n := |es| - 1;
      KeysDistinct(es[..n]);
      var before := set e | e in es[..n] :: e.key;
      assert es == es[..n] + [es[n]];
      assert (set e | e in es :: e.key) == before + {es[n].key};
      assert es[n].key !in before;
    }
  }

  lemma {:induction false} FinalCovers(s: State, counts: seq<nat>, data: seq<nat>, blocks: map<nat, Node>, ts: seq<SubTree>,
                                       devices: seq<Entry>, lost: seq<Entry>, root: nat)
    requires forall t :: Balance(s.counts, s.data, s.blocks, t) == HeldRefs(ts, devices, lost, t)
    requires forall t :: Balance(counts, data, blocks, t)
                         == Balance(s.counts, s.data, s.blocks, t) - Occ(devices, t) + if t == Meta(root) then 1 else 0
    ensures Covers(counts, data, blocks, SubRefs(ts))
  {
    hide Balance;
  }

  lemma {:induction false} LeafUncounts(counts: seq<nat>, data: seq<nat>, blocks: map<nat, Node>, n: Summary, leaves: seq<Summary>)
    requires Releasable(blocks, n) && n in leaves
    requires Covers(counts, data, blocks, Refs(leaves))
    ensures n.block < |counts| && counts[n.block] > 0 && Uncountable(data, blocks[n.block].entries)
  {
    var i :| 0 <= i < |leaves| && leaves[i] == n;
    RefsMember(leaves, i);
    assert Balance(counts, data, blocks, Meta(n.block)) >= 1;
    var es := blocks[n.block].entries;
    forall k | 0 <= k < |es| && es[k].val.Mapped?
      ensures es[k].val.block < |data| && data[es[k].val.block] >= Occ(es, Data(es[k].val.block))
    {
      var t := Data(es[k].val.block);
      LiveUpToAtLeast(counts, blocks, n.block, |counts|, t);
      OccMember(es, k, t);
      assert Balance(counts, data, blocks, t) >= Occ(Refs(leaves), t);
    }
  }

  /** The leaves still to be released are covered. */
  lemma {:induction false} RestCovered(counts: seq<nat>, data: seq<nat>, blocks: map<nat, Node>, leaves: seq<Summary>, i: nat,
                                       counts0: seq<nat>, data0: seq<nat>)
    requires i < |leaves| && Releasable(blocks, leaves[i])
    requires Covers(counts0, data0, blocks, Refs(leaves))
    requires forall t :: Balance(counts, data, blocks, t) == Balance(counts0, data0, blocks, t) - Occ(Refs(leaves[..i]), t)
    ensures var n := leaves[i]; n.block < |counts| && counts[n.block] > 0 && Uncountable(data, blocks[n.block].entries)
  {
    hide Balance, Releasable, Uncountable;
    assert leaves == leaves[..i] + leaves[i..] && leaves[i..][0] == leaves[i];
    forall t ensures Balance(counts, data, blocks, t) >= Occ(Refs(leaves[i..]), t) {
      RefsConcat(leaves[..i], leaves[i..], t);
      assert Balance(counts0, data0, blocks, t) >= Occ(Refs(leaves), t);
    }
    LeafUncounts(counts, data, blocks, leaves[i], leaves[i..]);
  }

  lemma {:induction false} TreeCovered(counts: seq<nat>, data: seq<nat>, blocks: map<nat, Node>, ts: seq<SubTree>, i: nat,
                                       counts0: seq<nat>, data0: seq<nat>)
    requires i < |ts|
    requires Covers(counts0, data0, blocks, SubRefs(ts))
    requires forall t :: Balance(counts, data, blocks, t) - Occ(SubRefs(ts[i..]), t)
                         == Balance(counts0, data0, blocks, t) - Occ(SubRefs(ts), t)
    ensures Covers(counts, data, blocks, Refs(ts[i].leaves))
  {
    hide Balance;
    forall t ensures Balance(counts, data, blocks, t) >= Occ(Refs(ts[i].leaves), t) {
      assert Balance(counts0, data0, blocks, t) >= Occ(SubRefs(ts), t);
      assert ts[i..][1..] == ts[i + 1..];
      OccConcat(Refs(ts[i].leaves), SubRefs(ts[i + 1..]), t);
    }
  }

  lemma {:induction false} NextUncounts(data: seq<nat>, data': seq<nat>, es: seq<Entry>, i: nat)
    requires i < |es| && es[i].val.Mapped? && Counted(data', data, es[..i]) && Uncountable(data, es)
    ensures es[i].val.block < |data'| && data'[es[i].val.block] > 0
  {
    var d := es[i].val.block;
    assert es == es[..i] + [es[i]] + es[i + 1..];
    OccConcat(es[..i] + [es[i]], es[i + 1..], Data(d));
    OccConcat(es[..i], [es[i]], Data(d));
    OccOne(es[i], Data(d));
  }

  /** The leaves that a definition has are pushed behind what there is, and shared as far as that goes. */
  ghost predicate Shares(c: Config, s: State, s': State, leaves: Option<seq<Summary>>) {
    leaves.Some? && leaves.value != [] && Pushed(c, s, s', leaves.value)
  }

  datatype Section = SuperblockSection | DefSection | DeviceSection

  class Restorer {
    const w: Batcher
    const data: SpaceMap
    var subTrees: seq<SubTree>
    var mapped: MappedSection
    var builder: NodeBuilder?
    var currentDev: bool
    var devices: seq<Entry>
    var inSection: Section

    ghost var m: Meaning        // what the events so far say
    ghost var lost: seq<Entry>  // references whose holder was replaced
    ghost var start: State      // the state when the open section began

    /** The state of whatever is being built; between sections, of a builder with nothing in it. */
    ghost function Now(): State
      reads this, w, w.sm, data, builder
    {
      State(w.sm.counts, data.counts, w.blocks,
            if builder == null then [] else builder.values, if builder == null then [] else builder.nodes)
    }

    /** The unused blocks and those of the open section's own nodes. */
    ghost function Blocks(): nat
      reads this, w, w.sm, builder
    {
      Spares.Free(w.sm.counts) + if builder == null then 0 else OwnCount(builder.c, builder.nodes)
    }

    /** What is left of the blocks, in 63rds, when what the open section holds is set aside. */
    ghost function Funds(): int
      reads this, w, w.sm, builder
    {
      63 * Blocks() - |m.entries|
    }

    /** Whatever is open, the devices are as the events say. */
    lemma AtTheEnd()
      requires Valid()
      ensures w.sm.Valid() && data.Valid() && w.sm != data && NamesOnce(subTrees)
      ensures Balanced(Now(), subTrees, devices, lost) && SubTreesOk(w.sm.counts, w.blocks, subTrees, m.defs)
      ensures DevicesOk(w.sm.counts, w.blocks, devices, m.devs)
      ensures StrictlyAscending(devices) && AllLoc(devices) && |devices| <= |m.devs|
      ensures var all := lost + Now().values + Refs(Now().nodes);
              forall t :: Balance(w.sm.counts, data.counts, w.blocks, t) == HeldRefs(subTrees, devices, all, t)
      ensures Covers(w.sm.counts, data.counts, w.blocks, devices) && Ranked(w.sm.counts, w.blocks)
      ensures SUPERBLOCK_LOCATION !in w.blocks && SUPERBLOCK_LOCATION < |w.sm.counts| && w.sm.counts[SUPERBLOCK_LOCATION] > 0
    {
      var s := Now();
      var all := lost + s.values + Refs(s.nodes);
      AbandonedBalance(s, subTrees, devices, lost, all);
      DevicesCovered(s, subTrees, devices, lost, all);
      SuperblockInUse(s, subTrees, devices, lost);
      hide Balance, Covers, Ranked, Balanced, SubTreesOk, DevicesOk, NodeBuilder.Valid, Undisturbed, KeyOk, NamesOnce, Preserves;
      if builder != null {
        FreshPreserves(builder.c, start, Now());
        DevicesFrame(start.counts, start.blocks, w.sm.counts, w.blocks, devices, m.devs);
      }
      DevicesAscend(w.sm.counts, w.blocks, devices, m.devs);
      DevicesFew(w.sm.counts, w.blocks, devices, m.devs);
    }

    /** What an abandoned section keeps from being used is little. */
    lemma FreeLeft()
      requires Valid()
      ensures 63 * Spares.Free(w.sm.counts) >= Funds() - 63
    {
      hide Spares.Free, OwnCount, Balanced, SubTreesOk, DevicesOk, NodeBuilder.Valid, Undisturbed, KeyOk, NamesOnce;
      if builder != null {
        SectionOwn(builder.c, builder);
      }
    }

    /** How far every count is from the largest, when a lone shared leaf has been unpacked if there is one. */
    ghost function Credit(): int
      reads this, w, w.sm, data, builder
    {
      Spares.Head(w.sm.counts, data.counts) - if builder == null then 0 else Now().Lone(builder.c)
    }

    ghost predicate Affords(e: Event)
      reads this, w, w.sm, data, builder
    {
      Funds() >= Weight(m, e) + 252 && Credit() >= Strain(m, e)
    }

    ghost predicate OpenOk()
      reads this, w, w.sm, data, builder
      requires builder != null
    {
      && builder.w == w && builder.data == data && builder.c == Config(true, LEAF_MAX, mapped.Def?) && builder.Valid()
      && m.open == Some(mapped) && Now().Contents() == m.entries && AllMapped(m.entries)
      && start.nodes == [] && Undisturbed(builder.c, start, Now())
      && DevicesOk(start.counts, start.blocks, devices, m.devs)
      && inSection == (if mapped.Def? then DefSection else DeviceSection) && (currentDev <==> mapped.Dev?)
      && KeyOk(m, builder.lastKey)
      && (m.entries == [] ==> (builder.values == [] && builder.nodes == [] <==> m.emptyRefs % 2 == 0))
    }

    ghost predicate ClosedOk()
      reads this, w, w.sm, data
    {
      && m.open == None && m.entries == [] && DevicesOk(w.sm.counts, w.blocks, devices, m.devs)
      && inSection == SuperblockSection && !currentDev
    }

    ghost predicate Valid()
      reads this, w, w.sm, data, builder
    {
      && w.sm.Valid() && data.Valid() && w.sm != data
      && Balanced(Now(), subTrees, devices, lost)
      && SubTreesOk(w.sm.counts, w.blocks, subTrees, m.defs)
      && (if builder == null then ClosedOk() else OpenOk())
      && (lost == [] <==> !m.repeats) && NamesOnce(subTrees)
    }

    /** What an open section is made of. */
    ghost predicate Parts()
      reads this, w, w.sm, data, builder
    {
      && builder != null && builder.w == w && builder.data == data && builder.c == Config(true, LEAF_MAX, mapped.Def?)
      && builder.Valid() && w.sm != data && Now() == builder.S() && Now().Contents() == m.entries
      && Balanced(Now(), subTrees, devices, lost) && SubTreesOk(w.sm.counts, w.blocks, subTrees, m.defs)
      && Undisturbed(builder.c, start, Now()) && AllMapped(m.entries) && KeyOk(m, builder.lastKey)
      && (m.entries == [] ==> (builder.values == [] && builder.nodes == [] <==> m.emptyRefs % 2 == 0))
    }

    /** The rest of it, which the builder's work leaves alone. */
    ghost predicate Rest()
      reads this
    {
      && m.open == Some(mapped) && start.nodes == [] && DevicesOk(start.counts, start.blocks, devices, m.devs)
      && inSection == (if mapped.Def? then DefSection else DeviceSection) && (currentDev <==> mapped.Dev?)
      && (lost == [] <==> !m.repeats) && NamesOnce(subTrees)
    }

    lemma ValidParts()
      ensures builder != null ==> (Valid() <==> Parts() && Rest())
      ensures builder != null && Rest() ==> (currentDev <==> mapped.Dev?) && m.open == Some(mapped)
    {
      hide Balanced, SubTreesOk, DevicesOk, Undisturbed, State.Contents, KeyOk, NamesOnce;
    }

    /** The restorer as the first superblock event leaves it: the superblock's own block is in use. */
    constructor (w: Batcher, data: SpaceMap)
      requires w.sm.Valid() && data.Valid() && w.sm != data && w.blocks == map[]
      requires |w.sm.counts| > 0 && w.sm.counts[0] == 1 && forall i :: 0 < i < |w.sm.counts| ==> w.sm.counts[i] == 0
      requires forall i :: 0 <= i < |data.counts| ==> data.counts[i] == 0
      ensures Valid() && this.w == w && this.data == data && m == NOTHING && builder == null
    {
      this.w, this.data := w, data;
      subTrees, mapped, builder, currentDev, devices := [], Def(""), null, false, [];
      inSection, m, lost := SuperblockSection, NOTHING, [];
      new;
      NothingYet(Now());
      hide Balanced, SubTreesOk, DevicesOk, NamesOnce;
    }

    /** The superblock event: checks the data block size and claims the superblock's block. */
    static method SuperblockBegin(w: Batcher, dataBlockSize: nat, nrDataBlocks: nat) returns (r: Restorer?)
      requires w.sm.Valid() && w.blocks == map[] && w.sm.allocBegin == 0
      requires forall i :: 0 <= i < |w.sm.counts| ==> w.sm.counts[i] == 0
      modifies w.sm
      ensures r != null <==> 128 <= dataBlockSize <= 2097152 && dataBlockSize % 128 == 0 && old(|w.sm.counts|) > 0
      ensures r != null ==> fresh(r) && fresh(r.data) && r.Valid() && r.w == w && r.m == NOTHING && r.builder == null
                            && |r.data.counts| == nrDataBlocks
      ensures r != null ==> r.Funds() == 63 * (old(|w.sm.counts|) - 1) && r.Credit() == MAX_COUNT - 1
    {
      if !(128 <= dataBlockSize <= 2097152) || dataBlockSize % 128 != 0 {
        return null;
      }
      var data := new SpaceMap(nrDataBlocks);
      assert |w.sm.counts| > 0 ==> w.sm.counts[0] in w.sm.counts;
      ghost var counts := w.sm.counts;
      var b := w.sm.Alloc();
      if b.None? || b.value != SUPERBLOCK_LOCATION {
        return null;
      }
      r := new Restorer(w, data);
      Spares.AtFirst(counts, data.counts, b.value);
    }

    method BeginSection(section: MappedSection)
      requires Valid() && inSection == SuperblockSection && builder == null
      modifies this
      ensures Valid() && m == old(m).(open := Some(section), entries := [], emptyRefs := 0) && fresh(builder)
      ensures Funds() == old(Funds()) && Credit() == old(Credit())
    {
      hide Spares.Free, Spares.Head, Balanced, SubTreesOk, DevicesOk, State.Outside, Undisturbed, NodeBuilder.Valid, NamesOnce;
      ghost var s := Now();
      var b := new NodeBuilder(Config(true, LEAF_MAX, section.Def?), w, data);
      EmptyBuilder(s);
      StepRefl(b.c, s);
      builder, mapped, currentDev := b, section, section.Dev?;
      inSection := if section.Def? then DefSection else DeviceSection;
      m, start := m.(open := Some(section), entries := [], emptyRefs := 0), s;
      assert Now() == s == b.S();
    }

    method DefSharedBegin(name: string) returns (ok: bool)
      requires Valid()
      modifies this
      ensures ok ==> Valid() && m == Interpret(old(m), DefBegin(name)) && fresh(builder)
      ensures ok ==> Funds() == old(Funds()) && Credit() == old(Credit())
      ensures ok <==> old(m).open.None?
    {
      hide Spares.Free, Spares.Head, OwnCount, Balanced, SubTreesOk, DevicesOk, Undisturbed, NodeBuilder.Valid, NamesOnce, KeyOk,
           State.Contents, Restorer.Funds, Restorer.Credit;
      ok := inSection == SuperblockSection;
      if ok {
        BeginSection(Def(name));
      }
    }

    method BeginDevice(id: nat) returns (ok: bool)
      requires Valid()
      modifies this
      ensures ok ==> Valid() && m == Interpret(old(m), DeviceBegin(id)) && fresh(builder)
      ensures ok ==> Funds() == old(Funds()) && Credit() == old(Credit())
      ensures ok <==> old(m).open.None?
    {
      hide Spares.Free, Spares.Head, OwnCount, Balanced, SubTreesOk, DevicesOk, Undisturbed, NodeBuilder.Valid, NamesOnce, KeyOk,
           State.Contents, Restorer.Funds, Restorer.Credit;
      ok := inSection == SuperblockSection;
      if ok {
        BeginSection(Dev(id));
      }
    }

    /** One <map> tag: a value per block. */
    method MapBlocks(thinBegin: nat, dataBegin: nat, time: nat, len: nat) returns (ok: bool)
      requires Valid()
      modifies this, w, w.sm, data, builder
      ensures ok ==> Valid() && m == Interpret(old(m), Map(thinBegin, dataBegin, time, len)) && builder == old(builder)
      ensures ok ==> old(m).open.Some? && AddsTag(old(m).entries, m.entries, thinBegin, dataBegin, time, len)
      ensures |data.counts| == old(|data.counts|)
      ensures ok ==> Funds() == old(Funds()) - len && Credit() >= old(Credit()) - len
      ensures Fits(old(m), Map(thinBegin, dataBegin, time, len), old(|data.counts|)) && old(Affords(Map(thinBegin, dataBegin, time, len))) ==> ok
    {
      hide Restorer.Funds, Restorer.Credit, KeyOk, Balanced, SubTreesOk, DevicesOk, State.Outside, Undisturbed, NodeBuilder.Valid,
           State.Contents;
      if builder == null {
        return false;
      }
      ghost var es := m.entries;
      for i := 0 to len
        invariant Valid() && builder == old(builder) != null
        invariant m == old(m).(entries := es + MapEntries(thinBegin, dataBegin, time, i))
        invariant |data.counts| == old(|data.counts|) && Funds() == old(Funds()) - i && Credit() >= old(Credit()) - i
      {
        MapInOrder(es, thinBegin, dataBegin, time, len, i);
        ok := PushMapping(thinBegin + i, Mapped(dataBegin + i, time));
        if !ok {
          return;
        }
        assert MapEntries(thinBegin, dataBegin, time, i + 1)
               == MapEntries(thinBegin, dataBegin, time, i) + [Entry(thinBegin + i, Mapped(dataBegin + i, time))];
      }
      MapEntriesAre(thinBegin, dataBegin, time, len);
      ok := true;
    }

    method PushMapping(key: nat, val: Val) returns (ok: bool)
      requires Valid() && builder != null && val.Mapped?
      modifies this`m, w, w.sm, data, builder
      ensures ok ==> Valid() && m == old(m).(entries := old(m).entries + [Entry(key, val)])
      ensures |data.counts| == old(|data.counts|)
      ensures ok ==> Funds() == old(Funds()) - 1 && Credit() >= old(Credit()) - 1
      ensures old(m).emptyRefs == 0 && StrictlyAscending(old(m).entries + [Entry(key, val)]) ==>
                val.block < old(|data.counts|) && old(Funds()) >= 252 && old(Credit()) >= 1 ==> ok
    {
      hide Restorer.Valid, NamesOnce, KeyOk, State.Smooth, State.Covered, SubTreesOk, DevicesOk, Balanced, Undisturbed,
           NodeBuilder.Valid, State.Contents, Spares.Free, Spares.Head, Spares.Nodes, OwnCount, State.Lone, State.Enough, StrictlyAscending,
           State.Inv, RoomMade, KeyOk, Laid;
      ValidParts();
      ghost var s := Now();
      BuilderInv(builder);
      FundsSuffice(builder.c, s, |m.entries|);
      SmoothBy(builder.c, s, subTrees, devices, lost);
      if m.emptyRefs == 0 && StrictlyAscending(m.entries + [Entry(key, val)]) {
        KeyBelow(m, builder.lastKey, [Entry(key, val)]);
      }
      MapKeyOk(m, Entry(key, val));
      ok := builder.PushValue(key, val);
      if ok {
        assert SameOutside(s, builder.S());
        hide State.Outside;
        NotLone(builder.c, builder.S());
        AfterPush(builder.c, start, s, builder.S(), subTrees, devices, lost, m.defs);
        m := m.(entries := m.entries + [Entry(key, val)]);
        ValidParts();
      }
    }

    /** A <ref> tag: only devices may share a definition's leaves. */
    method RefShared(name: string) returns (ok: bool)
      requires Valid()
      modifies this`m, w, w.sm, data, builder
      ensures ok ==> Valid() && m == Interpret(old(m), Ref(name)) && Follows(old(m), Ref(name))
      ensures ok ==> builder != null && Shares(builder.c, old(Now()), Now(), Find(subTrees, name))
      ensures |data.counts| == old(|data.counts|)
      ensures ok ==> Funds() >= old(Funds()) - Weight(old(m), Ref(name)) && Credit() >= old(Credit()) - Strain(old(m), Ref(name))
      ensures Fits(old(m), Ref(name), old(|data.counts|)) && old(Affords(Ref(name))) ==> ok
    {
      hide SubTreesOk, DevicesOk, Balanced, LeavesOk, NodeBuilder.Valid, Undisturbed, State.Contents, KeyOk, Restorer.Funds,
           Restorer.Credit, Restorer.Valid, Interpret, Weight, Strain, Shares, NamesOnce, Fits;
      ValidParts();
      var leaves := Find(subTrees, name);
      if !currentDev || leaves.None? || builder == null {
        RefRefused(name);
        return false;
      }
      KnownLeaves(w.sm.counts, w.blocks, subTrees, m.defs, name);
      ok := PushShared(name, leaves.value);
    }

    lemma RefRefused(name: string)
      requires Valid() && (!currentDev || Find(subTrees, name).None? || builder == null)
      ensures !Fits(m, Ref(name), |data.counts|)
    {
      hide DevicesOk, Balanced, LeavesOk, NodeBuilder.Valid, Undisturbed, State.Contents, KeyOk, NamesOnce;
    }

    method PushShared(name: string, leaves: seq<Summary>) returns (ok: bool)
      requires Valid() && builder != null && currentDev
      requires Find(subTrees, name) == Some(leaves) && name in m.defs && LeavesOk(w.sm.counts, w.blocks, leaves, m.defs[name])
      modifies this`m, w, w.sm, data, builder
      ensures ok ==> Valid() && m == Interpret(old(m), Ref(name)) && Shares(builder.c, old(Now()), Now(), Some(leaves))
      ensures |data.counts| == old(|data.counts|)
      ensures ok ==> Funds() >= old(Funds()) - Weight(old(m), Ref(name)) && Credit() >= old(Credit()) - Strain(old(m), Ref(name))
      ensures Fits(old(m), Ref(name), old(|data.counts|)) && old(Affords(Ref(name))) ==> ok
    {
      hide KeyOk, State.Smooth, State.Covered, DevicesOk, State.Outside, Undisturbed, NodeBuilder.Valid, State.Contents, SameOutside,
           Flat, Spares.Free, Spares.Head, Spares.Nodes, OwnCount, State.Lone, State.Enough, SubTreesOk, LeavesOk, Balanced, HasTree,
           StrictlyAscending, WellFilled, Interpret, Weight, Strain, Pushable, State.Inv, Restorer.Valid, NamesOnce, Pushed;
      ValidParts();
      ghost var s := Now();
      BuilderInv(builder);
      LeavesPushable(builder.c, s, subTrees, devices, lost, m.defs, name);
      FilledLeaves(s.counts, s.blocks, leaves, m.defs[name]);
      SmoothBy(builder.c, s, subTrees, devices, lost);
      RefFits(s.counts, s.blocks, leaves, m, name, builder.lastKey);
      FundsSuffice(builder.c, s, |m.entries|);
      LoneAtMost(builder.c, s);
      ghost var lastKey, nothing := builder.lastKey, builder.nodes == [];
      if m.entries == [] {
        NothingHeld(builder);
      }
      ok := builder.PushNodes(leaves);
      if ok {
        if m.entries == [] && m.defs[name] == [] {
          PushedEmpty(builder.c, s, builder.S(), leaves);
          assert builder.values == [] && (builder.nodes == [] <==> !nothing);
        }
        LoneAtMost(builder.c, builder.S());
        Parity(m, name, nothing);
        RefKeyOk(s.counts, s.blocks, leaves, m, name, lastKey, builder.lastKey);
        AfterPush(builder.c, start, s, builder.S(), subTrees, devices, lost, m.defs);
        m := Interpret(m, Ref(name));
        ValidParts();
      }
    }

    /** Completes the open section's builder; its nodes are what the section built. */
    method EndSection() returns (r: Option<seq<Summary>>)
      requires Valid()
      modifies w, w.sm, data, builder
      ensures r.Some? ==> builder != null && Now().nodes == r.value && Now().values == []
      ensures r.Some? ==> w.sm.Valid() && data.Valid() && Now().Inv(Config(true, LEAF_MAX, mapped.Def?))
      ensures r.Some? ==> WellFilled(r.value, LEAF_MAX) && Flat(w.blocks, r.value) == m.entries
      ensures r.Some? ==> Balanced(Now(), subTrees, devices, lost) && SubTreesOk(w.sm.counts, w.blocks, subTrees, m.defs)
      ensures r.Some? ==> DevicesOk(w.sm.counts, w.blocks, devices, m.devs)
      ensures r.Some? ==> m.open == Some(mapped) && AllMapped(m.entries) && (currentDev <==> mapped.Dev?)
      ensures |data.counts| == old(|data.counts|)
      ensures r.Some? ==> Spares.Head(w.sm.counts, data.counts) >= old(Credit()) - LEAF_MAX
      ensures r.Some? ==> Spares.Free(w.sm.counts) >= old(Blocks()) - |r.value| && |r.value| <= Parents(|m.entries|)
      ensures m.open.Some? && StrictlyAscending(m.entries) && old(Funds()) >= 252 && old(Credit()) >= LEAF_MAX ==> r.Some?
    {
      hide KeyOk, State.Smooth, State.Covered, Spares.Free, Spares.Head, Spares.Nodes, OwnCount, State.Lone, State.Enough, Parents,
           DevicesOk, SubTreesOk, Balanced, State.Outside, Undisturbed, NodeBuilder.Valid, State.Contents, SameOutside, Flat,
           State.Inv;
      if builder == null {
        return None;
      }
      ghost var s := Now();
      assert s == builder.S();
      BuilderInv(builder);
      SmoothBy(builder.c, s, subTrees, devices, lost);
      FundsSuffice(builder.c, s, |m.entries|);
      LoneAtMost(builder.c, s);
      r := builder.Complete();
      if r.Some? {
        assert Now() == builder.S();
        SectionFew(builder.c, Now(), m.entries);
        SubTreesFrame(builder.c, s, Now(), subTrees, devices, lost, m.defs);
        UndisturbedTrans(builder.c, start, s, Now());
        FreshPreserves(builder.c, start, Now());
        DevicesFrame(start.counts, start.blocks, w.sm.counts, w.blocks, devices, m.devs);
        BalancedSame(builder.c, s, Now(), subTrees, devices, lost);
      }
    }

    method DefSharedEnd() returns (ok: bool)
      requires Valid()
      modifies this, w, w.sm, data, builder
      ensures ok ==> Valid() && m == Interpret(old(m), DefEnd) && builder == null && Follows(old(m), DefEnd)
      ensures |data.counts| == old(|data.counts|)
      ensures ok ==> Funds() >= old(Funds()) - 63 && Credit() >= old(Credit()) - LEAF_MAX
      ensures Fits(old(m), DefEnd, old(|data.counts|)) && old(Affords(DefEnd)) ==> ok
    {
      hide Spares.Free, Spares.Head, Parents, OwnCount, State.Lone, KeyOk, DevicesOk, SubTreesOk, Balanced, State.Outside, Undisturbed,
           State.Contents, SameOutside, Flat, State.Inv, NodeBuilder.Valid;
      ghost var repeats := m.repeats;
      assert lost == [] <==> !repeats;
      var r := EndSection();
      ok := r.Some? && mapped.Def?;
      if !ok {
        return;
      }
      var name := mapped.name;
      ghost var s := Now();
      CompletedLeavesOk(s, m.entries);
      DefEndBalanced(s, subTrees, devices, lost, name);
      DefEndSubTrees(s.counts, s.blocks, subTrees, m.defs, name, r.value, m.entries);
      ParentsGrow(0, |m.entries|);
      DefEndRepeats(s.counts, s.blocks, subTrees, m.defs, name);
      InsertOnce(subTrees, name, r.value);
      assert Now().(nodes := []) == State(w.sm.counts, data.counts, w.blocks, [], []);
      CloseSection(Insert(subTrees, name, r.value), devices, Interpret(m, DefEnd), lost + Refs(Leaves(Find(subTrees, name))));
    }

    method EndDevice() returns (ok: bool)
      requires Valid()
      modifies this, w, w.sm, data, builder
      ensures ok ==> Valid() && m == Interpret(old(m), DeviceEnd) && builder == null && Follows(old(m), DeviceEnd)
      ensures |data.counts| == old(|data.counts|)
      ensures ok ==> Funds() >= old(Funds()) - 63 && Credit() >= old(Credit()) - LEAF_MAX
      ensures Fits(old(m), DeviceEnd, old(|data.counts|)) && old(Affords(DeviceEnd)) ==> ok
    {
      hide Spares.Free, Spares.Head, Parents, OwnCount, State.Lone, LevelsCost, KeyOk, DevicesOk, SubTreesOk, Balanced, State.Outside,
           Undisturbed, State.Contents, SameOutside, Flat, State.Inv, NodeBuilder.Valid, Balance, Covers, Ranked;
      ghost var repeats := m.repeats;
      assert lost == [] <==> !repeats;
      if !currentDev {
        return false;
      }
      var r := EndSection();
      ok := r.Some? && mapped.Dev?;
      if !ok {
        return;
      }
      var id := mapped.id;
      ghost var s := Now();
      DescribedLeaves(s);
      LeavesFew(s.counts, s.blocks, r.value, m.entries);
      ParentsGrow(0, |m.entries|);
      LevelsFew(|r.value|);
      NodesCovered(s, subTrees, devices, lost);
      var root, depth := BuildBtree(w, data, r.value, LEAF_MAX);
      ok := root.Some?;
      if !ok {
        return;
      }
      ghost var s' := State(w.sm.counts, data.counts, w.blocks, [], []);
      DevicesAscend(s.counts, s.blocks, devices, m.devs);
      BuiltSound(s, s', subTrees, devices, lost);
      DeviceEndBalanced(s, s', subTrees, devices, lost, id, root.value);
      SubTreesPreserved(s.counts, s.blocks, s'.counts, s'.blocks, subTrees, m.defs);
      DevicesFrame(s.counts, s.blocks, s'.counts, s'.blocks, devices, m.devs);
      assert IsTreeOf(s'.counts, s'.blocks, root.value, m.entries, depth);
      DeviceEndDevices(s'.counts, s'.blocks, devices, m.devs, id, root.value, m.entries);
      DeviceEndRepeats(s.counts, s.blocks, devices, m.devs, id);
      CloseSection(subTrees, InsertEntry(devices, Entry(id, Loc(root.value))), Interpret(m, DeviceEnd), lost + Replaced(devices, id));
    }

    method CloseSection(ts: seq<SubTree>, devs: seq<Entry>, ghost meaning: Meaning, ghost lost': seq<Entry>)
      requires w.sm.Valid() && data.Valid() && w.sm != data && meaning.open == None && meaning.entries == []
      requires Balanced(State(w.sm.counts, data.counts, w.blocks, [], []), ts, devs, lost')
      requires SubTreesOk(w.sm.counts, w.blocks, ts, meaning.defs) && DevicesOk(w.sm.counts, w.blocks, devs, meaning.devs)
      requires (lost' == [] <==> !meaning.repeats) && NamesOnce(ts)
      modifies this
      ensures Valid() && m == meaning && builder == null
    {
      hide DevicesOk, SubTreesOk, Balanced;
      builder, inSection, currentDev, subTrees, devices := null, SuperblockSection, false, ts, devs;
      m, lost := meaning, lost';
      assert Now() == State(w.sm.counts, data.counts, w.blocks, [], []);
    }

    /** The top level tree's leaves: an entry (thin id, root) per device. */
    method TopLeaves() returns (nodes: Option<seq<Summary>>)
      requires w.sm.Valid() && data.Valid() && w.sm != data && StrictlyAscending(devices) && AllLoc(devices)
      modifies w, w.sm, data
      ensures nodes.Some? ==> w.sm.Valid() && data.Valid()
      ensures nodes.Some? ==> Preserves(old(w.sm.counts), old(w.blocks), w.sm.counts, w.blocks)
      ensures nodes.Some? ==> WellFilled(nodes.value, LEAF_MAX) && Flat(w.blocks, nodes.value) == devices
                              && forall i :: 0 <= i < |nodes.value| ==> Describes(w.sm.counts, w.blocks, true, LEAF_MAX, nodes.value[i])
      ensures nodes.Some? ==> forall t :: Balance(w.sm.counts, data.counts, w.blocks, t) - Occ(Refs(nodes.value), t)
                                          == old(Balance(w.sm.counts, data.counts, w.blocks, t)) - Occ(devices, t)
      ensures nodes.Some? && old(Covers(w.sm.counts, data.counts, w.blocks, devices) && Ranked(w.sm.counts, w.blocks))
              ==> Covers(w.sm.counts, data.counts, w.blocks, Refs(nodes.value)) && Ranked(w.sm.counts, w.blocks)
      ensures nodes.Some? ==> Spares.Free(w.sm.counts) == old(Spares.Free(w.sm.counts)) - |nodes.value|
                              && 1 <= |nodes.value| <= Parents(|devices|)
      ensures 63 * old(Spares.Free(w.sm.counts)) >= |devices| + 252 ==> nodes.Some?
    {
      hide Spares.Free, Spares.Head, Spares.Nodes, Parents, OwnCount, State.Lone, State.Enough, State.AllOwned, State.Blocks, State.Smooth,
           Undisturbed, State.Inv, State.Contents, SameOutside, Balance, NodeBuilder.Valid, Occ, Describes, StrictlyAscending, Covers,
           Ranked, Grounds;
      var c := Config(true, LEAF_MAX, false);
      var b := new NodeBuilder(c, w, data);
      ghost var s0 := b.S();
      EmptyBuilder(s0);
      NoneOwn(c, s0);
      ParentsGrow(0, |devices|);
      EnoughAtFirst(c, s0, |devices|);
      var ok := PushRefs(b, devices);
      if !ok {
        return None;
      }
      ghost var s := b.S();
      IsSmooth(c, s);
      if s0.Enough(c, |devices|) {
        StillEnough(c, s0, s, |devices|, |devices|);
      }
      nodes := b.Complete();
      if nodes.None? {
        return None;
      }
      ghost var s2 := b.S();
      UndisturbedTrans(c, s0, s, s2);
      FreshPreserves(c, s0, s2);
      DescribedLeaves(s2);
      CompletedBalance(s0, s, s2, devices);
      StepGrounds(c, s0, s2);
      if Covers(s0.counts, s0.data, s0.blocks, devices) && Ranked(s0.counts, s0.blocks) {
        LevelGrounded(s0, s2, devices);
      }
      OwnAll(c, s2);
      SectionFew(c, s2, devices);
    }

    /** The top level tree. */
    method BuildTopLevel() returns (root: Option<nat>)
      requires w.sm.Valid() && data.Valid() && w.sm != data && StrictlyAscending(devices) && AllLoc(devices)
      modifies w, w.sm, data
      ensures root.Some? ==> w.sm.Valid() && data.Valid()
      ensures root.Some? ==> Preserves(old(w.sm.counts), old(w.blocks), w.sm.counts, w.blocks)
      ensures root.Some? ==> HasTree(w.sm.counts, w.blocks, root.value, devices)
      ensures root.Some? ==>
                forall t :: Balance(w.sm.counts, data.counts, w.blocks, t)
                            == old(Balance(w.sm.counts, data.counts, w.blocks, t)) - Occ(devices, t)
                               + if t == Meta(root.value) then 1 else 0
      ensures root.Some? && old(Covers(w.sm.counts, data.counts, w.blocks, devices) && Ranked(w.sm.counts, w.blocks))
              ==> Ranked(w.sm.counts, w.blocks)
      ensures 63 * old(Spares.Free(w.sm.counts)) >= |devices| + 252 ==> root.Some?
    {
      hide Spares.Free, Spares.Head, Parents, LevelsCost, Balance, Tree, Strict, TreeEntries, Occ, Describes, StrictlyAscending,
           Covers, Ranked, Preserves, Flat;
      ghost var counts0, blocks0 := w.sm.counts, w.blocks;
      var nodes := TopLeaves();
      if nodes.None? {
        return None;
      }
      ghost var counts1, blocks1 := w.sm.counts, w.blocks;
      ParentsGrow(0, |devices|);
      LevelsFew(|nodes.value|);
      ghost var d: nat;
      root, d := BuildBtree(w, data, nodes.value, LEAF_MAX);
      if root.Some? {
        PreservesTrans(counts0, blocks0, counts1, blocks1, w.sm.counts, w.blocks);
        assert IsTreeOf(w.sm.counts, w.blocks, root.value, devices, d);
      }
    }

    /** Uncounts every value of es. */
    method UncountValues(es: seq<Entry>) returns (ok: bool)
      requires data.Valid()
      modifies data
      ensures data.Valid()
      ensures ok && AllMapped(es) ==> Counted(data.counts, old(data.counts), es)
      ensures AllMapped(es) && Uncountable(old(data.counts), es) ==> ok
    {
      for i := 0 to |es|
        invariant data.Valid()
        invariant AllMapped(es) ==> Counted(data.counts, old(data.counts), es[..i])
      {
        if es[i].val.Mapped? {
          if AllMapped(es) && Uncountable(old(data.counts), es) {
            NextUncounts(old(data.counts), data.counts, es, i);
          }
          var deleted := data.Dec(es[i].val.block);
          if deleted.None? {
            return false;
          }
        }
        assert es[..i + 1] == es[..i] + [es[i]];
        forall d ensures Occ(es[..i + 1], Data(d)) == Occ(es[..i], Data(d)) + if TargetOf(es[i].val) == Data(d) then 1 else 0 {
          OccConcat(es[..i], [es[i]], Data(d));
          OccOne(es[i], Data(d));
        }
      }
      assert es[..|es|] == es;
      ok := true;
    }

    /** `release_leaves`: drops the temporary reference to each leaf, and the values of a leaf nobody kept. */
    method ReleaseLeaves(leaves: seq<Summary>) returns (ok: bool)
      requires w.sm.Valid() && data.Valid() && w.sm != data
      requires forall i :: 0 <= i < |leaves| ==> Releasable(w.blocks, leaves[i])
      modifies w.sm, data
      ensures w.sm.Valid() && data.Valid() && |w.sm.counts| == old(|w.sm.counts|)
      ensures forall b :: 0 <= b < |w.sm.counts| && w.sm.counts[b] > 0 ==> old(w.sm.counts)[b] > 0
      ensures ok ==> forall t :: Balance(w.sm.counts, data.counts, w.blocks, t)
                                 == old(Balance(w.sm.counts, data.counts, w.blocks, t)) - Occ(Refs(leaves), t)
      ensures LeavesAscend(w.blocks, leaves) && old(Covers(w.sm.counts, data.counts, w.blocks, Refs(leaves))) ==> ok
    {
      hide Balance, Counted, Uncountable, Covers;
      ghost var covered := Covers(w.sm.counts, data.counts, w.blocks, Refs(leaves));
      assert Refs(leaves[..0]) == [];
      for i := 0 to |leaves|
        invariant w.sm.Valid() && data.Valid() && |w.sm.counts| == old(|w.sm.counts|)
        invariant forall b :: 0 <= b < |w.sm.counts| && w.sm.counts[b] > 0 ==> old(w.sm.counts)[b] > 0
        invariant forall t :: Balance(w.sm.counts, data.counts, w.blocks, t)
                              == old(Balance(w.sm.counts, data.counts, w.blocks, t)) - Occ(Refs(leaves[..i]), t)
      {
        ghost var counts, before := w.sm.counts, data.counts;
        if covered {
          RestCovered(counts, before, w.blocks, leaves, i, old(w.sm.counts), old(data.counts));
        }
        var deleted := w.sm.Dec(leaves[i].block);
        if deleted.None? {
          return false;
        }
        if deleted.value {
          var es := w.ReadNode(true, leaves[i].block);
          if es.None? {
            return false;
          }
          ok := UncountValues(es.value);
          if !ok {
            return;
          }
        }
        assert leaves[..i + 1] == leaves[..i] + [leaves[i]];
        forall t
          ensures Balance(w.sm.counts, data.counts, w.blocks, t)
                  == old(Balance(w.sm.counts, data.counts, w.blocks, t)) - Occ(Refs(leaves[..i + 1]), t)
        {
          ReleaseBalance(counts, before, data.counts, w.blocks, leaves[i], t);
          RefsConcat(leaves[..i], [leaves[i]], t);
          RefsOne(leaves[i], t);
        }
      }
      assert leaves[..|leaves|] == leaves;
      ok := true;
    }

    /** `release_subtrees`: drops every definition's temporary references to its leaves. */
    method ReleaseSubTrees(ts: seq<SubTree>) returns (ok: bool)
      requires w.sm.Valid() && data.Valid() && w.sm != data
      requires forall i, j :: 0 <= i < |ts| && 0 <= j < |ts[i].leaves| ==> Releasable(w.blocks, ts[i].leaves[j])
      modifies w.sm, data
      ensures w.sm.Valid() && data.Valid() && |w.sm.counts| == old(|w.sm.counts|)
      ensures forall b :: 0 <= b < |w.sm.counts| && w.sm.counts[b] > 0 ==> old(w.sm.counts)[b] > 0
      ensures ok ==> forall t :: Balance(w.sm.counts, data.counts, w.blocks, t)
                                 == old(Balance(w.sm.counts, data.counts, w.blocks, t)) - Occ(SubRefs(ts), t)
      ensures TreesAscend(w.blocks, ts) && old(Covers(w.sm.counts, data.counts, w.blocks, SubRefs(ts))) ==> ok
    {
      hide Balance, Releasable, LeavesAscend, Covers;
      ghost var covered := Covers(w.sm.counts, data.counts, w.blocks, SubRefs(ts));
      ok := true;
      for i := 0 to |ts|
        invariant w.sm.Valid() && data.Valid() && |w.sm.counts| == old(|w.sm.counts|)
        invariant forall b :: 0 <= b < |w.sm.counts| && w.sm.counts[b] > 0 ==> old(w.sm.counts)[b] > 0
        invariant forall t :: Balance(w.sm.counts, data.counts, w.blocks, t) - Occ(SubRefs(ts[i..]), t)
                              == old(Balance(w.sm.counts, data.counts, w.blocks, t)) - Occ(SubRefs(ts), t)
      {
        ghost var counts, before := w.sm.counts, data.counts;
        if covered {
          TreeCovered(counts, before, w.blocks, ts, i, old(w.sm.counts), old(data.counts));
        }
        ok := ReleaseLeaves(ts[i].leaves);
        if !ok {
          return;
        }
        assert ts[i..][1..] == ts[i + 1..];
        forall t
          ensures Balance(w.sm.counts, data.counts, w.blocks, t) - Occ(SubRefs(ts[i + 1..]), t)
                  == old(Balance(w.sm.counts, data.counts, w.blocks, t)) - Occ(SubRefs(ts), t)
        {
          OccConcat(Refs(ts[i].leaves), SubRefs(ts[i + 1..]), t);
          assert Balance(counts, before, w.blocks, t) - Occ(SubRefs(ts[i..]), t)
                 == old(Balance(w.sm.counts, data.counts, w.blocks, t)) - Occ(SubRefs(ts), t);
        }
      }
    }

    /** `finalize`, up to the space maps and the superblock: builds the top level tree and releases the
        definitions.  Every reference left over is the superblock's, the top level root's, or lost. */
    method Finalize() returns (root: Option<nat>)
      requires Valid()
      modifies this`lost, w, w.sm, data
      ensures root.Some? ==> Settled(w.sm.counts, data.counts, w.blocks, root.value, lost)
      ensures root.Some? ==> DevicesOk(w.sm.counts, w.blocks, devices, m.devs)
                             && HasTree(w.sm.counts, w.blocks, root.value, devices)
      ensures root.Some? ==> lost == old(lost) + old(Now().values) + Refs(old(Now().nodes))
      ensures root.Some? ==> InUseIsReached(w.sm.counts, w.blocks, root.value, lost)
      ensures DefsAscend(m) && old(Funds()) >= |m.devs| + 315 ==> root.Some?
    {
      hide Restorer.Valid, NamesOnce, Restorer.Funds, Restorer.Blocks, Spares.Free, DefsAscend, TreesAscend, Covers, Balance, HeldRefs,
           Balanced, DevicesOk, SubTreesOk, HasTree, Releasable, NodeBuilder.Valid, Undisturbed, Settled, Preserves, Ranked,
           InUseIsReached;
      FreeLeft();
      AtTheEnd();
      ghost var s := Now();
      lost := lost + s.values + Refs(s.nodes);
      root := BuildTopLevel();
      if root.None? {
        return;
      }
      SubTreesPreserved(s.counts, s.blocks, w.sm.counts, w.blocks, subTrees, m.defs);
      DevicesFrame(s.counts, s.blocks, w.sm.counts, w.blocks, devices, m.devs);
      SubTreesReleasable(w.sm.counts, w.blocks, subTrees, m.defs);
      if DefsAscend(m) {
        DefsAscendTrees(w.sm.counts, w.blocks, subTrees, m);
      }
      NoSuperblockNode(s, w.sm.counts, w.blocks);
      var ok := Release(root.value, s);
      if !ok {
        return None;
      }
    }

    /** The end of `finalize`: the definitions give back their references. */
    method Release(root: nat, ghost s: State) returns (ok: bool)
      requires w.sm.Valid() && data.Valid() && w.sm != data
      requires forall i, j :: 0 <= i < |subTrees| && 0 <= j < |subTrees[i].leaves| ==> Releasable(w.blocks, subTrees[i].leaves[j])
      requires forall t :: Balance(s.counts, s.data, s.blocks, t) == HeldRefs(subTrees, devices, lost, t)
      requires forall t :: Balance(w.sm.counts, data.counts, w.blocks, t)
                           == Balance(s.counts, s.data, s.blocks, t) - Occ(devices, t) + if t == Meta(root) then 1 else 0
      requires HasTree(w.sm.counts, w.blocks, root, devices) && DevicesOk(w.sm.counts, w.blocks, devices, m.devs)
      requires Ranked(w.sm.counts, w.blocks) && SUPERBLOCK_LOCATION !in w.blocks
      modifies w.sm, data
      ensures ok ==> Settled(w.sm.counts, data.counts, w.blocks, root, lost) && InUseIsReached(w.sm.counts, w.blocks, root, lost)
      ensures ok ==> DevicesOk(w.sm.counts, w.blocks, devices, m.devs) && HasTree(w.sm.counts, w.blocks, root, devices)
      ensures TreesAscend(w.blocks, subTrees) ==> ok
    {
      hide TreesAscend, Covers, Balance, DevicesOk, HasTree, Releasable, Settled, Ranked, InUseIsReached;
      ghost var counts, before := w.sm.counts, data.counts;
      FinalCovers(s, counts, before, w.blocks, subTrees, devices, lost, root);
      ok := ReleaseSubTrees(subTrees);
      if ok {
        ReleasedBalance(s, counts, before, w.sm.counts, data.counts, w.blocks, subTrees, devices, lost, root);
        FinallySettled(counts, w.sm.counts, data.counts, w.blocks, root, devices, m.devs, lost);
      }
    }

    method Handle(e: Event) returns (ok: bool)
      requires Valid()
      modifies this, w, w.sm, data, builder
      ensures ok ==> Valid() && m == Interpret(old(m), e) && Follows(old(m), e)
      ensures ok && e.Map? ==> AddsTag(old(m).entries, m.entries, e.thinBegin, e.dataBegin, e.time, e.len)
      ensures ok ==> builder == null || builder == old(builder) || fresh(builder)
      ensures |data.counts| == old(|data.counts|)
      ensures ok ==> Funds() >= old(Funds()) - Weight(old(m), e) && Credit() >= old(Credit()) - Strain(old(m), e)
      ensures Fits(old(m), e, old(|data.counts|)) && old(Affords(e)) ==> ok
    {
      hide Restorer.Valid, Restorer.Funds, Restorer.Credit, Interpret;
      match e {
        case DefBegin(name) => ok := DefSharedBegin(name);
        case DefEnd => ok := DefSharedEnd();
        case DeviceBegin(id) => ok := BeginDevice(id);
        case DeviceEnd => ok := EndDevice();
        case Map(thinBegin, dataBegin, time, len) => ok := MapBlocks(thinBegin, dataBegin, time, len);
        case Ref(name) => ok := RefShared(name);
      }
    }
  }

  /** What the last section, if it was left open, holds: nothing only if it has no mappings, and as every second
      reference to a definition without mappings takes back the leaf of the one before, an even number of those. */
  predicate HoldsNothing(m: Meaning) {
    m.open.None? || (m.entries == [] && m.emptyRefs % 2 == 0)
  }

  /** A whole restore, over any events between the superblock's begin and end.  If it is accepted then
      - the devices are exactly those the events describe, each a tree of exactly its mappings in order,
      - every count equals the references held by nodes in use, but for the superblock's own block, the top
        level root and what was lost,
      - in use are exactly the superblock, the blocks that the top level root leads to and those kept in use by lost
        references, and
      - nothing was lost if and only if no definition and no device was given twice, and a section left open at the
        end holds nothing.
      It is accepted if every event fits those before it and there is room for all that is built. */
  method Restore(w: Batcher, dataBlockSize: nat, nrDataBlocks: nat, events: seq<Event>)
    returns (r: Restorer?, root: nat)
    requires w.sm.Valid() && w.blocks == map[] && w.sm.allocBegin == 0
    requires forall i :: 0 <= i < |w.sm.counts| ==> w.sm.counts[i] == 0
    modifies w, w.sm
    ensures r != null ==> r.w == w && Settled(w.sm.counts, r.data.counts, w.blocks, root, r.lost)
    ensures r != null ==> HasTree(w.sm.counts, w.blocks, root, r.devices)
                          && DevicesOk(w.sm.counts, w.blocks, r.devices, MeaningOf(events).devs)
    ensures r != null ==> Orderly(events) && DevicesGiven(w.sm.counts, w.blocks, r.devices, events)
    ensures r != null ==> InUseIsReached(w.sm.counts, w.blocks, root, r.lost)
    ensures r != null ==> (r.lost == [] <==> !GivenTwice(events) && HoldsNothing(MeaningOf(events)))
    ensures SizeOk(dataBlockSize) && AllFit(events, nrDataBlocks) && RoomFor(events, old(|w.sm.counts|)) ==> r != null
  {
    hide Settled, InUseIsReached, HasTree, DevicesOk, Interpret, Restorer.Valid, Restorer.Funds, Restorer.Credit, AllFit, Fits, Weight,
         Strain, TotalWeight, TotalStrain, Follows, Orderly, DevicesGiven, GivenTwice;
    root := 0;
    r := Restorer.SuperblockBegin(w, dataBlockSize, nrDataBlocks);
    if r == null {
      return;
    }
    ghost var funds, credit := r.Funds(), r.Credit();
    assert TotalWeight(events[..0]) == TotalStrain(events[..0]) == 0 && Orderly(events[..0]) by { NoWeight(); }
    for i := 0 to |events|
      invariant r != null && fresh(r) && fresh(r.data) && r.w == w && r.Valid() && r.m == MeaningOf(events[..i])
      invariant r.builder == null || fresh(r.builder)
      invariant |r.data.counts| == nrDataBlocks && Orderly(events[..i])
      invariant AllFit(events, nrDataBlocks) ==>
                  r.Funds() >= funds - TotalWeight(events[..i]) && r.Credit() >= credit - TotalStrain(events[..i])
    {
      assert events[..i + 1][..i] == events[..i];
      if AllFit(events, nrDataBlocks) {
        PartFits(events, nrDataBlocks, i);
      }
      var ok := r.Handle(events[i]);
      if !ok {
        r := null;
        return;
      }
      OneOrderly(events, i);
    }
    assert events[..|events|] == events;
    OpenEntries(r);
    if AllFit(events, nrDataBlocks) {
      FitIsOrdered(events, nrDataBlocks);
    }
    var top := r.Finalize();
    if top.None? {
      r := null;
      return;
    }
    root := top.value;
    AsGiven(w.sm.counts, w.blocks, r.devices, events);
    TwiceSays(events);
  }

  lemma TwiceSays(events: seq<Event>)
    requires Orderly(events)
    ensures MeaningOf(events).repeats <==> GivenTwice(events)
  {
    RepeatsSay(events, |events|);
    assert events[..|events|] == events;
  }

  predicate SizeOk(dataBlockSize: nat) {
    128 <= dataBlockSize <= 2097152 && dataBlockSize % 128 == 0
  }

  /** An entry for every 63rd of a block, with a block for each section and six for the top level tree, the superblock
      and what is under way; and no count can come to the largest. */
  predicate RoomFor(events: seq<Event>, nrMetadataBlocks: nat) {
    && TotalWeight(events) + |MeaningOf(events).devs| + 378 <= 63 * nrMetadataBlocks
    && TotalStrain(events) < MAX_COUNT
  }

  lemma {:induction false} NoWeight()
    ensures TotalWeight([]) == 0 && TotalStrain([]) == 0 && Orderly([])
  {
  }

  /** What an open section's builder holds in the end is lost. */
  lemma OpenEntries(r: Restorer)
    requires r.Valid()
    ensures r.lost == [] <==> !r.m.repeats
    ensures HoldsNothing(r.m) <==> r.Now().values == [] && r.Now().nodes == []
  {
    if r.builder != null && r.Now().values == [] && r.Now().nodes == [] {
      assert r.Now().Contents() == [];
    }
  }

  /** The first definition's leaf stays in use for nobody, and so does its data block. */
  method LosesMappings(w: Batcher) returns (r: Restorer?, root: nat)
    requires w.sm.Valid() && w.blocks == map[] && w.sm.allocBegin == 0 && |w.sm.counts| >= 9
    requires forall i :: 0 <= i < |w.sm.counts| ==> w.sm.counts[i] == 0
    modifies w, w.sm
    ensures r != null && r.lost != []
  {
    DefinedTwice(5);
    DefinedTwiceFits(5);
    TwiceIsTwice();
    assert Twice()[..5] == Twice();
    hide MeaningOf, AllFit, TotalWeight, TotalStrain, GivenTwice, Orderly, DevicesGiven, Settled, DevicesOk;
    r, root := Restore(w, 128, 8, Twice());
  }
}
