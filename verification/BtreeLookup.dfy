/** `btree_lookup` of src/pdata/btree_lookup.rs. */
module BtreeLookups {
  import opened Wrappers
  import opened Sequences
  import opened Ledger
  import opened BtreeBuilders

  function Keys(es: seq<Entry>): (ks: seq<nat>)
    ensures |ks| == |es| && forall i :: 0 <= i < |es| ==> ks[i] == es[i].key
  {
    seq(|es|, i requires 0 <= i < |es| => es[i].key)
  }

  lemma {:induction false} UnderSplit(blocks: map<nat, Node>, es: seq<Entry>, d: nat, i: nat)
    requires i < |es|
    ensures Under(blocks, es, d)
            == Under(blocks, es[..i], d) + TreeEntries(blocks, Child(es[i]), d) + Under(blocks, es[i + 1..], d)
  {
    assert es == es[..i] + es[i..];
    UnderConcat(blocks, es[..i], es[i..], d);
    assert es[i..][1..] == es[i + 1..];
  }

  /** Each node's keys ascend, and below each of its children there are only keys from the child's separator up to
      the next one.  Nodes may be empty, and a separator may be less than the first key below it. */
  ghost predicate Ordered(blocks: map<nat, Node>, b: nat, d: nat)
    decreases d, 1
  {
    && b in blocks && (blocks[b].leaf <==> d == 0) && StrictlyAscending(blocks[b].entries)
    && (d > 0 ==> forall i :: 0 <= i < |blocks[b].entries| ==> OrderedChild(blocks, blocks[b].entries, i, d))
  }

  ghost predicate OrderedChild(blocks: map<nat, Node>, es: seq<Entry>, i: nat, d: nat)
    requires i < |es| && d > 0
    decreases d, 0
  {
    Ordered(blocks, Child(es[i]), d - 1) && Between(blocks, es, i, d - 1)
  }

  /** The keys below the i'th child. */
  ghost predicate Between(blocks: map<nat, Node>, es: seq<Entry>, i: nat, d: nat)
    requires i < |es|
  {
    forall e :: e in TreeEntries(blocks, Child(es[i]), d) ==> es[i].key <= e.key && (i + 1 < |es| ==> e.key < es[i + 1].key)
  }

  /** The keys below some children of a node: from the first separator on, and below the one after the last. */
  lemma {:induction false} UnderBounds(blocks: map<nat, Node>, es: seq<Entry>, lo: nat, hi: nat, d: nat)
    requires lo <= hi <= |es| && StrictlyAscending(es) && forall i :: 0 <= i < |es| ==> Between(blocks, es, i, d)
    ensures forall e :: e in Under(blocks, es[lo..hi], d) ==>
              lo < hi && es[lo].key <= e.key && (hi < |es| ==> e.key < es[hi].key)
    decreases hi - lo
  {
    if lo < hi {
      assert es[lo..hi][0] == es[lo] && es[lo..hi][1..] == es[lo + 1..hi];
      UnderBounds(blocks, es, lo + 1, hi, d);
      assert Between(blocks, es, lo, d);
    }
  }

  lemma {:induction false} AllBetween(blocks: map<nat, Node>, b: nat, d: nat, below: nat)
    requires d == below + 1 && Ordered(blocks, b, d)
    ensures StrictlyAscending(blocks[b].entries)
    ensures forall i :: 0 <= i < |blocks[b].entries| ==> Between(blocks, blocks[b].entries, i, below)
  {
    var es := blocks[b].entries;
    forall i | 0 <= i < |es| ensures Between(blocks, es, i, below) {
      assert OrderedChild(blocks, es, i, d);
    }
  }

  /** The search never has to look outside the child between whose separators the key falls. */
  lemma {:induction false} DescendRight(blocks: map<nat, Node>, b: nat, d: nat, key: nat, i: nat)
    requires d > 0 && Ordered(blocks, b, d)
    requires var es := blocks[b].entries;
             i < |es| && es[i].key <= key && (i + 1 < |es| ==> key < es[i + 1].key)
    ensures Lookup(TreeEntries(blocks, b, d), key) == Lookup(TreeEntries(blocks, Child(blocks[b].entries[i]), d - 1), key)
  {
    var es := blocks[b].entries;
    assert TreeEntries(blocks, b, d) == Under(blocks, es, d - 1);
    AllBetween(blocks, b, d, d - 1);
    hide Ordered, Between;
    UnderSplit(blocks, es, d - 1, i);
    UnderBounds(blocks, es, 0, i, d - 1);
    UnderBounds(blocks, es, i + 1, |es|, d - 1);
    assert es[0..i] == es[..i] && es[i + 1..|es|] == es[i + 1..];
    hide TreeEntries, Under, Lookup, StrictlyAscending;
    LookupInMiddle(Under(blocks, es[..i], d - 1), TreeEntries(blocks, Child(es[i]), d - 1), Under(blocks, es[i + 1..], d - 1), key);
  }

  lemma {:induction false} LookupInMiddle(left: seq<Entry>, mid: seq<Entry>, right: seq<Entry>, key: nat)
    requires (forall e :: e in left ==> e.key < key) && (forall e :: e in right ==> key < e.key)
    ensures Lookup(left + mid + right, key) == Lookup(mid, key)
  {
    LookupMisses(left, key);
    LookupMisses(right, key);
    LookupConcat(left + mid, right, key);
    LookupConcat(left, mid, key);
  }

  /** A key below the first separator is nowhere. */
  lemma {:induction false} LeftOfAll(blocks: map<nat, Node>, b: nat, d: nat, key: nat)
    requires d > 0 && Ordered(blocks, b, d) && (blocks[b].entries != [] ==> key < blocks[b].entries[0].key)
    ensures Lookup(TreeEntries(blocks, b, d), key) == None
  {
    var es := blocks[b].entries;
    AllBetween(blocks, b, d, d - 1);
    hide Ordered, Between;
    UnderBounds(blocks, es, 0, |es|, d - 1);
    assert es[0..|es|] == es;
    var all := TreeEntries(blocks, b, d);
    assert forall k :: 0 <= k < |all| ==> all[k] in Under(blocks, es, d - 1);
    LookupMisses(all, key);
  }

  /** Descends from the root, choosing a child by binary search at each level.  The result is the value that the
      tree's in-order entries hold for the key, and None for a key they do not hold. */
  method BtreeLookup(blocks: map<nat, Node>, root: nat, key: nat, ghost depth: nat) returns (r: Option<Val>)
    requires Ordered(blocks, root, depth)
    ensures r == Lookup(TreeEntries(blocks, root, depth), key)
  {
    hide TreeEntries, Lookup, Between;
    var loc := root;
    ghost var d := depth;
    while true
      invariant Ordered(blocks, loc, d)
      invariant Lookup(TreeEntries(blocks, loc, d), key) == Lookup(TreeEntries(blocks, root, depth), key)
      decreases d
    {
      var node := blocks[loc];
      var found := BinarySearch(Keys(node.entries), key);
      if node.leaf {
        LeafEntries(blocks, loc);
        match found {
          case Hit(i) =>
            LookupAt(node.entries, i);
            return Some(node.entries[i].val);
          case Miss(_) =>
            LookupMisses(node.entries, key);
            return None;
        }
      }
      if found == Miss(0) {
        LeftOfAll(blocks, loc, d, key);
        return None;
      }
      var i := if found.Hit? then found.i else found.i - 1;
      assert OrderedChild(blocks, node.entries, i, d);
      DescendRight(blocks, loc, d, key, i);
      loc, d := Child(node.entries[i]), d - 1;
    }
  }

  lemma {:induction false} LeafEntries(blocks: map<nat, Node>, b: nat)
    requires b in blocks
    ensures TreeEntries(blocks, b, 0) == blocks[b].entries
  {
  }

  // ---- the builder's trees can be searched

  lemma {:induction false} EntriesBelow(counts: seq<nat>, blocks: map<nat, Node>, b: nat, d: nat, leafMax: nat)
    requires leafMax >= 3 && Tree(counts, blocks, b, d) && Strict(blocks, b, d, leafMax, false)
    ensures TreeEntries(blocks, b, d) != []
    decreases d
  {
    if d > 0 {
      EntriesBelow(counts, blocks, Child(blocks[b].entries[0]), d - 1, leafMax);
    }
  }

  /** Whatever the builder makes from ascending entries can be searched. */
  lemma {:induction false} BuiltIsOrdered(counts: seq<nat>, blocks: map<nat, Node>, b: nat, d: nat, leafMax: nat, isRoot: bool)
    requires leafMax >= 3 && Tree(counts, blocks, b, d) && Strict(blocks, b, d, leafMax, isRoot)
    requires StrictlyAscending(TreeEntries(blocks, b, d))
    ensures Ordered(blocks, b, d)
    decreases d, 1
  {
    hide Tree, Strict, TreeEntries, Under, StrictlyAscending, Between;
    BuiltNode(counts, blocks, b, d, leafMax, isRoot);
    if d > 0 {
      var es := blocks[b].entries;
      forall i | 0 <= i < |es| ensures OrderedChild(blocks, es, i, d) {
        ChildOrdered(counts, blocks, b, d, leafMax, isRoot, i);
      }
    }
  }

  lemma {:induction false} ChildOrdered(counts: seq<nat>, blocks: map<nat, Node>, b: nat, d: nat, leafMax: nat, isRoot: bool, i: nat)
    requires d > 0 && leafMax >= 3 && Tree(counts, blocks, b, d) && Strict(blocks, b, d, leafMax, isRoot)
    requires StrictlyAscending(TreeEntries(blocks, b, d)) && b in blocks && i < |blocks[b].entries|
    ensures OrderedChild(blocks, blocks[b].entries, i, d)
    decreases d, 0
  {
    hide Ordered, Tree, Strict, TreeEntries, StrictlyAscending, Between;
    BuiltNode(counts, blocks, b, d, leafMax, isRoot);
    ChildAscends(counts, blocks, b, d, leafMax, isRoot, i);
    BuiltIsOrdered(counts, blocks, Child(blocks[b].entries[i]), d - 1, leafMax, false);
  }

  lemma {:induction false} BuiltNode(counts: seq<nat>, blocks: map<nat, Node>, b: nat, d: nat, leafMax: nat, isRoot: bool)
    requires Tree(counts, blocks, b, d) && Strict(blocks, b, d, leafMax, isRoot)
    ensures b in blocks && (blocks[b].leaf <==> d == 0) && StrictlyAscending(blocks[b].entries)
    ensures d > 0 ==> forall i :: 0 <= i < |blocks[b].entries| ==>
              var c := Child(blocks[b].entries[i]); Tree(counts, blocks, c, d - 1) && Strict(blocks, c, d - 1, leafMax, false)
  {
  }

  lemma {:induction false} ChildAscends(counts: seq<nat>, blocks: map<nat, Node>, b: nat, d: nat, leafMax: nat, isRoot: bool, i: nat)
    requires d > 0 && leafMax >= 3 && Tree(counts, blocks, b, d) && Strict(blocks, b, d, leafMax, isRoot)
    requires StrictlyAscending(TreeEntries(blocks, b, d)) && i < |blocks[b].entries|
    ensures StrictlyAscending(TreeEntries(blocks, Child(blocks[b].entries[i]), d - 1)) && Between(blocks, blocks[b].entries, i, d - 1)
  {
    var es := blocks[b].entries;
    var left, mid, right := Under(blocks, es[..i], d - 1), TreeEntries(blocks, Child(es[i]), d - 1), Under(blocks, es[i + 1..], d - 1);
    assert TreeEntries(blocks, b, d) == Under(blocks, es, d - 1);
    FirstBelow(counts, blocks, b, d, leafMax, isRoot, i);
    if i + 1 < |es| {
      FirstBelow(counts, blocks, b, d, leafMax, isRoot, i + 1);
      assert es[i + 1..][0] == es[i + 1] && right[0] == TreeEntries(blocks, Child(es[i + 1]), d - 1)[0];
    }
    hide Tree, Strict, Under, TreeEntries, StrictlyAscending;
    UnderSplit(blocks, es, d - 1, i);
    MiddleAscends(left, mid, right);
  }

  /** Every child of the builder's nodes has entries, starting with its separator key. */
  lemma {:induction false} FirstBelow(counts: seq<nat>, blocks: map<nat, Node>, b: nat, d: nat, leafMax: nat, isRoot: bool, i: nat)
    requires d > 0 && leafMax >= 3 && Tree(counts, blocks, b, d) && Strict(blocks, b, d, leafMax, isRoot)
    requires i < |blocks[b].entries|
    ensures var below := TreeEntries(blocks, Child(blocks[b].entries[i]), d - 1);
            below != [] && below[0].key == blocks[b].entries[i].key
  {
    EntriesBelow(counts, blocks, Child(blocks[b].entries[i]), d - 1, leafMax);
  }

  lemma {:induction false} MiddleAscends(left: seq<Entry>, mid: seq<Entry>, right: seq<Entry>)
    requires StrictlyAscending(left + mid + right) && mid != []
    ensures StrictlyAscending(mid)
    ensures forall e :: e in mid ==> mid[0].key <= e.key && (right != [] ==> e.key < right[0].key)
  {
    var all := left + mid + right;
    assert forall k :: 0 <= k < |mid| ==> all[|left| + k] == mid[k];
    forall i, j | 0 <= i < j < |mid| ensures mid[i].key < mid[j].key {
      assert all[|left| + i].key < all[|left| + j].key;
    }
    forall e | e in mid ensures mid[0].key <= e.key && (right != [] ==> e.key < right[0].key) {
      var k :| 0 <= k < |mid| && mid[k] == e;
      assert right != [] ==> all[|left| + |mid|] == right[0] && all[|left| + k].key < all[|left| + |mid|].key;
    }
  }
}
