/** `BTreeIterator` of src/pdata/btree_iterator.rs: a traversal with an explicit stack. */
module BtreeIterators {
  import opened Wrappers
  import opened Ledger
  import opened BtreeBuilders

  datatype Frame = Frame(index: nat, node: Node)

  function From(es: seq<Entry>, i: nat): seq<Entry> {
    if i <= |es| then es[i..] else []
  }

  /** The blocks being walked. */
  datatype Walked = Walked(blocks: map<nat, Node>) {
    /** b heads a tree with all its leaves at depth d and no empty node, unless that is a lone leaf. */
    ghost predicate Good(b: nat, d: nat, isRoot: bool)
      decreases d, 1
    {
      b in blocks && GoodNode(blocks[b], d) && (isRoot || blocks[b].entries != [])
    }

    ghost predicate GoodNode(n: Node, d: nat)
      decreases d, 0
    {
      && (n.leaf <==> d == 0)
      && (d > 0 ==> n.entries != [] && forall i :: 0 <= i < |n.entries| ==> Good(Child(n.entries[i]), d - 1, false))
    }

    /** The stack is a path of frames from level d down.  Every frame but the last is positioned at the
        child that the next frame shows. */
    ghost predicate Path(stack: seq<Frame>, d: nat)
      decreases |stack|
    {
      stack == [] ||
      (&& GoodNode(stack[0].node, d)
       && (|stack| > 1 ==>
             && d > 0 && stack[0].index < |stack[0].node.entries| && stack[1].node.entries != []
             && Path(stack[1..], d - 1)))
    }

    /** The entries still to come: those from the last frame's position on, then those after each frame above. */
    ghost function Rest(stack: seq<Frame>, d: nat): seq<Entry>
      requires Path(stack, d)
      decreases |stack|
    {
      if stack == [] then []
      else if |stack| == 1 then
        var es := From(stack[0].node.entries, stack[0].index);
        if d == 0 then es else Under(blocks, es, d - 1)
      else
        Rest(stack[1..], d - 1) + Under(blocks, stack[0].node.entries[stack[0].index + 1..], d - 1)
    }

    lemma {:induction false} GoodIsGoodNode(b: nat, d: nat, isRoot: bool)
      requires Good(b, d, isRoot)
      ensures b in blocks && GoodNode(blocks[b], d) && (!isRoot ==> blocks[b].entries != [])
      ensures TreeEntries(blocks, b, d) == if d == 0 then blocks[b].entries else Under(blocks, blocks[b].entries, d - 1)
    {
    }

    lemma {:induction false} PushOne(f: Frame, d: nat)
      requires d > 0 && GoodNode(f.node, d) && f.index < |f.node.entries|
      ensures var c := Child(f.node.entries[f.index]);
              && c in blocks && blocks[c].entries != [] && Path([f, Frame(0, blocks[c])], d)
              && Rest([f, Frame(0, blocks[c])], d) == Rest([f], d)
    {
      hide Good;
      var c := Child(f.node.entries[f.index]);
      GoodIsGoodNode(c, d - 1, false);
      var below := [Frame(0, blocks[c])];
      assert [f, Frame(0, blocks[c])][1..] == below;
      var es := f.node.entries[f.index..];
      assert es[0] == f.node.entries[f.index] && es[1..] == f.node.entries[f.index + 1..];
      assert blocks[c].entries[0..] == blocks[c].entries;
      assert Rest(below, d - 1) == TreeEntries(blocks, c, d - 1);
    }

    /** Following the last frame's pointer down does not change what is still to come. */
    lemma {:induction false} PushKeeps(stack: seq<Frame>, d: nat)
      requires Path(stack, d) && stack != [] && |stack| <= d
      requires var f := stack[|stack| - 1]; f.index < |f.node.entries|
      ensures var f := stack[|stack| - 1];
              var c := Child(f.node.entries[f.index]);
              && c in blocks && blocks[c].entries != []
              && Path(stack + [Frame(0, blocks[c])], d)
              && Rest(stack + [Frame(0, blocks[c])], d) == Rest(stack, d)
      decreases |stack|
    {
      hide Good, Under;
      var f := stack[|stack| - 1];
      if |stack| == 1 {
        PushOne(f, d);
        assert stack + [Frame(0, blocks[Child(f.node.entries[f.index])])] == [f, Frame(0, blocks[Child(f.node.entries[f.index])])];
        assert stack == [f];
      } else {
        PushKeeps(stack[1..], d - 1);
        var c := Child(f.node.entries[f.index]);
        assert (stack + [Frame(0, blocks[c])])[1..] == stack[1..] + [Frame(0, blocks[c])];
      }
    }

    /** On a path the last frame is |stack| - 1 levels below the first. */
    lemma {:induction false} LastLevel(stack: seq<Frame>, d: nat)
      requires Path(stack, d) && stack != []
      ensures |stack| <= d + 1 && GoodNode(stack[|stack| - 1].node, d + 1 - |stack|)
      ensures |stack| > 1 ==> stack[|stack| - 1].node.entries != []
      decreases |stack|
    {
      if |stack| > 1 {
        LastLevel(stack[1..], d - 1);
      }
    }

    /** Popping an exhausted frame and moving its parent on does not change what is still to come. */
    lemma {:induction false} PopKeeps(stack: seq<Frame>, d: nat)
      requires Path(stack, d) && |stack| > 1
      requires var f := stack[|stack| - 1]; f.index >= |f.node.entries|
      ensures var k := |stack| - 2;
              var up := stack[..k] + [Frame(stack[k].index + 1, stack[k].node)];
              Path(up, d) && Rest(up, d) == Rest(stack, d)
      decreases |stack|
    {
      var k := |stack| - 2;
      var up := stack[..k] + [Frame(stack[k].index + 1, stack[k].node)];
      if k == 0 {
        assert up == [Frame(stack[0].index + 1, stack[0].node)];
        PopTop(stack, d);
      } else {
        hide Good, GoodNode, Under;
        PopKeeps(stack[1..], d - 1);
        assert up[1..] == stack[1..][..k - 1] + [Frame(stack[k].index + 1, stack[k].node)];
      }
    }

    lemma {:induction false} PopTop(stack: seq<Frame>, d: nat)
      requires Path(stack, d) && |stack| == 2 && stack[1].index >= |stack[1].node.entries|
      ensures var up := [Frame(stack[0].index + 1, stack[0].node)];
              Path(up, d) && Rest(up, d) == Rest(stack, d)
    {
      hide Good;
      assert stack[1..] == [stack[1]];
      assert Rest(stack[1..], d - 1) == [];
    }

    lemma {:induction false} LoneExhausted(stack: seq<Frame>, d: nat)
      requires Path(stack, d) && |stack| == 1 && stack[0].index >= |stack[0].node.entries|
      ensures Path([], d) && Rest(stack, d) == [] && Rest([], d) == []
    {
    }

    /** Moving a leaf frame on drops exactly the entry it was positioned at. */
    lemma {:induction false} StepDrops(stack: seq<Frame>, d: nat)
      requires Path(stack, d) && |stack| == d + 1
      requires stack[d].index < |stack[d].node.entries|
      ensures Rest(stack, d) != [] && Rest(stack, d)[0] == stack[d].node.entries[stack[d].index]
      ensures var next := stack[..d] + [Frame(stack[d].index + 1, stack[d].node)];
              Path(next, d) && Rest(next, d) == Rest(stack, d)[1..]
      decreases |stack|
    {
      hide Good, Under;
      var next := stack[..d] + [Frame(stack[d].index + 1, stack[d].node)];
      if d == 0 {
        var es := stack[0].node.entries;
        assert stack == [stack[0]] && next == [Frame(stack[0].index + 1, stack[0].node)];
        assert es[stack[0].index..][1..] == es[stack[0].index + 1..];
      } else {
        StepDrops(stack[1..], d - 1);
        assert next[1..] == stack[1..][..d - 1] + [Frame(stack[d].index + 1, stack[d].node)];
      }
    }
  }

  class BtreeIterator {
    const blocks: map<nat, Node>
    ghost const t: Walked
    ghost const depth: nat
    var path: seq<nat>
    var stack: seq<Frame>

    /** At the end the stack is empty; before it, it reaches down to a leaf, positioned at its next entry. */
    ghost predicate Valid()
      reads this
    {
      && t.blocks == blocks && t.Path(stack, depth) && |path| == |stack|
      && (stack == [] || (|stack| == depth + 1 && AtEntry(stack[depth])))
    }

    ghost predicate AtEntry(f: Frame) {
      f.index < |f.node.entries| || (depth == 0 && f == Frame(0, Node(true, [])))
    }

    /** The entries still to be visited. */
    ghost function Remaining(): seq<Entry>
      reads this
      requires Valid()
    {
      t.Rest(stack, depth)
    }

    constructor (blocks: map<nat, Node>, root: nat, ghost depth: nat)
      requires Walked(blocks).Good(root, depth, true)
      ensures Valid() && this.blocks == blocks && Remaining() == TreeEntries(blocks, root, depth)
    {
      this.blocks, this.t, this.depth := blocks, Walked(blocks), depth;
      path, stack := [], [];
      new;
      LeftMostLeaf(root);
    }

    /** Returns true if a leaf was just pushed. */
    method PushLoc(loc: nat) returns (done: bool)
      requires loc in blocks
      modifies this
      ensures stack == old(stack) + [Frame(0, blocks[loc])] && path == old(path) + [loc] && done == blocks[loc].leaf
    {
      path, stack := path + [loc], stack + [Frame(0, blocks[loc])];
      done := blocks[loc].leaf;
    }

    method LeftMostLeaf(root: nat)
      requires t.blocks == blocks && t.Good(root, depth, true) && stack == [] && path == []
      modifies this
      ensures Valid() && Remaining() == TreeEntries(blocks, root, depth)
    {
      hide Walked.Good;
      t.GoodIsGoodNode(root, depth, true);
      var done := PushLoc(root);
      assert blocks[root].entries[0..] == blocks[root].entries;
      while !done
        invariant t.Path(stack, depth) && 0 < |stack| == |path| <= depth + 1
        invariant t.Rest(stack, depth) == TreeEntries(blocks, root, depth)
        invariant done == stack[|stack| - 1].node.leaf && stack[|stack| - 1].index == 0
        invariant stack[|stack| - 1].node.entries != [] || (depth == 0 && stack[|stack| - 1] == Frame(0, Node(true, [])))
        decreases depth + 1 - |stack|
      {
        t.LastLevel(stack, depth);
        t.PushKeeps(stack, depth);
        done := PushLoc(Child(stack[|stack| - 1].node.entries[0]));
        t.LastLevel(stack, depth);
      }
      t.LastLevel(stack, depth);
    }

    /** The entry the iterator is positioned at, or None at the end. */
    method Get() returns (r: Option<Entry>)
      requires Valid()
      ensures r == if Remaining() == [] then None else Some(Remaining()[0])
    {
      if stack == [] {
        return None;
      }
      var f := stack[|stack| - 1];
      if f.node.entries == [] {
        t.LastLevel(stack, depth);
        return None;
      }
      t.StepDrops(stack, depth);
      return Some(f.node.entries[f.index]);
    }

    /** Moves the last frame on; true if that frame is then exhausted. */
    method IncFrame() returns (more: bool)
      modifies `stack
      ensures old(stack) == [] ==> stack == [] && !more
      ensures old(stack) != [] ==>
                var f := old(stack[|stack| - 1]);
                stack == old(stack[..|stack| - 1]) + [Frame(f.index + 1, f.node)]
                && more == (f.index + 1 >= |f.node.entries|)
    {
      if stack == [] {
        return false;
      }
      var f := stack[|stack| - 1];
      stack := stack[..|stack| - 1] + [Frame(f.index + 1, f.node)];
      more := f.index + 1 >= |f.node.entries|;
    }

    /** Leaves an exhausted node for the next one on its level, which may lie under another parent. */
    method NextNode()
      requires t.blocks == blocks && t.Path(stack, depth) && |path| == |stack| > 0
      requires stack[|stack| - 1].index >= |stack[|stack| - 1].node.entries|
      modifies this
      ensures t.Path(stack, depth) && t.Rest(stack, depth) == old(t.Rest(stack, depth)) && |path| == |stack|
      ensures stack == [] || (|stack| == old(|stack|) && stack[|stack| - 1].index < |stack[|stack| - 1].node.entries|)
      decreases |stack|
    {
      hide Walked.Good, Walked.Path, Walked.Rest;
      ghost var was, k := stack, |stack| - 2;
      t.LastLevel(was, depth);
      path, stack := path[..|path| - 1], stack[..|stack| - 1];
      if |was| > 1 {
        t.PopKeeps(was, depth);
      } else {
        t.LoneExhausted(was, depth);
      }
      var more := IncFrame();
      assert |was| > 1 ==> stack == was[..k] + [Frame(was[k].index + 1, was[k].node)];
      if more {
        NextNode();
      }
      if stack != [] {
        t.PushKeeps(stack, depth);
        var f := stack[|stack| - 1];
        var done := PushLoc(Child(f.node.entries[f.index]));
      }
    }

    /** Moves to the next entry. */
    method Step()
      requires Valid()
      modifies this
      ensures Valid() && Remaining() == if old(Remaining()) == [] then [] else old(Remaining())[1..]
    {
      hide Walked.Good;
      if stack != [] {
        t.LastLevel(stack, depth);
        if stack[depth].node.entries != [] {
          t.StepDrops(stack, depth);
        }
      }
      ghost var was := stack;
      var more := IncFrame();
      if more {
        NextNode();
      }
    }
  }

  /** Whatever the builder makes can be walked. */
  lemma {:induction false} BuiltIsGood(counts: seq<nat>, blocks: map<nat, Node>, b: nat, d: nat, leafMax: nat, isRoot: bool)
    requires leafMax >= 3 && Tree(counts, blocks, b, d) && Strict(blocks, b, d, leafMax, isRoot)
    ensures Walked(blocks).Good(b, d, isRoot)
    decreases d
  {
    if d > 0 {
      forall i | 0 <= i < |blocks[b].entries| ensures Walked(blocks).Good(Child(blocks[b].entries[i]), d - 1, false) {
        BuiltIsGood(counts, blocks, Child(blocks[b].entries[i]), d - 1, leafMax, false);
      }
    }
  }

  /** Visiting with `get` and `step` until the end yields exactly the tree's entries, in order. */
  method Collect(blocks: map<nat, Node>, root: nat, ghost depth: nat)
    returns (es: seq<Entry>)
    requires Walked(blocks).Good(root, depth, true)
    ensures es == TreeEntries(blocks, root, depth)
  {
    hide Walked.Good, Walked.Rest, Walked.Path, TreeEntries;
    var iter := new BtreeIterator(blocks, root, depth);
    es := [];
    var e := iter.Get();
    while e.Some?
      invariant iter.Valid() && fresh(iter) && es + iter.Remaining() == TreeEntries(blocks, root, depth)
      invariant e == if iter.Remaining() == [] then None else Some(iter.Remaining()[0])
      decreases |iter.Remaining()|
    {
      es := es + [e.value];
      iter.Step();
      e := iter.Get();
    }
  }
}
