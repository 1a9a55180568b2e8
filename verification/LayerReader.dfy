/** The threads of `collect_nodes_in_use` in src/thin/check.rs. */
module LayerReaders {
  // Each step reads or writes one shared thing: one reference count, or one entry of the node map.  A run of the
  // real threads, whose batches are larger, is a run of these steps.

  import opened Wrappers
  import opened NodeMaps

  /** What `get_depth` finds in a block, which is less strict than the layer reader: nothing it can use, a leaf, or
      children. */
  datatype Peek = Shut | Tip | Open(kids: seq<nat>)

  /** Trees over shared nodes, all leaves of each at one depth; `height` is a witness of that.  Any node may be
      in error.  The blocks at the bottom are not read by the layer reader, which takes all of them for leaves. */
  datatype Forest = Forest(nrBlocks: nat, nodes: map<nat, Found>, peeks: map<nat, Peek>, height: map<nat, nat>, roots: seq<nat>) {
    ghost predicate WellFormed() {
      && (forall b :: b in nodes ==> b < nrBlocks && b in peeks && b in height && NodeOk(b))
      && (forall r :: r in roots ==> r in nodes)
    }

    ghost predicate NodeOk(b: nat)
      requires b in nodes && b in peeks && b in height
    {
      match nodes[b]
      case Leaf => height[b] == 0 && !peeks[b].Open?
      case Internal(info) => height[b] > 0 && peeks[b] == Open(info.children) && Below(b, info.children)
      case Bad(_) => height[b] > 0 && !peeks[b].Tip? && (peeks[b].Open? ==> Below(b, peeks[b].kids))
    }

    ghost predicate Below(b: nat, kids: seq<nat>)
      requires b in height
    {
      forall c :: c in kids ==> c in nodes && c in height && height[c] + 1 == height[b]
    }

    /** Not at the bottom. */
    ghost predicate IsInner(b: nat) {
      b in nodes && !nodes[b].Leaf?
    }

    function Kids(b: nat): seq<nat> {
      if b in nodes && nodes[b].Internal? then nodes[b].info.children else []
    }

    /** `get_depth`: the length of the path to the first leaf that can be read. */
    ghost function Depth(b: nat): Option<nat>
      requires WellFormed() && b in nodes
      decreases height[b], 0, 0
    {
      match peeks[b]
      case Shut => None
      case Tip => Some(0)
      case Open(kids) =>
        match FirstDepth(kids, height[b] - 1)
        case Some(d) => Some(d + 1)
        case None => None
    }

    ghost function FirstDepth(kids: seq<nat>, h: nat): Option<nat>
      requires WellFormed() && forall c :: c in kids ==> c in nodes && height[c] == h
      decreases h, 1, |kids|
    {
      if kids == [] then None
      else
        match Depth(kids[0])
        case Some(d) => Some(d)
        case None => FirstDepth(kids[1..], h)
    }

    lemma {:induction false} DepthIsHeight(b: nat)
      requires WellFormed() && b in nodes
      ensures Depth(b).Some? ==> Depth(b).value == height[b]
      decreases height[b], 0, 0
    {
      if peeks[b].Open? {
        FirstIsHeight(peeks[b].kids, height[b] - 1);
      }
    }

    lemma {:induction false} FirstIsHeight(kids: seq<nat>, h: nat)
      requires WellFormed() && forall c :: c in kids ==> c in nodes && height[c] == h
      ensures FirstDepth(kids, h).Some? ==> FirstDepth(kids, h).value == h
      decreases h, 1, |kids|
    {
      if kids != [] {
        DepthIsHeight(kids[0]);
        FirstIsHeight(kids[1..], h);
      }
    }

    /** Steps down through children lead from b to a leaf that can be read. */
    ghost predicate LeadsToLeaf(p: seq<nat>, b: nat) {
      && p != [] && p[0] == b && (forall i :: 0 <= i < |p| ==> p[i] in peeks)
      && (forall i :: 0 <= i < |p| - 1 ==> peeks[p[i]].Open? && p[i + 1] in peeks[p[i]].kids) && peeks[p[|p| - 1]] == Tip
    }

    /** The depth is found exactly when there is a leaf to be found, and is the number of steps to it. */
    lemma {:induction false} DepthWhen(b: nat)
      requires WellFormed() && b in nodes
      ensures Depth(b).Some? <==> exists p :: LeadsToLeaf(p, b)
      ensures Depth(b).Some? ==> forall p :: LeadsToLeaf(p, b) ==> |p| == Depth(b).value + 1
      decreases height[b], 0, 0
    {
      if peeks[b].Open? {
        var kids := peeks[b].kids;
        FirstWhen(kids, height[b] - 1);
        forall p | LeadsToLeaf(p, b) ensures Depth(b).Some? && |p| == Depth(b).value + 1 {
          assert p[0] == b && p[1] in kids;
          DepthWhen(p[1]);
          DepthIsHeight(p[1]);
          DepthIsHeight(b);
          assert LeadsToLeaf(p[1..], p[1]);
        }
        if Depth(b).Some? {
          var c, p :| c in kids && LeadsToLeaf(p, c);
          assert LeadsToLeaf([b] + p, b);
        }
      } else if peeks[b] == Tip {
        assert LeadsToLeaf([b], b);
      }
    }

    lemma {:induction false} FirstWhen(kids: seq<nat>, h: nat)
      requires WellFormed() && forall c :: c in kids ==> c in nodes && height[c] == h
      ensures FirstDepth(kids, h).Some? <==> exists c, p :: c in kids && LeadsToLeaf(p, c)
      decreases h, 1, |kids|
    {
      if kids != [] {
        DepthWhen(kids[0]);
        FirstWhen(kids[1..], h);
        assert forall c :: c in kids <==> c == kids[0] || c in kids[1..];
      }
    }

    /** Roots whose depth can be found, and roots that are given up for want of it. */
    ghost predicate Standing(b: nat) {
      WellFormed() && b in roots && Depth(b).Some?
    }

    ghost predicate Fallen(b: nat) {
      WellFormed() && b in roots && Depth(b).None?
    }

    /** A path of children from a root that is read, clear of some blocks. */
    ghost predicate Path(p: seq<nat>, missed: set<nat>) {
      && p != [] && Standing(p[0]) && (forall i :: 0 <= i < |p| ==> p[i] !in missed)
      && forall i :: 0 <= i < |p| - 1 ==> p[i + 1] in Kids(p[i])
    }

    ghost predicate ReachedPast(missed: set<nat>, b: nat) {
      exists p :: Path(p, missed) && p[|p| - 1] == b
    }

    ghost predicate Reachable(b: nat) {
      ReachedPast({}, b)
    }

    /** Nobody's child is a root that is given up. */
    ghost predicate Apart() {
      forall b :: Fallen(b) ==> !Reachable(b)
    }

    lemma RootReached(missed: set<nat>, r: nat)
      requires Standing(r) && r !in missed
      ensures ReachedPast(missed, r)
    {
      assert Path([r], missed) && [r][|[r]| - 1] == r;
    }

    lemma KidReached(missed: set<nat>, b: nat, c: nat)
      requires ReachedPast(missed, b) && c in Kids(b) && c !in missed
      ensures ReachedPast(missed, c)
    {
      hide Standing;
      var p :| Path(p, missed) && p[|p| - 1] == b;
      assert Path(p + [c], missed) && (p + [c])[|p|] == c;
    }

    /** How many of the children of the nodes in the list are b. */
    function InRefs(bs: seq<nat>, b: nat): nat {
      if bs == [] then 0 else InRefs(bs[..|bs| - 1], b) + Mult(Kids(bs[|bs| - 1]), b)
    }

    /** What should be known in the end: each block that is reached, for what it is. */
    ghost function NodesPast(missed: set<nat>): map<nat, Found> {
      map b | b in nodes && ReachedPast(missed, b) :: nodes[b]
    }

    ghost function ReachedNodes(): map<nat, Found> {
      NodesPast({})
    }
  }

  /** What a thread is doing: looking for a root to read; reading the nodes of a layer, with those still to be
      read, the children of the last one still to be claimed, the children that it was first to claim and the
      updates not yet made; or recording the leaves below the last layer. */
  datatype Work =
    | Idle
    | Reading(left: nat, todo: set<nat>, kids: seq<nat>, children: set<nat>, updates: seq<Update>)
    | Inserting(updates: seq<Update>)
  {
    /** The thread's own part of `handle`: the children have yet to be claimed. */
    function Handle(f: Forest, b: nat): Work
      requires Reading?
    {
      if b !in f.nodes then this.(todo := todo - {b}, updates := updates + [Update(b, Bad(IoError))])
      else if f.nodes[b].Leaf? then this.(todo := todo - {b})
      else this.(todo := todo - {b}, kids := f.Kids(b), updates := updates + [Update(b, f.nodes[b])])
    }
  }

  datatype Thread = Thread(roots: seq<nat>, work: Work) {
    ghost predicate Ok(f: Forest)
      requires f.WellFormed()
    {
      && (forall r :: r in roots ==> r in f.roots)
      && match work
         case Idle => true
         case Reading(left, todo, kids, children, updates) =>
           && (forall b :: b in todo ==> AtHeight(f, b, left + 1))
           && (forall b :: b in kids ==> AtHeight(f, b, left))
           && (forall b :: b in children ==> AtHeight(f, b, left))
           && (forall u :: u in updates ==> u.loc in f.nodes && u.info == f.nodes[u.loc])
         case Inserting(updates) => forall u :: u in updates ==> u.loc in f.nodes && u.info == f.nodes[u.loc]
    }

    ghost predicate AtHeight(f: Forest, b: nat, h: nat)
      requires f.WellFormed()
    {
      b in f.nodes && f.height[b] == h
    }

    function TallyOf(b: nat): Tally {
      match work
      case Idle => Tally(0, 0, 0, Mult(roots, b))
      case Reading(_, todo, kids, children, updates) =>
        Tally(Has(todo, b) + Has(children, b), Pending(updates, b), Mult(kids, b), Mult(roots, b))
      case Inserting(updates) => Tally(0, Pending(updates, b), 0, Mult(roots, b))
    }
  }

  function Has(s: set<nat>, b: nat): nat {
    if b in s then 1 else 0
  }

  function Pending(us: seq<Update>, b: nat): nat {
    if us == [] then 0 else Pending(us[..|us| - 1], b) + if us[|us| - 1].loc == b then 1 else 0
  }

  /** A block's mentions in a thread: as a node to be read, in an update to be made, as a child to be claimed and
      as a root to be read. */
  datatype Tally = Tally(waiting: nat, pending: nat, owed: nat, roots: nat) {
    function Plus(k: Tally): Tally {
      Tally(waiting + k.waiting, pending + k.pending, owed + k.owed, roots + k.roots)
    }
  }

  function Sum(ts: seq<Thread>, b: nat): Tally {
    if ts == [] then Tally(0, 0, 0, 0) else Sum(ts[..|ts| - 1], b).Plus(ts[|ts| - 1].TallyOf(b))
  }

  lemma {:induction false} SumUpdate(ts: seq<Thread>, i: nat, t: Thread, b: nat)
    requires i < |ts|
    ensures Sum(ts[i := t], b).Plus(ts[i].TallyOf(b)) == Sum(ts, b).Plus(t.TallyOf(b))
    ensures Sum(ts, b).waiting >= ts[i].TallyOf(b).waiting && Sum(ts, b).pending >= ts[i].TallyOf(b).pending
    ensures Sum(ts, b).owed >= ts[i].TallyOf(b).owed
    decreases |ts|
  {
    hide Thread.TallyOf;
    var k := |ts| - 1;
    if i == k {
      assert ts[i := t][..k] == ts[..k];
    } else {
      assert ts[i := t][..k] == ts[..k][i := t];
      SumUpdate(ts[..k], i, t, b);
    }
  }

  /** `log` records the nodes read, in order. */
  datatype State = State(counts: seq<nat>, nodes: map<nat, Found>, threads: seq<Thread>, log: seq<nat>) {
    ghost predicate Init(f: Forest) {
      && f.WellFormed() && counts == seq(f.nrBlocks, i => 0) && nodes == map[] && log == []
      && (forall t :: t in threads ==> t.work == Idle && forall r :: r in t.roots ==> r in f.roots)
      && (forall b: nat :: Sum(threads, b).roots == Mult(f.roots, b))
    }

    ghost predicate Terminal() {
      forall t :: t in threads ==> t == Thread([], Idle)
    }

    /** Everything known about block b adds up. */
    ghost predicate BlockOk(f: Forest, b: nat)
      requires b < |counts|
    {
      var k := Sum(threads, b);
      && Total(b) <= 1 && (counts[b] == 0 ==> Total(b) == 0 && k.roots == Mult(f.roots, b))
      && (counts[b] > 0 && !f.Fallen(b) ==> Total(b) == 1)
      && (Total(b) > 0 ==> f.Standing(b) || f.InRefs(log, b) > 0)
      && counts[b] + k.owed + k.roots == Mult(f.roots, b) + f.InRefs(log, b)
      && Mult(log, b) == (if f.IsInner(b) then k.pending + Known(b) else 0)
      && (b in nodes ==> b in f.nodes && nodes[b] == f.nodes[b])
    }

    ghost function Known(b: nat): nat {
      if b in nodes then 1 else 0
    }

    /** Where block b is: waiting to be read, in an update, or in the map. */
    ghost function Total(b: nat): nat {
      Sum(threads, b).waiting + Sum(threads, b).pending + Known(b)
    }

    ghost predicate Inv(f: Forest) {
      && f.WellFormed() && |counts| == f.nrBlocks
      && (forall i :: 0 <= i < |threads| ==> threads[i].Ok(f))
      && (forall b :: 0 <= b < |counts| ==> BlockOk(f, b))
      && (forall b :: b in nodes ==> b < |counts|) && (forall b :: b in log ==> b < |counts|)
    }

    function Set(i: nat, t: Thread): State
      requires i < |threads|
    {
      this.(threads := threads[i := t])
    }

    function Inc(b: nat): State {
      if b < |counts| then this.(counts := counts[b := counts[b] + 1]) else this
    }
  }

  datatype Action =
    | Start // claims a root, and reads it if nobody has
    | Read(b: nat) // reads a node of the layer and queues its entry
    | Claim // claims the next child of the node read last
    | Flush // makes one update
    | EndLayer(order: seq<nat>) // goes on to the children, or, below the last layer, to recording the leaves
    | Finish

  ghost predicate Enabled(f: Forest, s: State, i: nat, a: Action) {
    i < |s.threads| &&
    var t := s.threads[i];
    match a
    case Start => t.work.Idle? && t.roots != []
    case Read(b) => t.work.Reading? && t.work.kids == [] && b in t.work.todo
    case Claim => t.work.Reading? && t.work.kids != []
    case Flush => !t.work.Idle? && (t.work.Reading? ==> t.work.kids == []) && t.work.updates != []
    case EndLayer(order) =>
      && t.work.Reading? && t.work.todo == {} && t.work.kids == [] && t.work.updates == []
      && forall b: nat :: Mult(order, b) == Has(t.work.children, b)
    case Finish => t.work == Inserting([])
  }

  ghost function Next(f: Forest, s: State, i: nat, a: Action): State
    requires f.WellFormed() && Enabled(f, s, i, a)
  {
    var t := s.threads[i];
    var w := t.work;
    match a
    case Start =>
      var r := t.roots[0];
      var w' := if r >= |s.counts| || s.counts[r] > 0 || r !in f.nodes then Idle
        else
          match f.Depth(r)
          case None => Idle
          case Some(d) => if d == 0 then Inserting([Update(r, Leaf)]) else Reading(d - 1, {r}, [], {}, []);
      s.Set(i, Thread(t.roots[1..], w')).Inc(r)
    case Read(b) => s.Set(i, t.(work := w.Handle(f, b))).(log := s.log + [b])
    case Claim =>
      var c := w.kids[0];
      var first := c < |s.counts| && s.counts[c] == 0;
      s.Set(i, t.(work := w.(kids := w.kids[1..], children := w.children + if first then {c} else {}))).Inc(c)
    case Flush =>
      s.Set(i, t.(work := w.(updates := w.updates[1..]))).(nodes := Insert(s.nodes, w.updates[0]))
    case EndLayer(order) =>
      s.Set(i, t.(work := if w.left > 0 then Reading(w.left - 1, w.children, [], {}, []) else Inserting(LeafUpdates(order))))
    case Finish => s.Set(i, t.(work := Idle))
  }

  function LeafUpdates(bs: seq<nat>): (us: seq<Update>)
    ensures |us| == |bs|
    ensures forall i :: 0 <= i < |bs| ==> us[i] == Update(bs[i], Leaf)
  {
    if bs == [] then [] else LeafUpdates(bs[..|bs| - 1]) + [Update(bs[|bs| - 1], Leaf)]
  }

  ghost predicate Step(f: Forest, s: State, s': State) {
    f.WellFormed() && exists i: nat, a: Action :: Enabled(f, s, i, a) && s' == Next(f, s, i, a)
  }

  // ---- every step keeps the invariant

  lemma {:induction false} MultFront(bs: seq<nat>, b: nat)
    requires bs != []
    ensures Mult(bs, b) == Mult(bs[1..], b) + if bs[0] == b then 1 else 0
    decreases |bs|
  {
    if |bs| > 1 {
      assert bs[..|bs| - 1][1..] == bs[1..][..|bs| - 2];
      MultFront(bs[..|bs| - 1], b);
    }
  }

  lemma {:induction false} PendingFront(us: seq<Update>, b: nat)
    requires us != []
    ensures Pending(us, b) == Pending(us[1..], b) + if us[0].loc == b then 1 else 0
    decreases |us|
  {
    if |us| > 1 {
      assert us[..|us| - 1][1..] == us[1..][..|us| - 2];
      PendingFront(us[..|us| - 1], b);
    }
  }

  lemma {:induction false} PendingLeaves(bs: seq<nat>, b: nat)
    ensures Pending(LeafUpdates(bs), b) == Mult(bs, b)
    decreases |bs|
  {
    if bs != [] {
      PendingLeaves(bs[..|bs| - 1], b);
      assert LeafUpdates(bs)[..|bs| - 1] == LeafUpdates(bs[..|bs| - 1]);
    }
  }

  /** What one thread's step does to the sums over all of them; a block is in one place at most. */
  lemma {:induction false} ThreadChanged(f: Forest, s: State, i: nat, t: Thread, b: nat)
    requires s.Inv(f) && i < |s.threads| && b < |s.counts|
    ensures Sum(s.threads[i := t], b).Plus(s.threads[i].TallyOf(b)) == Sum(s.threads, b).Plus(t.TallyOf(b))
    ensures s.BlockOk(f, b) && s.threads[i].Ok(f) && |s.counts| == f.nrBlocks
    ensures s.threads[i].TallyOf(b).waiting + s.threads[i].TallyOf(b).pending + s.Known(b) <= s.Total(b)
    ensures s.threads[i].TallyOf(b).owed <= Sum(s.threads, b).owed
  {
    SumUpdate(s.threads, i, t, b);
  }

  lemma StartBlock(f: Forest, s: State, i: nat, b: nat)
    requires s.Inv(f) && f.WellFormed() && Enabled(f, s, i, Start) && b < |s.counts|
    ensures Next(f, s, i, Start).BlockOk(f, b)
    ensures s.counts[b] > 0 ==> Next(f, s, i, Start).Total(b) == s.Total(b)
  {
    hide Sum, Mult, Pending, State.Inv, Forest.InRefs;
    var t, r := s.threads[i], s.threads[i].roots[0];
    var s' := Next(f, s, i, Start);
    ThreadChanged(f, s, i, s'.threads[i], b);
    MultFront(t.roots, b);
    assert r in t.roots;
    RootDepth(f, r);
    hide Forest.WellFormed;
    One(r, b);
  }

  lemma {:induction false} RootDepth(f: Forest, r: nat)
    requires f.WellFormed() && r in f.roots
    ensures r in f.nodes && r < f.nrBlocks && (f.Standing(r) <==> f.Depth(r).Some?) && (f.Fallen(r) <==> f.Depth(r).None?)
    ensures f.Depth(r).Some? ==> f.Depth(r).value == f.height[r] && (f.Depth(r).value == 0 <==> f.nodes[r] == Leaf)
  {
    f.DepthIsHeight(r);
  }

  lemma {:induction false} One(r: nat, b: nat)
    ensures Mult([], b) == 0 && Pending([], b) == 0 && Pending([Update(r, Leaf)], b) == Has({r}, b)
  {
    assert [Update(r, Leaf)][..0] == [];
  }

  lemma ReadBlock(f: Forest, s: State, i: nat, n: nat, b: nat)
    requires s.Inv(f) && f.WellFormed() && Enabled(f, s, i, Read(n)) && b < |s.counts|
    ensures Next(f, s, i, Read(n)).BlockOk(f, b)
    ensures s.counts[b] > 0 ==> Next(f, s, i, Read(n)).Total(b) == s.Total(b)
  {
    hide Sum, Mult, Pending, State.Inv, Forest.InRefs;
    var t := s.threads[i];
    var s' := Next(f, s, i, Read(n));
    ThreadChanged(f, s, i, s'.threads[i], b);
    assert t.AtHeight(f, n, t.work.left + 1);
    Pushed(f, t.work.updates, s.log, Update(n, f.nodes[n]), b);
    One(n, b);
  }

  lemma {:induction false} Pushed(f: Forest, us: seq<Update>, log: seq<nat>, u: Update, b: nat)
    ensures Pending(us + [u], b) == Pending(us, b) + if u.loc == b then 1 else 0
    ensures Mult(log + [u.loc], b) == Mult(log, b) + if u.loc == b then 1 else 0
    ensures f.InRefs(log + [u.loc], b) == f.InRefs(log, b) + Mult(f.Kids(u.loc), b)
  {
    assert (us + [u])[..|us|] == us && (log + [u.loc])[..|log|] == log;
  }

  lemma ClaimBlock(f: Forest, s: State, i: nat, b: nat)
    requires s.Inv(f) && f.WellFormed() && Enabled(f, s, i, Claim) && b < |s.counts|
    ensures Next(f, s, i, Claim).BlockOk(f, b)
    ensures s.counts[b] > 0 ==> Next(f, s, i, Claim).Total(b) == s.Total(b)
  {
    hide Sum, Mult, Pending, State.Inv, Forest.InRefs;
    var t := s.threads[i];
    var c := t.work.kids[0];
    var s' := Next(f, s, i, Claim);
    ThreadChanged(f, s, i, s'.threads[i], b);
    MultFront(t.work.kids, b);
    assert t.AtHeight(f, c, t.work.left);
  }

  lemma FlushBlock(f: Forest, s: State, i: nat, b: nat)
    requires s.Inv(f) && f.WellFormed() && Enabled(f, s, i, Flush) && b < |s.counts|
    ensures Next(f, s, i, Flush).BlockOk(f, b)
    ensures s.counts[b] > 0 ==> Next(f, s, i, Flush).Total(b) == s.Total(b)
  {
    hide Sum, Mult, Pending, State.Inv, Forest.InRefs;
    var t := s.threads[i];
    var s' := Next(f, s, i, Flush);
    ThreadChanged(f, s, i, s'.threads[i], b);
    PendingFront(t.work.updates, b);
    assert t.work.updates[0] in t.work.updates;
  }

  lemma EndLayerBlock(f: Forest, s: State, i: nat, order: seq<nat>, b: nat)
    requires s.Inv(f) && f.WellFormed() && Enabled(f, s, i, EndLayer(order)) && b < |s.counts|
    ensures Next(f, s, i, EndLayer(order)).BlockOk(f, b)
    ensures s.counts[b] > 0 ==> Next(f, s, i, EndLayer(order)).Total(b) == s.Total(b)
  {
    hide Sum, Mult, Pending, State.Inv, Forest.InRefs;
    var t := s.threads[i];
    var s' := Next(f, s, i, EndLayer(order));
    ThreadChanged(f, s, i, s'.threads[i], b);
    PendingLeaves(order, b);
    One(b, b);
    if b in t.work.children {
      assert t.AtHeight(f, b, t.work.left);
    }
  }

  lemma FinishBlock(f: Forest, s: State, i: nat, b: nat)
    requires s.Inv(f) && f.WellFormed() && Enabled(f, s, i, Finish) && b < |s.counts|
    ensures Next(f, s, i, Finish).BlockOk(f, b)
    ensures s.counts[b] > 0 ==> Next(f, s, i, Finish).Total(b) == s.Total(b)
  {
    hide Sum, Mult, Pending, State.Inv, Forest.InRefs;
    var s' := Next(f, s, i, Finish);
    ThreadChanged(f, s, i, s'.threads[i], b);
    One(b, b);
  }

  lemma ThreadOk(f: Forest, s: State, i: nat, a: Action)
    requires s.Inv(f) && f.WellFormed() && Enabled(f, s, i, a)
    ensures Next(f, s, i, a).threads[i].Ok(f)
  {
    var t := s.threads[i];
    assert t.Ok(f);
    if a.Read? {
      ReadOk(f, t, a.b);
    } else if a.Claim? {
      ClaimOk(f, t);
    } else {
      OtherOk(f, s, i, a);
    }
  }

  lemma OtherOk(f: Forest, s: State, i: nat, a: Action)
    requires i < |s.threads| && f.WellFormed() && s.threads[i].Ok(f) && Enabled(f, s, i, a) && !a.Read? && !a.Claim?
    ensures Next(f, s, i, a).threads[i].Ok(f)
  {
    hide Thread.Ok, Forest.WellFormed, Mult, LeafUpdates;
    var t := s.threads[i];
    match a
    case Start => StartOk(f, t);
    case Flush => FlushOk(f, t);
    case EndLayer(order) => EndLayerOk(f, t, order);
    case Finish => FinishOk(f, t);
  }

  lemma ReadOk(f: Forest, t: Thread, b: nat)
    requires f.WellFormed() && t.Ok(f) && t.work.Reading? && t.work.kids == [] && b in t.work.todo
    ensures t.(work := t.work.Handle(f, b)).Ok(f)
  {
    assert t.AtHeight(f, b, t.work.left + 1);
  }

  lemma FlushOk(f: Forest, t: Thread)
    requires f.WellFormed() && t.Ok(f) && !t.work.Idle? && t.work.updates != []
    ensures t.(work := t.work.(updates := t.work.updates[1..])).Ok(f)
  {
  }

  lemma FinishOk(f: Forest, t: Thread)
    requires f.WellFormed() && t.Ok(f)
    ensures t.(work := Idle).Ok(f)
  {
  }

  lemma ClaimOk(f: Forest, t: Thread)
    requires f.WellFormed() && t.Ok(f) && t.work.Reading? && t.work.kids != []
    ensures var w, c := t.work, t.work.kids[0];
            && t.(work := w.(kids := w.kids[1..], children := w.children + {c})).Ok(f)
            && t.(work := w.(kids := w.kids[1..])).Ok(f)
  {
    var w, c := t.work, t.work.kids[0];
    assert t.AtHeight(f, c, w.left);
    forall b | b in w.kids[1..] ensures t.AtHeight(f, b, w.left) {
      assert b in w.kids;
    }
  }

  lemma {:induction false} StartOk(f: Forest, t: Thread)
    requires f.WellFormed() && t.Ok(f) && t.roots != []
    ensures var r := t.roots[0];
            && r in f.nodes && (f.Depth(r) == Some(0) ==> Thread(t.roots[1..], Inserting([Update(r, Leaf)])).Ok(f))
            && (forall d :: f.Depth(r) == Some(d) && d > 0 ==> Thread(t.roots[1..], Reading(d - 1, {r}, [], {}, [])).Ok(f))
            && Thread(t.roots[1..], Idle).Ok(f)
  {
    var r := t.roots[0];
    assert r in t.roots;
    RootDepth(f, r);
  }

  lemma {:induction false} EndLayerOk(f: Forest, t: Thread, order: seq<nat>)
    requires f.WellFormed() && t.Ok(f) && t.work.Reading?
    requires forall b: nat :: Mult(order, b) == Has(t.work.children, b)
    ensures t.work.left > 0 ==> t.(work := Reading(t.work.left - 1, t.work.children, [], {}, [])).Ok(f)
    ensures t.work.left == 0 ==> t.(work := Inserting(LeafUpdates(order))).Ok(f)
  {
    if t.work.left == 0 {
      forall u | u in LeafUpdates(order) ensures u.loc in f.nodes && f.nodes[u.loc] == u.info {
        var k :| 0 <= k < |order| && LeafUpdates(order)[k] == u;
        assert order[k] in order && Mult(order, order[k]) > 0;
        assert t.AtHeight(f, order[k], 0);
      }
    }
  }

  /** Every step of every thread keeps the invariant. */
  lemma StepKeeps(f: Forest, s: State, s': State)
    requires s.Inv(f) && Step(f, s, s')
    ensures s'.Inv(f)
  {
    var i: nat, a: Action :| Enabled(f, s, i, a) && s' == Next(f, s, i, a);
    hide Sum, State.BlockOk, Thread.Ok, Thread.TallyOf;
    assert |s'.counts| == |s.counts|;
    ThreadOk(f, s, i, a);
    forall k | 0 <= k < |s'.threads| ensures s'.threads[k].Ok(f) {
      assert s'.threads[k] == if k == i then Next(f, s, i, a).threads[i] else s.threads[k];
    }
    forall b | 0 <= b < |s'.counts| ensures s'.BlockOk(f, b) {
      match a
      case Start => StartBlock(f, s, i, b);
      case Read(n) => ReadBlock(f, s, i, n, b);
      case Claim => ClaimBlock(f, s, i, b);
      case Flush => FlushBlock(f, s, i, b);
      case EndLayer(order) => EndLayerBlock(f, s, i, order, b);
      case Finish => FinishBlock(f, s, i, b);
    }
    InsideKept(f, s, i, a);
  }

  /** Only blocks of the forest get into the map and the log. */
  lemma InsideKept(f: Forest, s: State, i: nat, a: Action)
    requires s.Inv(f) && f.WellFormed() && Enabled(f, s, i, a)
    ensures forall b :: b in Next(f, s, i, a).nodes ==> b < |s.counts|
    ensures forall b :: b in Next(f, s, i, a).log ==> b < |s.counts|
  {
    hide Sum, State.BlockOk;
    var t := s.threads[i];
    assert t.Ok(f);
    if a.Flush? {
      assert t.work.updates[0] in t.work.updates;
    } else if a.Read? {
      assert t.AtHeight(f, a.b, t.work.left + 1);
    }
  }

  lemma {:induction false} NothingMentioned(ts: seq<Thread>, b: nat)
    requires forall i :: 0 <= i < |ts| ==> ts[i].work == Idle
    ensures var k := Sum(ts, b); k.waiting == 0 && k.pending == 0 && k.owed == 0
    decreases |ts|
  {
    hide Thread.TallyOf;
    if ts != [] {
      NothingMentioned(ts[..|ts| - 1], b);
      IdleTally(ts[|ts| - 1], b);
    }
  }

  lemma {:induction false} NoRootsLeft(ts: seq<Thread>, b: nat)
    requires forall i :: 0 <= i < |ts| ==> ts[i] == Thread([], Idle)
    ensures Sum(ts, b).roots == 0
    decreases |ts|
  {
    hide Thread.TallyOf;
    if ts != [] {
      NoRootsLeft(ts[..|ts| - 1], b);
      IdleTally(ts[|ts| - 1], b);
    }
  }

  lemma {:induction false} IdleTally(t: Thread, b: nat)
    requires t.work == Idle
    ensures t.TallyOf(b) == Tally(0, 0, 0, Mult(t.roots, b)) && (t.roots == [] ==> Mult(t.roots, b) == 0)
  {
  }

  lemma InitInv(f: Forest, s: State)
    requires s.Init(f)
    ensures s.Inv(f)
  {
    hide Sum, Mult, Forest.WellFormed;
    forall i | 0 <= i < |s.threads| ensures s.threads[i].Ok(f) {
      assert s.threads[i] in s.threads;
    }
    forall b | 0 <= b < |s.counts| ensures s.BlockOk(f, b) {
      One(b, b);
      assert forall i :: 0 <= i < |s.threads| ==> s.threads[i] in s.threads;
      NothingMentioned(s.threads, b);
    }
  }

  /** A run: any interleaving of the threads' steps. */
  ghost predicate Run(f: Forest, ss: seq<State>) {
    ss != [] && ss[0].Init(f) && forall i :: 0 <= i < |ss| - 1 ==> Step(f, ss[i], ss[i + 1])
  }

  lemma {:induction false} RunInv(f: Forest, ss: seq<State>, n: nat)
    requires Run(f, ss) && n < |ss|
    ensures ss[n].Inv(f)
  {
    hide State.Inv, Step, State.Init;
    if n == 0 {
      InitInv(f, ss[0]);
    } else {
      RunInv(f, ss, n - 1);
      assert Step(f, ss[n - 1], ss[n - 1 + 1]);
      StepKeeps(f, ss[n - 1], ss[n]);
    }
  }

  /** The roots that were given up, and that nobody came upon before. */
  ghost function Missed(f: Forest, s: State): set<nat> {
    set b | 0 <= b < f.nrBlocks && f.Fallen(b) && b !in s.nodes
  }

  /** The nodes read, each once, are the inner nodes that are reached. */
  ghost predicate ReadsEachOnce(f: Forest, log: seq<nat>, missed: set<nat>) {
    forall b: nat :: Mult(log, b) == if f.IsInner(b) && f.ReachedPast(missed, b) then 1 else 0
  }

  /** However the threads are interleaved: when they are done, each inner node that is reached past the roots given
      up has been read exactly once, the node map is what the forest makes of it, with every node in error in its
      place, and every count is the number of references. */
  lemma {:induction false} Outcome(f: Forest, ss: seq<State>)
    requires Run(f, ss) && ss[|ss| - 1].Terminal()
    ensures var s := ss[|ss| - 1];
            && s.nodes == f.NodesPast(Missed(f, s)) && ReadsEachOnce(f, s.log, Missed(f, s)) && |s.counts| == f.nrBlocks
            && forall b :: 0 <= b < f.nrBlocks ==> s.counts[b] == Mult(f.roots, b) + f.InRefs(s.log, b)
  {
    var s := ss[|ss| - 1];
    RunInv(f, ss, |ss| - 1);
    forall b | 0 <= b < |s.counts| ensures Settled(f, s, b) {
      SettledBlock(f, s, b);
    }
    assert Quiet(f, s);
    AllSettled(f, s);
  }

  /** What the invariant says of a block when no thread mentions it any more. */
  ghost predicate Settled(f: Forest, s: State, b: nat)
    requires b < |s.counts|
  {
    && (b in s.nodes ==> s.counts[b] > 0 && b in f.nodes && s.nodes[b] == f.nodes[b] && (f.Standing(b) || f.InRefs(s.log, b) > 0))
    && (s.counts[b] > 0 && !f.Fallen(b) ==> b in s.nodes)
    && s.counts[b] == Mult(f.roots, b) + f.InRefs(s.log, b)
    && Mult(s.log, b) == if f.IsInner(b) && b in s.nodes then 1 else 0
  }

  ghost predicate Quiet(f: Forest, s: State) {
    && f.WellFormed() && |s.counts| == f.nrBlocks && (forall b :: b in s.nodes ==> b < f.nrBlocks)
    && (forall b :: b in s.log ==> b < f.nrBlocks) && forall b :: 0 <= b < |s.counts| ==> Settled(f, s, b)
  }

  lemma {:induction false} AllSettled(f: Forest, s: State)
    requires Quiet(f, s)
    ensures s.nodes == f.NodesPast(Missed(f, s)) && ReadsEachOnce(f, s.log, Missed(f, s))
    ensures forall b :: 0 <= b < f.nrBlocks ==> s.counts[b] == Mult(f.roots, b) + f.InRefs(s.log, b)
  {
    hide Mult, Forest.InRefs, Forest.ReachedPast;
    var missed := Missed(f, s);
    var top := TopHeight(f.height);
    forall b: nat ensures (b in s.nodes <==> b in f.nodes && f.ReachedPast(missed, b)) {
      if b in s.nodes {
        assert Settled(f, s, b);
        KnownIsReached(f, s, b, top);
      }
      if f.ReachedPast(missed, b) {
        ReachedIsKnown(f, s, b);
      }
    }
    forall b: nat ensures Mult(s.log, b) == if f.IsInner(b) && f.ReachedPast(missed, b) then 1 else 0 {
      assert b < |s.counts| ==> Settled(f, s, b);
    }
    assert s.nodes == f.NodesPast(missed) by {
      assert forall b :: b in s.nodes ==> Settled(f, s, b);
    }
    forall b | 0 <= b < f.nrBlocks ensures s.counts[b] == Mult(f.roots, b) + f.InRefs(s.log, b) {
      assert Settled(f, s, b);
    }
  }

  lemma {:induction false} SettledBlock(f: Forest, s: State, b: nat)
    requires s.Inv(f) && s.Terminal() && b < |s.counts|
    ensures Settled(f, s, b)
  {
    hide Sum;
    assert forall i :: 0 <= i < |s.threads| ==> s.threads[i] in s.threads;
    NothingMentioned(s.threads, b);
    NoRootsLeft(s.threads, b);
    assert s.BlockOk(f, b);
  }

  /** A child of a node that was read has been counted, and only those have. */
  lemma {:induction false} InRefsMember(f: Forest, log: seq<nat>, b: nat, c: nat)
    requires b in log && c in f.Kids(b)
    ensures f.InRefs(log, c) > 0
  {
    var k := |log| - 1;
    if log[k] != b {
      InRefsMember(f, log[..k], b, c);
    }
  }

  lemma {:induction false} InRefsParent(f: Forest, log: seq<nat>, c: nat) returns (b: nat)
    requires f.InRefs(log, c) > 0
    ensures b in log && c in f.Kids(b)
  {
    var k := |log| - 1;
    if c in f.Kids(log[k]) {
      b := log[k];
    } else {
      b := InRefsParent(f, log[..k], c);
    }
  }

  lemma {:induction false} TopHeight(hs: map<nat, nat>) returns (top: nat)
    ensures forall b :: b in hs ==> hs[b] <= top
    decreases |hs|
  {
    if hs == map[] {
      top := 0;
    } else {
      var b :| b in hs;
      assert |hs - {b}| < |hs| by {
        assert hs.Keys == (hs - {b}).Keys + {b};
        assert |hs.Keys| == |hs| && |(hs - {b}).Keys| == |hs - {b}|;
      }
      top := TopHeight(hs - {b});
      top := if hs[b] > top then hs[b] else top;
    }
  }

  /** What is known has been come upon from a root, all nodes on the way being known too. */
  lemma {:induction false} KnownIsReached(f: Forest, s: State, b: nat, top: nat)
    requires Quiet(f, s) && b in s.nodes && b in f.nodes && forall c :: c in f.height ==> f.height[c] <= top
    ensures f.ReachedPast(Missed(f, s), b)
    decreases top - f.height[b]
  {
    hide Mult, Forest.InRefs, Forest.ReachedPast;
    assert Settled(f, s, b);
    if f.Standing(b) {
      f.RootReached(Missed(f, s), b);
    } else {
      var c := InRefsParent(f, s.log, b);
      assert Settled(f, s, c);
      KnownIsReached(f, s, c, top);
      f.KidReached(Missed(f, s), c, b);
    }
  }

  lemma {:induction false} ReachedIsKnown(f: Forest, s: State, b: nat)
    requires Quiet(f, s) && f.ReachedPast(Missed(f, s), b)
    ensures b in s.nodes
  {
    var p :| f.Path(p, Missed(f, s)) && p[|p| - 1] == b;
    PathIsKnown(f, s, p, |p| - 1);
  }

  lemma {:induction false} PathIsKnown(f: Forest, s: State, p: seq<nat>, n: nat)
    requires Quiet(f, s) && f.Path(p, Missed(f, s)) && n < |p|
    ensures p[n] in s.nodes && p[n] in f.nodes
  {
    hide Mult, Forest.InRefs;
    if n > 0 {
      PathIsKnown(f, s, p, n - 1);
      assert p[n - 1 + 1] in f.Kids(p[n - 1]);
      assert Settled(f, s, p[n - 1]);
      InRefsMember(f, s.log, p[n - 1], p[n]);
    }
    assert p[n] in f.nodes && p[n] < f.nrBlocks;
    assert Settled(f, s, p[n]);
    assert p[n] !in Missed(f, s);
  }

  // ---- `handle` is made of these steps

  /** Thread i claims all the children it has to, nobody else stepping meanwhile. */
  ghost function ClaimAll(f: Forest, s: State, i: nat): State
    requires f.WellFormed() && i < |s.threads| && s.threads[i].work.Reading?
    decreases |s.threads[i].work.kids|
  {
    if s.threads[i].work.kids == [] then s else ClaimAll(f, Next(f, s, i, Claim), i)
  }

  /** Claimed one by one, the children have the counts, and the thread the new nodes to read, that the handler's
      own method gives them. */
  lemma {:induction false} HandleInSteps(f: Forest, s: State, i: nat)
    requires f.WellFormed() && i < |s.threads| && s.threads[i].work.Reading?
    ensures var w, s' := s.threads[i].work, ClaimAll(f, s, i);
            && Counted(s.counts, w.kids, s'.counts)
            && s' == s.Set(i, s.threads[i].(work := w.(kids := [], children := w.children + Reached(s.counts, w.kids))))
                      .(counts := s'.counts)
    decreases |s.threads[i].work.kids|
  {
    hide Forest.WellFormed, Counted, Reached;
    var t := s.threads[i];
    var w := t.work;
    if w.kids == [] {
      NothingClaimed(s.counts, w.children);
      assert s.threads[i := t] == s.threads;
    } else {
      var n := Next(f, s, i, Claim);
      HandleInSteps(f, n, i);
      FirstClaimed(s.counts, w.kids, w.children, ClaimAll(f, s, i).counts);
      assert n.threads == s.threads[i := n.threads[i]];
    }
  }

  lemma NothingClaimed(counts: seq<nat>, children: set<nat>)
    ensures Counted(counts, [], counts) && children + Reached(counts, []) == children
  {
  }

  function Incremented(counts: seq<nat>, c: nat): seq<nat> {
    if c < |counts| then counts[c := counts[c] + 1] else counts
  }

  /** The first of some children, and then the others. */
  lemma FirstClaimed(counts: seq<nat>, kids: seq<nat>, children: set<nat>, after: seq<nat>)
    requires kids != []
    ensures Counted(Incremented(counts, kids[0]), kids[1..], after) ==> Counted(counts, kids, after)
    ensures children + Reached(counts, kids)
            == children + (if kids[0] < |counts| && counts[kids[0]] == 0 then {kids[0]} else {})
               + Reached(Incremented(counts, kids[0]), kids[1..])
  {
    forall b: nat ensures Mult(kids, b) == Mult(kids[1..], b) + if kids[0] == b then 1 else 0 {
      MultFront(kids, b);
    }
    hide Mult;
    assert kids == [kids[0]] + kids[1..];
  }

  // ---- two runs end alike

  lemma {:induction false} WithoutOne(f: Forest, bs: seq<nat>, j: nat, b: nat)
    requires j < |bs|
    ensures var rest := bs[..j] + bs[j + 1..];
            && Mult(bs, b) == Mult(rest, b) + (if bs[j] == b then 1 else 0)
            && f.InRefs(bs, b) == f.InRefs(rest, b) + Mult(f.Kids(bs[j]), b)
    decreases |bs|
  {
    hide Mult, Forest.InRefs;
    var k := |bs| - 1;
    var rest := bs[..j] + bs[j + 1..];
    assert bs == bs[..k] + [bs[k]];
    Pushed(f, [], bs[..k], Update(bs[k], Leaf), b);
    if j == k {
      assert rest == bs[..k];
    } else {
      var less := bs[..k][..j] + bs[..k][j + 1..];
      WithoutOne(f, bs[..k], j, b);
      assert rest == less + [bs[k]];
      Pushed(f, [], less, Update(bs[k], Leaf), b);
    }
  }

  lemma LastCounted(bs: seq<nat>)
    requires bs != []
    ensures exists b: nat :: Mult(bs, b) > 0
  {
    assert Mult(bs, bs[|bs| - 1]) > 0;
  }

  lemma {:induction false} SameInRefs(f: Forest, ns: seq<nat>, bs: seq<nat>, c: nat)
    requires forall b: nat :: Mult(ns, b) == Mult(bs, b)
    ensures f.InRefs(ns, c) == f.InRefs(bs, c)
    decreases |ns|
  {
    if ns == [] {
      if bs != [] {
        LastCounted(bs);
      }
    } else {
      var n := ns[|ns| - 1];
      assert Mult(ns, n) == Mult(bs, n);
      var j :| 0 <= j < |bs| && bs[j] == n;
      var rest := bs[..j] + bs[j + 1..];
      forall b: nat ensures Mult(ns[..|ns| - 1], b) == Mult(rest, b) {
        WithoutOne(f, bs, j, b);
        assert Mult(ns, b) == Mult(bs, b);
      }
      WithoutOne(f, bs, j, c);
      SameInRefs(f, ns[..|ns| - 1], rest, c);
    }
  }

  /** Where no root that is given up is anybody's child, what is missed does not matter. */
  lemma {:induction false} ApartMissesNothing(f: Forest, s: State, b: nat)
    requires f.Apart()
    ensures f.ReachedPast(Missed(f, s), b) <==> f.Reachable(b)
  {
    hide Forest.Fallen, Forest.Standing;
    if f.Reachable(b) {
      var p :| f.Path(p, {}) && p[|p| - 1] == b;
      forall i | 0 <= i < |p| ensures p[i] !in Missed(f, s) {
        assert f.Path(p[..i + 1], {}) && p[..i + 1][|p[..i + 1]| - 1] == p[i];
        assert f.Reachable(p[i]);
      }
      assert f.Path(p, Missed(f, s));
    }
    if f.ReachedPast(Missed(f, s), b) {
      var p :| f.Path(p, Missed(f, s)) && p[|p| - 1] == b;
      assert f.Path(p, {});
    }
  }

  ghost predicate Finishes(f: Forest, ss: seq<State>) {
    Run(f, ss) && ss[|ss| - 1].Terminal()
  }

  /** Where no root that is given up is anybody's child, the node map and the counts do not depend on the
      interleaving, nor on how the roots were dealt out. */
  lemma {:induction false} SameOutcome(f: Forest, ss: seq<State>, us: seq<State>)
    requires f.Apart() && Finishes(f, ss) && Finishes(f, us)
    ensures ss[|ss| - 1].nodes == us[|us| - 1].nodes == f.ReachedNodes() && ss[|ss| - 1].counts == us[|us| - 1].counts
  {
    assert ss != [] && us != [];
    Outcome(f, ss);
    Outcome(f, us);
    hide Run, State.Terminal, Forest.Apart, Forest.ReachedPast, Missed;
    var s, u := ss[|ss| - 1], us[|us| - 1];
    forall b ensures f.ReachedPast(Missed(f, s), b) == f.ReachedPast(Missed(f, u), b) == f.ReachedPast({}, b) {
      ApartMissesNothing(f, s, b);
      ApartMissesNothing(f, u, b);
    }
    forall b | 0 <= b < f.nrBlocks ensures s.counts[b] == u.counts[b] {
      SameInRefs(f, s.log, u.log, b);
    }
  }

  // ---- every run ends

  /** What a thread has still to do. */
  datatype Load = Load(roots: nat, kids: nat, layers: nat, updates: nat) {
    function Plus(k: Load): Load {
      Load(roots + k.roots, kids + k.kids, layers + k.layers, updates + k.updates)
    }
  }

  function LoadOf(t: Thread): Load {
    match t.work
    case Idle => Load(|t.roots|, 0, 0, 0)
    case Reading(left, _, kids, _, updates) => Load(|t.roots|, |kids|, left + 2, |updates|)
    case Inserting(updates) => Load(|t.roots|, 0, 1, |updates|)
  }

  function TotalLoad(ts: seq<Thread>): Load {
    if ts == [] then Load(0, 0, 0, 0) else TotalLoad(ts[..|ts| - 1]).Plus(LoadOf(ts[|ts| - 1]))
  }

  lemma {:induction false} LoadUpdate(ts: seq<Thread>, i: nat, t: Thread)
    requires i < |ts|
    ensures TotalLoad(ts[i := t]).Plus(LoadOf(ts[i])) == TotalLoad(ts).Plus(LoadOf(t))
    decreases |ts|
  {
    hide LoadOf;
    var k := |ts| - 1;
    if i == k {
      assert ts[i := t][..k] == ts[..k];
    } else {
      assert ts[i := t][..k] == ts[..k][i := t];
      LoadUpdate(ts[..k], i, t);
    }
  }

  /** Nodes not read, roots, children, layers and updates, in this order. */
  ghost predicate Nearer(f: Forest, s: State, s': State) {
    var k, k' := TotalLoad(s.threads), TotalLoad(s'.threads);
    && |s'.log| <= f.nrBlocks
    && (|s'.log| > |s.log| || (|s'.log| == |s.log|
        && (k'.roots < k.roots || (k'.roots == k.roots
            && (k'.kids < k.kids || (k'.kids == k.kids
                && (k'.layers < k.layers || (k'.layers == k.layers && k'.updates < k.updates))))))))
  }

  lemma {:induction false} OnceEach(bs: seq<nat>, n: nat)
    requires forall b :: b in bs ==> b < n
    requires forall b: nat :: Mult(bs, b) <= 1
    ensures |bs| <= n
    decreases n
  {
    if bs != [] {
      assert bs[0] in bs;
      var f := Forest(0, map[], map[], map[], []);
      if Mult(bs, n - 1) == 0 {
        OnceEach(bs, n - 1);
      } else {
        var j :| 0 <= j < |bs| && bs[j] == n - 1;
        var rest := bs[..j] + bs[j + 1..];
        forall b: nat ensures Mult(rest, b) == Mult(bs, b) - if b == n - 1 then 1 else 0 {
          WithoutOne(f, bs, j, b);
        }
        forall b | b in rest ensures b < n - 1 {
          assert Mult(rest, b) > 0;
        }
        OnceEach(rest, n - 1);
      }
    }
  }

  lemma LogShort(f: Forest, s: State)
    requires s.Inv(f)
    ensures |s.log| <= f.nrBlocks
  {
    forall b: nat ensures Mult(s.log, b) <= 1 {
      if b in s.log {
        assert s.BlockOk(f, b);
      }
    }
    OnceEach(s.log, f.nrBlocks);
  }

  /** Every step brings the end nearer, in a well-founded order: no run goes on for ever. */
  lemma StepsEnd(f: Forest, s: State, s': State)
    requires s.Inv(f) && Step(f, s, s')
    ensures Nearer(f, s, s')
  {
    hide TotalLoad, LoadOf, State.Inv, Forest.WellFormed, Next, Enabled;
    StepKeeps(f, s, s');
    LogShort(f, s');
    var i: nat, a: Action :| Enabled(f, s, i, a) && s' == Next(f, s, i, a);
    OneThread(f, s, i, a);
    LoadUpdate(s.threads, i, s'.threads[i]);
    if !a.Read? {
      LoadFalls(f, s, i, a);
    }
  }

  lemma OneThread(f: Forest, s: State, i: nat, a: Action)
    requires f.WellFormed() && Enabled(f, s, i, a)
    ensures i < |s.threads| == |Next(f, s, i, a).threads|
    ensures Next(f, s, i, a).threads == s.threads[i := Next(f, s, i, a).threads[i]]
    ensures a.Read? ==> Next(f, s, i, a).log == s.log + [a.b]
  {
    hide Forest.WellFormed, LeafUpdates, Mult;
  }

  lemma LoadFalls(f: Forest, s: State, i: nat, a: Action)
    requires f.WellFormed() && Enabled(f, s, i, a) && !a.Read?
    ensures var k, k' := LoadOf(s.threads[i]), LoadOf(Next(f, s, i, a).threads[i]);
            && Next(f, s, i, a).log == s.log
            && (k'.roots < k.roots || (k'.roots == k.roots
                && (k'.kids < k.kids || (k'.kids == k.kids
                    && (k'.layers < k.layers || (k'.layers == k.layers && k'.updates < k.updates))))))
  {
    hide Forest.WellFormed, LeafUpdates, Mult;
  }

  lemma ListSet(bs: set<nat>) returns (order: seq<nat>)
    ensures forall b: nat :: Mult(order, b) == Has(bs, b)
    decreases |bs|
  {
    if bs == {} {
      order := [];
    } else {
      var b :| b in bs;
      var rest := ListSet(bs - {b});
      order := rest + [b];
      assert order[..|rest|] == rest;
    }
  }

  /** A state that is not terminal has a next step. */
  lemma Progress(f: Forest, s: State)
    requires s.Inv(f) && !s.Terminal()
    ensures exists s' :: Step(f, s, s')
  {
    var t :| t in s.threads && t != Thread([], Idle);
    var i :| 0 <= i < |s.threads| && s.threads[i] == t;
    var a: Action;
    match t.work {
    case Idle => a := Start;
    case Inserting(updates) => a := if updates == [] then Finish else Flush;
    case Reading(_, todo, kids, children, updates) =>
      if kids != [] {
        a := Claim;
      } else if todo != {} {
        var b :| b in todo;
        a := Read(b);
      } else if updates != [] {
        a := Flush;
      } else {
        var order := ListSet(children);
        a := EndLayer(order);
      }
    }
    assert Enabled(f, s, i, a);
    assert Step(f, s, Next(f, s, i, a));
  }

  // ---- when a root that is given up is somebody's child

  ghost predicate Steps(f: Forest, ss: seq<State>) {
    ss != [] && forall i :: 0 <= i < |ss| - 1 ==> Step(f, ss[i], ss[i + 1])
  }

  /** From every state some run comes to an end. */
  lemma {:induction false} RunOn(f: Forest, s: State) returns (ss: seq<State>)
    requires s.Inv(f)
    ensures Steps(f, ss) && ss[0] == s && ss[|ss| - 1].Terminal()
    decreases if |s.log| <= f.nrBlocks then f.nrBlocks - |s.log| else 0, TotalLoad(s.threads).roots, TotalLoad(s.threads).kids,
              TotalLoad(s.threads).layers, TotalLoad(s.threads).updates
  {
    hide State.Inv, Step, TotalLoad;
    if s.Terminal() {
      ss := [s];
    } else {
      Progress(f, s);
      var s' :| Step(f, s, s');
      LogShort(f, s);
      StepsEnd(f, s, s');
      StepKeeps(f, s, s');
      var rest := RunOn(f, s');
      ss := [s] + rest;
      forall i | 0 <= i < |ss| - 1 ensures Step(f, ss[i], ss[i + 1]) {
        assert i > 0 ==> ss[i] == rest[i - 1] && ss[i + 1] == rest[i - 1 + 1];
      }
    }
  }

  /** A block that has been counted stays where it is: known, or missed. */
  lemma {:induction false} TotalStays(f: Forest, s: State, s': State, b: nat)
    requires s.Inv(f) && Step(f, s, s') && b < |s.counts| && s.counts[b] > 0
    ensures s'.Inv(f) && b < |s'.counts| && s'.counts[b] > 0 && s'.Total(b) == s.Total(b) && (b in s.nodes ==> b in s'.nodes)
  {
    StepKeeps(f, s, s');
    var i: nat, a: Action :| Enabled(f, s, i, a) && s' == Next(f, s, i, a);
    CountStays(f, s, i, a, b);
    hide State.Inv, State.Total, Next, Enabled;
    match a
    case Start => StartBlock(f, s, i, b);
    case Read(n) => ReadBlock(f, s, i, n, b);
    case Claim => ClaimBlock(f, s, i, b);
    case Flush => FlushBlock(f, s, i, b);
    case EndLayer(order) => EndLayerBlock(f, s, i, order, b);
    case Finish => FinishBlock(f, s, i, b);
  }

  lemma {:induction false} CountStays(f: Forest, s: State, i: nat, a: Action, b: nat)
    requires f.WellFormed() && Enabled(f, s, i, a) && b < |s.counts| && s.counts[b] > 0
    ensures var s' := Next(f, s, i, a); b < |s'.counts| && s'.counts[b] > 0 && (b in s.nodes ==> b in s'.nodes)
  {
    hide Forest.WellFormed, LeafUpdates, Mult;
  }

  lemma {:induction false} StaysSo(f: Forest, ss: seq<State>, b: nat, n: nat)
    requires Steps(f, ss) && ss[0].Inv(f) && n < |ss| && b < |ss[0].counts| && ss[0].counts[b] > 0
    ensures ss[n].Inv(f) && b < |ss[n].counts| && ss[n].counts[b] > 0
    ensures ss[n].Total(b) == ss[0].Total(b) && (b in ss[0].nodes ==> b in ss[n].nodes)
  {
    hide State.Inv, State.Total, Step;
    if n > 0 {
      StaysSo(f, ss, b, n - 1);
      assert Step(f, ss[n - 1], ss[n - 1 + 1]);
      TotalStays(f, ss[n - 1], ss[n], b);
    }
  }

  /** The first state, with the roots dealt out to two threads. */
  ghost function Dealt(f: Forest, xs: seq<nat>, ys: seq<nat>): State {
    State(seq(f.nrBlocks, i => 0), map[], [Thread(xs, Idle), Thread(ys, Idle)], [])
  }

  lemma {:induction false} DealtSum(xs: seq<nat>, ys: seq<nat>, b: nat)
    ensures Sum([Thread(xs, Idle), Thread(ys, Idle)], b).roots == Mult(xs, b) + Mult(ys, b)
  {
    var ts := [Thread(xs, Idle), Thread(ys, Idle)];
    assert ts[..1] == [Thread(xs, Idle)] && [Thread(xs, Idle)][..0] == [];
    assert Sum(ts, b) == Sum(ts[..1], b).Plus(ts[1].TallyOf(b));
    assert Sum(ts[..1], b) == Sum([], b).Plus(ts[0].TallyOf(b));
  }

  /** One root is dealt out to one thread, and all others to another. */
  lemma {:induction false} DealOne(f: Forest, r: nat) returns (rest: seq<nat>)
    requires f.WellFormed() && r in f.roots
    ensures Dealt(f, [r], rest).Init(f) && forall b: nat :: Mult(f.roots, b) == Mult([r], b) + Mult(rest, b)
  {
    hide Forest.WellFormed;
    var j :| 0 <= j < |f.roots| && f.roots[j] == r;
    rest := f.roots[..j] + f.roots[j + 1..];
    assert [r][..0] == [];
    forall b: nat ensures Mult(f.roots, b) == Mult([r], b) + Mult(rest, b) && Sum(Dealt(f, [r], rest).threads, b).roots == Mult(f.roots, b) {
      WithoutOne(f, f.roots, j, b);
      DealtSum([r], rest, b);
    }
  }

  /** The step that gives up r. */
  lemma {:induction false} GivesUp(f: Forest, r: nat, rest: seq<nat>) returns (s': State)
    requires f.Fallen(r) && Dealt(f, [r], rest).Init(f)
    ensures Step(f, Dealt(f, [r], rest), s') && s'.Inv(f) && r < |s'.counts| && s'.counts[r] > 0 && s'.Total(r) == 0
  {
    var s := Dealt(f, [r], rest);
    InitInv(f, s);
    assert r in f.roots && r in f.nodes && r < f.nrBlocks;
    hide State.Inv, Sum, Mult, State.Init, Forest.Depth, Forest.NodeOk;
    assert Enabled(f, s, 0, Start);
    s' := Next(f, s, 0, Start);
    assert Step(f, s, s');
    assert s'.threads == [Thread([], Idle), Thread(rest, Idle)] && s'.counts[r] == 1 && s'.nodes == map[];
    hide Forest.WellFormed, Forest.Fallen, Next;
    StepKeeps(f, s, s');
    NothingMentioned(s'.threads, r);
  }

  /** A run that tries r as a root first never learns of it. */
  lemma {:induction false} MissedRun(f: Forest, r: nat) returns (ss: seq<State>)
    requires f.Fallen(r)
    ensures Finishes(f, ss) && r !in ss[|ss| - 1].nodes
  {
    var rest := DealOne(f, r);
    var s := Dealt(f, [r], rest);
    hide State.Inv, Step, State.Init, Dealt, Sum, Forest.Fallen;
    var s' := GivesUp(f, r, rest);
    var tail := RunOn(f, s');
    StaysSo(f, tail, r, |tail| - 1);
    ss := [s] + tail;
    forall i | 0 <= i < |ss| - 1 ensures Step(f, ss[i], ss[i + 1]) {
      assert i > 0 ==> ss[i] == tail[i - 1] && ss[i + 1] == tail[i - 1 + 1];
    }
  }

  /** The same trees, with these roots. */
  ghost predicate SameTrees(f: Forest, g: Forest) {
    g == f.(roots := g.roots) && f.WellFormed() && g.WellFormed()
  }

  lemma {:induction false} SameDepth(f: Forest, g: Forest, b: nat)
    requires SameTrees(f, g) && b in f.nodes
    ensures f.Depth(b) == g.Depth(b)
    decreases f.height[b], 0, 0
  {
    if f.peeks[b].Open? {
      SameFirst(f, g, f.peeks[b].kids, f.height[b] - 1);
    }
  }

  lemma {:induction false} SameFirst(f: Forest, g: Forest, kids: seq<nat>, h: nat)
    requires SameTrees(f, g) && forall c :: c in kids ==> c in f.nodes && f.height[c] == h
    ensures f.FirstDepth(kids, h) == g.FirstDepth(kids, h)
    decreases h, 1, |kids|
  {
    if kids != [] {
      SameDepth(f, g, kids[0]);
      SameFirst(f, g, kids[1..], h);
    }
  }

  ghost function With(s: State, t: Thread): State {
    s.(threads := s.threads + [t])
  }

  /** What threads do with some of the roots they can do beside one that has the others. */
  lemma {:induction false} StepBeside(f: Forest, g: Forest, s: State, s': State, t: Thread)
    requires SameTrees(f, g) && Step(g, s, s')
    ensures Step(f, With(s, t), With(s', t))
  {
    var i: nat, a: Action :| Enabled(g, s, i, a) && s' == Next(g, s, i, a);
    if a.Start? && s.threads[i].roots[0] in f.nodes {
      SameDepth(f, g, s.threads[i].roots[0]);
    }
    assert Enabled(f, With(s, t), i, a);
    NextBeside(f, g, s, i, a, t);
  }

  lemma {:induction false} NextBeside(f: Forest, g: Forest, s: State, i: nat, a: Action, t: Thread)
    requires SameTrees(f, g) && Enabled(g, s, i, a) && Enabled(f, With(s, t), i, a)
    requires a.Start? && s.threads[i].roots[0] in f.nodes ==>
               f.Depth(s.threads[i].roots[0]) == g.Depth(s.threads[i].roots[0])
    ensures Next(f, With(s, t), i, a) == With(Next(g, s, i, a), t)
  {
    hide Forest.Depth, Forest.WellFormed, LeafUpdates, Mult;
    var u := Next(g, s, i, a).threads[i];
    assert (s.threads + [t])[i := u] == s.threads[i := u] + [t];
  }

  lemma {:induction false} RunBeside(f: Forest, g: Forest, gs: seq<State>, t: Thread) returns (ss: seq<State>)
    requires SameTrees(f, g) && Steps(g, gs)
    ensures |ss| == |gs| && Steps(f, ss) && ss[0] == With(gs[0], t) && ss[|ss| - 1] == With(gs[|gs| - 1], t)
  {
    hide SameTrees, Step, With;
    ss := seq(|gs|, i requires 0 <= i < |gs| => With(gs[i], t));
    forall i | 0 <= i < |ss| - 1 ensures Step(f, ss[i], ss[i + 1]) {
      assert Step(g, gs[i], gs[i + 1]);
      StepBeside(f, g, gs[i], gs[i + 1], t);
    }
  }

  lemma {:induction false} PathInside(f: Forest, p: seq<nat>, n: nat)
    requires f.WellFormed() && f.Path(p, {}) && n < |p|
    ensures p[n] in f.nodes
  {
    hide Forest.Standing;
    if n > 0 {
      PathInside(f, p, n - 1);
      assert p[n - 1 + 1] in f.Kids(p[n - 1]);
    } else {
      assert p[0] in f.nodes by { assert f.Standing(p[0]); RootInside(f, p[0]); }
    }
  }

  lemma {:induction false} RootInside(f: Forest, r: nat)
    requires f.Standing(r)
    ensures r in f.nodes && r in f.roots
  {
  }

  /** The roots that are read are dealt out to one thread, and those that are given up to another. */
  lemma {:induction false} DealStanding(f: Forest, rs: seq<nat>) returns (xs: seq<nat>, ys: seq<nat>)
    requires f.WellFormed() && forall r :: r in rs ==> r in f.roots
    ensures (forall b :: b in xs <==> b in rs && f.Standing(b)) && forall b :: b in xs ==> b in f.roots
    ensures forall b: nat :: Mult(rs, b) == Mult(xs, b) + Mult(ys, b)
  {
    hide Forest.WellFormed, Forest.Depth;
    if rs == [] {
      xs, ys := [], [];
    } else {
      var k := |rs| - 1;
      xs, ys := DealStanding(f, rs[..k]);
      assert rs == rs[..k] + [rs[k]];
      if f.Standing(rs[k]) {
        assert (xs + [rs[k]])[..|xs|] == xs;
        xs := xs + [rs[k]];
      } else {
        assert (ys + [rs[k]])[..|ys|] == ys;
        ys := ys + [rs[k]];
      }
    }
  }

  ghost function OneThreadFor(f: Forest, rs: seq<nat>): State {
    State(seq(f.nrBlocks, i => 0), map[], [Thread(rs, Idle)], [])
  }

  lemma {:induction false} AloneStarts(f: Forest, g: Forest)
    requires SameTrees(f, g)
    ensures OneThreadFor(f, g.roots).Init(g)
  {
    hide Forest.WellFormed, Sum, Mult;
    var s := OneThreadFor(f, g.roots);
    forall b: nat ensures Sum(s.threads, b).roots == Mult(g.roots, b) {
      OneSum(g.roots, b);
    }
  }

  lemma {:induction false} OneSum(rs: seq<nat>, b: nat)
    ensures Sum([Thread(rs, Idle)], b).roots == Mult(rs, b)
  {
    var ts := [Thread(rs, Idle)];
    assert ts[..0] == [];
    assert Sum(ts, b) == Sum([], b).Plus(ts[0].TallyOf(b));
  }

  /** With only these roots, the same blocks are reached and no root is given up. */
  lemma {:induction false} AloneStands(f: Forest, g: Forest)
    requires SameTrees(f, g) && forall b :: b in g.roots <==> f.Standing(b)
    ensures forall b :: !g.Fallen(b)
    ensures forall b :: f.Reachable(b) ==> g.Reachable(b) && b in g.nodes
  {
    hide Forest.Depth;
    forall b ensures !g.Fallen(b) && (f.Standing(b) ==> g.Standing(b)) {
      if b in g.roots {
        RootInside(f, b);
        SameDepth(f, g, b);
      }
    }
    hide Forest.WellFormed, Forest.Standing, Forest.Fallen;
    forall b | f.Reachable(b) ensures g.Reachable(b) && b in g.nodes {
      var p :| f.Path(p, {}) && p[|p| - 1] == b;
      PathInside(f, p, |p| - 1);
      assert g.Path(p, {});
    }
  }

  /** A run over the roots that are read. */
  lemma {:induction false} KnownAlone(f: Forest, g: Forest) returns (gs: seq<State>)
    requires SameTrees(f, g) && forall b :: b in g.roots <==> f.Standing(b)
    ensures Steps(g, gs) && gs[|gs| - 1].Terminal() && forall b :: f.Reachable(b) ==> b in gs[|gs| - 1].nodes
    ensures gs[0] == OneThreadFor(f, g.roots)
  {
    var s := OneThreadFor(f, g.roots);
    AloneStands(f, g);
    AloneStarts(f, g);
    hide Forest.WellFormed, Forest.Depth, Forest.Standing, Forest.Fallen, OneThreadFor, State.Init, State.Inv, Step, Forest.Path, SameTrees,
         State.Terminal, Forest.ReachedPast;
    InitInv(g, s);
    gs := RunOn(g, s);
    assert Run(g, gs);
    Outcome(g, gs);
    assert Missed(g, gs[|gs| - 1]) == {};
  }

  /** A run that reads all roots that it can read before it tries the others: it comes upon those of them that are
      somebody's children. */
  lemma {:induction false} KnownRun(f: Forest) returns (ss: seq<State>)
    requires f.WellFormed()
    ensures Finishes(f, ss) && forall b :: f.Reachable(b) ==> b in ss[|ss| - 1].nodes
  {
    var xs, ys := DealStanding(f, f.roots);
    var g := f.(roots := xs);
    forall b | f.Standing(b) ensures b in f.roots {
      RootInside(f, b);
    }
    assert SameTrees(f, g);
    hide Forest.WellFormed, Forest.ReachedPast, Forest.Standing;
    forall b: nat ensures Sum(Dealt(f, xs, ys).threads, b).roots == Mult(f.roots, b) {
      DealtSum(xs, ys, b);
    }
    DealtInit(f, xs, ys);
    var gs := KnownAlone(f, g);
    var first := RunBeside(f, g, gs, Thread(ys, Idle));
    assert first[0] == Dealt(f, xs, ys);
    hide Dealt, With, State.Init, State.Inv, Step;
    assert Run(f, first);
    RunInv(f, first, |first| - 1);
    ss := FinishKnown(f, first);
  }

  lemma {:induction false} DealtInit(f: Forest, xs: seq<nat>, ys: seq<nat>)
    requires f.WellFormed() && forall b: nat :: Sum(Dealt(f, xs, ys).threads, b).roots == Mult(f.roots, b)
    requires forall b: nat :: Mult(f.roots, b) == Mult(xs, b) + Mult(ys, b)
    ensures Dealt(f, xs, ys).Init(f)
  {
    hide Forest.WellFormed, Sum;
    forall b | b in xs || b in ys ensures b in f.roots {
      assert Mult(xs, b) + Mult(ys, b) > 0;
    }
  }

  lemma {:induction false} FinishKnown(f: Forest, first: seq<State>) returns (ss: seq<State>)
    requires Run(f, first) && first[|first| - 1].Inv(f)
    ensures Finishes(f, ss) && first[|first| - 1].nodes.Keys <= ss[|ss| - 1].nodes.Keys
  {
    var s := first[|first| - 1];
    hide State.Init, State.Inv, Step;
    var tail := RunOn(f, s);
    forall b | b in s.nodes ensures b in tail[|tail| - 1].nodes {
      KnownIsCounted(f, s, b);
      StaysSo(f, tail, b, |tail| - 1);
    }
    ss := first + tail[1..];
    forall i | 0 <= i < |ss| - 1 ensures Step(f, ss[i], ss[i + 1]) {
      var k := |first| - 1;
      assert i < k ==> ss[i] == first[i] && ss[i + 1] == first[i + 1];
      assert i >= k ==> ss[i] == tail[i - k] && ss[i + 1] == tail[i - k + 1];
    }
    assert ss[|ss| - 1] == tail[|tail| - 1];
  }

  lemma {:induction false} KnownIsCounted(f: Forest, s: State, b: nat)
    requires s.Inv(f) && b in s.nodes
    ensures b < |s.counts| && s.counts[b] > 0
  {
    assert s.BlockOk(f, b);
  }

  ghost function LastOf(f: Forest, ss: seq<State>): State
    requires Finishes(f, ss)
  {
    ss[|ss| - 1]
  }

  ghost predicate Alike(f: Forest) {
    forall ss: seq<State>, us: seq<State> :: Finishes(f, ss) && Finishes(f, us) ==> LastOf(f, ss).nodes == LastOf(f, us).nodes
  }

  /** The node map is the same after all runs if and only if no root that is given up is anybody's child: the
      thread that tries such a root keeps the others from reading it as a child, unless it comes too late. */
  lemma {:induction false} AlikeIfApart(f: Forest)
    ensures f.Apart() <==> Alike(f)
  {
    hide Run, State.Terminal;
    if f.Apart() {
      forall ss: seq<State>, us: seq<State> | Finishes(f, ss) && Finishes(f, us) ensures LastOf(f, ss).nodes == LastOf(f, us).nodes {
        SameOutcome(f, ss, us);
      }
    } else {
      var r :| f.Fallen(r) && f.Reachable(r);
      var ss := MissedRun(f, r);
      var us := KnownRun(f);
      assert LastOf(f, ss).nodes != LastOf(f, us).nodes;
    }
  }

  /** Blocks 0 and 1 are roots, and 1, which cannot be read, is also a child of 0. */
  function ChildGivenUp(): Forest {
    Forest(4, map[0 := Internal(Info([0, 10], [1, 2])), 1 := Bad(IoError), 2 := Internal(Info([10], [3])), 3 := Leaf],
           map[0 := Open([1, 2]), 1 := Shut, 2 := Open([3]), 3 := Tip], map[0 := 2, 1 := 1, 2 := 1, 3 := 0], [0, 1])
  }

  /** Whether the node in error gets into the node map depends on which thread comes first. */
  lemma {:induction false} NotAlike()
    ensures ChildGivenUp().WellFormed() && !ChildGivenUp().Apart() && !Alike(ChildGivenUp())
  {
    var f := ChildGivenUp();
    OneStands();
    hide Forest.WellFormed, Forest.Standing, Forest.Fallen, Alike;
    assert f.Path([0, 1], {}) && [0, 1][|[0, 1]| - 1] == 1;
    assert f.Reachable(1);
    AlikeIfApart(f);
  }

  lemma {:induction false} OneStands()
    ensures var f := ChildGivenUp(); f.WellFormed() && f.Standing(0) && f.Fallen(1)
  {
    var f := ChildGivenUp();
    ChildIsFormed();
    hide Forest.FirstDepth, Forest.WellFormed;
    FirstOf(f, [3], 0);
    FirstOf(f, [2], 1);
    FirstOf(f, [1, 2], 1);
    assert [1, 2][1..] == [2];
    OpenDepth(f, 2, [3]);
    OpenDepth(f, 0, [1, 2]);
    assert f.Depth(3) == Some(0) && f.Depth(1) == None;
  }

  lemma {:induction false} ChildIsFormed()
    ensures ChildGivenUp().WellFormed()
  {
  }

  lemma {:induction false} OpenDepth(f: Forest, b: nat, kids: seq<nat>)
    requires f.WellFormed() && b in f.nodes && f.peeks[b] == Open(kids)
    ensures f.height[b] > 0 && forall c :: c in kids ==> c in f.nodes && f.height[c] == f.height[b] - 1
    ensures f.Depth(b) == match f.FirstDepth(kids, f.height[b] - 1) case Some(d) => Some(d + 1) case None => None
  {
  }

  lemma {:induction false} FirstOf(f: Forest, kids: seq<nat>, h: nat)
    requires f.WellFormed() && kids != [] && forall c :: c in kids ==> c in f.nodes && f.height[c] == h
    ensures f.FirstDepth(kids, h) == if f.Depth(kids[0]).Some? then f.Depth(kids[0]) else f.FirstDepth(kids[1..], h)
  {
  }

  // ---- when the counts are the same

  ghost predicate SameCounts(f: Forest) {
    forall ss: seq<State>, us: seq<State> :: Finishes(f, ss) && Finishes(f, us) ==> LastOf(f, ss).counts == LastOf(f, us).counts
  }

  /** Nobody's child is a root that is given up and has children. */
  ghost predicate Childless(f: Forest) {
    forall b :: f.Fallen(b) && f.Reachable(b) ==> f.Kids(b) == []
  }

  /** Nodes with children are missed by no run. */
  lemma {:induction false} ParentsReached(f: Forest, s: State, b: nat)
    requires Childless(f) && f.Kids(b) != []
    ensures f.ReachedPast(Missed(f, s), b) <==> f.Reachable(b)
  {
    hide Forest.Fallen, Forest.Standing;
    if f.Reachable(b) {
      var p :| f.Path(p, {}) && p[|p| - 1] == b;
      forall i | 0 <= i < |p| ensures p[i] !in Missed(f, s) {
        assert f.Path(p[..i + 1], {}) && p[..i + 1][|p[..i + 1]| - 1] == p[i];
        assert f.Reachable(p[i]);
        assert i + 1 < |p| ==> p[i + 1] in f.Kids(p[i]);
      }
      assert f.Path(p, Missed(f, s));
    }
    if f.ReachedPast(Missed(f, s), b) {
      var p :| f.Path(p, Missed(f, s)) && p[|p| - 1] == b;
      assert f.Path(p, {});
    }
  }

  /** The nodes with children. */
  function Parents(f: Forest, log: seq<nat>): seq<nat> {
    if log == [] then []
    else
      var k := |log| - 1;
      Parents(f, log[..k]) + if f.Kids(log[k]) == [] then [] else [log[k]]
  }

  lemma {:induction false} ParentsCount(f: Forest, log: seq<nat>, b: nat)
    ensures f.InRefs(Parents(f, log), b) == f.InRefs(log, b)
    ensures Mult(Parents(f, log), b) == if f.Kids(b) == [] then 0 else Mult(log, b)
  {
    hide Forest.Kids, Mult, Forest.InRefs;
    NoneCount(f, b);
    if log != [] {
      var k := |log| - 1;
      ParentsCount(f, log[..k], b);
      var before := Parents(f, log[..k]);
      assert log == log[..k] + [log[k]];
      Pushed(f, [], log[..k], Update(log[k], Leaf), b);
      Pushed(f, [], before, Update(log[k], Leaf), b);
      assert before + [] == before;
    }
  }

  lemma {:induction false} NoneCount(f: Forest, b: nat)
    ensures f.InRefs([], b) == 0 && Mult([], b) == 0
  {
  }

  /** More reads, more references. */
  lemma {:induction false} MoreInRefs(f: Forest, ns: seq<nat>, bs: seq<nat>, c: nat)
    requires forall b: nat :: Mult(ns, b) <= Mult(bs, b)
    ensures f.InRefs(ns, c) <= f.InRefs(bs, c)
    decreases |ns|
  {
    if ns != [] {
      var n := ns[|ns| - 1];
      assert Mult(ns, n) <= Mult(bs, n);
      var j :| 0 <= j < |bs| && bs[j] == n;
      var rest := bs[..j] + bs[j + 1..];
      forall b: nat ensures Mult(ns[..|ns| - 1], b) <= Mult(rest, b) {
        WithoutOne(f, bs, j, b);
        assert Mult(ns, b) <= Mult(bs, b);
      }
      WithoutOne(f, bs, j, c);
      MoreInRefs(f, ns[..|ns| - 1], rest, c);
    }
  }

  lemma {:induction false} CountsWhenChildless(f: Forest, ss: seq<State>, us: seq<State>)
    requires Childless(f) && Finishes(f, ss) && Finishes(f, us)
    ensures LastOf(f, ss).counts == LastOf(f, us).counts
  {
    Outcome(f, ss);
    Outcome(f, us);
    hide Finishes, Childless, Forest.ReachedPast, Missed;
    var s, u := LastOf(f, ss), LastOf(f, us);
    forall c | 0 <= c < f.nrBlocks ensures s.counts[c] == u.counts[c] {
      forall b: nat ensures Mult(Parents(f, s.log), b) == Mult(Parents(f, u.log), b) {
        ParentsCount(f, s.log, b);
        ParentsCount(f, u.log, b);
        if f.Kids(b) != [] {
          ParentsReached(f, s, b);
          ParentsReached(f, u, b);
        }
      }
      SameInRefs(f, Parents(f, s.log), Parents(f, u.log), c);
      ParentsCount(f, s.log, c);
      ParentsCount(f, u.log, c);
    }
  }

  /** A run that misses a root with children counts those less often than one that misses nothing. */
  lemma {:induction false} CountsDiffer(f: Forest, r: nat)
    requires f.Fallen(r) && f.Reachable(r) && f.Kids(r) != []
    ensures !SameCounts(f)
  {
    var ss := MissedRun(f, r);
    var us := KnownRun(f);
    Outcome(f, ss);
    Outcome(f, us);
    var s, u := LastOf(f, ss), LastOf(f, us);
    var c := f.Kids(r)[0];
    ReachedIsInside(f, r);
    PastIsReached(f, Missed(f, s));
    hide Finishes, Forest.ReachedPast;
    assert u.nodes.Keys >= s.nodes.Keys;
    forall b: nat ensures Mult(s.log + [r], b) <= Mult(u.log, b) {
      assert (s.log + [r])[..|s.log|] == s.log;
      assert f.Reachable(b) ==> b in u.nodes;
    }
    MoreInRefs(f, s.log + [r], u.log, c);
    assert (s.log + [r])[..|s.log|] == s.log;
    assert s.counts[c] < u.counts[c];
  }

  lemma {:induction false} PastIsReached(f: Forest, missed: set<nat>)
    ensures forall b :: f.ReachedPast(missed, b) ==> f.Reachable(b) && b !in missed
  {
    hide Forest.Standing;
    forall b | f.ReachedPast(missed, b) ensures f.Reachable(b) && b !in missed {
      var p :| f.Path(p, missed) && p[|p| - 1] == b;
      assert f.Path(p, {});
    }
  }

  lemma {:induction false} ReachedIsInside(f: Forest, r: nat)
    requires f.WellFormed() && f.Reachable(r) && f.Kids(r) != []
    ensures f.IsInner(r) && f.Kids(r)[0] < f.nrBlocks
  {
    assert f.Kids(r)[0] in f.Kids(r);
  }

  /** The counts are the same after all runs if and only if no root that is given up and has children is a child
      itself. */
  lemma {:induction false} SameCountsWhen(f: Forest)
    ensures SameCounts(f) <==> Childless(f)
  {
    hide Finishes;
    if Childless(f) {
      forall ss: seq<State>, us: seq<State> | Finishes(f, ss) && Finishes(f, us) ensures LastOf(f, ss).counts == LastOf(f, us).counts {
        CountsWhenChildless(f, ss, us);
      }
    } else {
      var r :| f.Fallen(r) && f.Reachable(r) && f.Kids(r) != [];
      CountsDiffer(f, r);
    }
  }
}
