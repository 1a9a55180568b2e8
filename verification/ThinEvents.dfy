/** The events of src/thin/ir.rs, and what they say to a restore. */
module ThinEvents {
  import opened Wrappers
  import opened Ledger

  // calc_max_entries::<BlockTime>() and calc_max_entries::<u64>()
  const LEAF_MAX: nat := 252

  datatype Event =
    | DefBegin(name: string)
    | DefEnd
    | DeviceBegin(id: nat)
    | DeviceEnd
    | Map(thinBegin: nat, dataBegin: nat, time: nat, len: nat)
    | Ref(name: string)

  datatype MappedSection = Def(name: string) | Dev(id: nat)

  /** The mappings of one <map> tag, one per block. */
  function MapEntries(thinBegin: nat, dataBegin: nat, time: nat, len: nat): seq<Entry> {
    seq(len, i requires 0 <= i => Entry(thinBegin + i, Mapped(dataBegin + i, time)))
  }

  /** What a list of events says: the mappings of every definition and device, with references expanded.
      `repeats` records that a definition or a device was given twice, the later replacing the earlier, and
      `emptyRefs` counts the references in the open section to definitions without mappings. */
  datatype Meaning = Meaning(defs: map<string, seq<Entry>>, devs: map<nat, seq<Entry>>,
                             open: Option<MappedSection>, entries: seq<Entry>, repeats: bool, emptyRefs: nat)

  const NOTHING := Meaning(map[], map[], None, [], false, 0)

  function Interpret(m: Meaning, e: Event): Meaning {
    match e
    case DefBegin(name) => m.(open := Some(Def(name)), entries := [], emptyRefs := 0)
    case DeviceBegin(id) => m.(open := Some(Dev(id)), entries := [], emptyRefs := 0)
    case Map(thinBegin, dataBegin, time, len) => m.(entries := m.entries + MapEntries(thinBegin, dataBegin, time, len))
    case Ref(name) =>
      if name !in m.defs then m
      else m.(entries := m.entries + m.defs[name], emptyRefs := m.emptyRefs + if m.defs[name] == [] then 1 else 0)
    case DefEnd =>
      (match m.open
       case Some(Def(name)) =>
         m.(defs := m.defs[name := m.entries], open := None, entries := [], repeats := m.repeats || name in m.defs)
       case _ => m)
    case DeviceEnd =>
      (match m.open
       case Some(Dev(id)) =>
         m.(devs := m.devs[id := m.entries], open := None, entries := [], repeats := m.repeats || id in m.devs)
       case _ => m)
  }

  function MeaningOf(es: seq<Event>): Meaning {
    if es == [] then NOTHING else Interpret(MeaningOf(es[..|es| - 1]), es[|es| - 1])
  }

  /** An event that fits what has been said: sections do not nest, mappings are inside the data device and in order,
      and only devices refer to definitions, which are known and not empty. */
  predicate Fits(m: Meaning, e: Event, nrDataBlocks: nat) {
    match e
    case DefBegin(_) => m.open.None?
    case DeviceBegin(_) => m.open.None?
    case Map(thinBegin, dataBegin, time, len) =>
      m.open.Some? && m.emptyRefs == 0 && dataBegin + len <= nrDataBlocks
      && StrictlyAscending(m.entries + MapEntries(thinBegin, dataBegin, time, len))
    case Ref(name) =>
      m.open.Some? && m.open.value.Dev? && m.emptyRefs == 0 && name in m.defs && m.defs[name] != []
      && StrictlyAscending(m.entries + m.defs[name])
    case DefEnd => m.open.Some? && m.open.value.Def? && StrictlyAscending(m.entries)
    case DeviceEnd => m.open.Some? && m.open.value.Dev? && StrictlyAscending(m.entries)
  }

  /** What the metadata blocks have to suffice for, in 63rds of a block: an entry takes up two 126ths at most, one in a
      leaf that may be half full and less than one in the levels above; and a section one block more. */
  function Weight(m: Meaning, e: Event): nat {
    match e
    case DefBegin(_) => 0
    case DeviceBegin(_) => 0
    case Map(_, _, _, len) => len
    case Ref(name) => if name in m.defs then |m.defs[name]| else 0
    case DefEnd => 63
    case DeviceEnd => 63
  }

  /** By how much an event may raise a count. */
  function Strain(m: Meaning, e: Event): nat {
    match e
    case DefBegin(_) => 0
    case DeviceBegin(_) => 0
    case Map(_, _, _, len) => len
    case Ref(name) => if name in m.defs then 4 * LEAF_MAX + |m.defs[name]| + 1 else 0
    case DefEnd => LEAF_MAX
    case DeviceEnd => LEAF_MAX
  }

  function TotalWeight(es: seq<Event>): nat {
    if es == [] then 0 else var n := |es| - 1; TotalWeight(es[..n]) + Weight(MeaningOf(es[..n]), es[n])
  }

  function TotalStrain(es: seq<Event>): nat {
    if es == [] then 0 else var n := |es| - 1; TotalStrain(es[..n]) + Strain(MeaningOf(es[..n]), es[n])
  }

  predicate AllFit(es: seq<Event>, nrDataBlocks: nat) {
    es == [] || (var n := |es| - 1; AllFit(es[..n], nrDataBlocks) && Fits(MeaningOf(es[..n]), es[n], nrDataBlocks))
  }

  ghost predicate DefsAscend(m: Meaning) {
    forall name :: name in m.defs ==> StrictlyAscending(m.defs[name])
  }

  /** Definitions that fit are in order. */
  lemma {:induction false} FitIsOrdered(es: seq<Event>, nrDataBlocks: nat)
    requires AllFit(es, nrDataBlocks)
    ensures DefsAscend(MeaningOf(es))
    decreases |es|
  {
    if es != [] {
      FitIsOrdered(es[..|es| - 1], nrDataBlocks);
    }
  }

  lemma {:induction false} PartFits(es: seq<Event>, nrDataBlocks: nat, n: nat)
    requires AllFit(es, nrDataBlocks) && n < |es|
    ensures AllFit(es[..n], nrDataBlocks) && Fits(MeaningOf(es[..n]), es[n], nrDataBlocks)
    ensures TotalWeight(es[..n + 1]) == TotalWeight(es[..n]) + Weight(MeaningOf(es[..n]), es[n]) <= TotalWeight(es)
    ensures TotalStrain(es[..n + 1]) == TotalStrain(es[..n]) + Strain(MeaningOf(es[..n]), es[n]) <= TotalStrain(es)
    decreases |es|
  {
    hide Fits, Weight, Strain, MeaningOf;
    assert es[..n + 1][..n] == es[..n];
    if n < |es| - 1 {
      var k := |es| - 1;
      PartFits(es[..k], nrDataBlocks, n);
      assert es[..k][..n] == es[..n] && es[..k][..n + 1] == es[..n + 1];
    } else {
      assert es[..n + 1] == es;
    }
  }

  /** A definition given twice, the second time without mappings: the first is forgotten. */
  function Twice(): seq<Event> {
    [DefBegin("a"), Map(0, 7, 1, 1), DefEnd, DefBegin("a"), DefEnd]
  }

  lemma {:induction false} DefinedTwice(n: nat)
    requires n <= 5
    ensures MeaningOf(Twice()[..n])
            == if n == 0 then NOTHING
               else if n == 1 then NOTHING.(open := Some(Def("a")))
               else if n == 2 then NOTHING.(open := Some(Def("a")), entries := [Entry(0, Mapped(7, 1))])
               else if n == 3 then NOTHING.(defs := map["a" := [Entry(0, Mapped(7, 1))]])
               else if n == 4 then NOTHING.(defs := map["a" := [Entry(0, Mapped(7, 1))]], open := Some(Def("a")))
               else NOTHING.(defs := map["a" := []], repeats := true)
  {
    NoEvents();
    hide MeaningOf;
    if n > 0 {
      DefinedTwice(n - 1);
      NextEvent(Twice(), n - 1);
      assert MapEntries(0, 7, 1, 1) == [Entry(0, Mapped(7, 1))];
    }
  }

  lemma {:induction false} DefinedTwiceFits(n: nat)
    requires n <= 5
    ensures AllFit(Twice()[..n], 8) && TotalStrain(Twice()[..n]) <= 300 * n
    ensures TotalWeight(Twice()[..n]) == (if n >= 2 then 1 else 0) + (if n >= 3 then 63 else 0) + if n >= 5 then 63 else 0
  {
    if n > 0 {
      DefinedTwiceFits(n - 1);
      DefinedTwice(n - 1);
      assert Twice()[..n][..n - 1] == Twice()[..n - 1] && Twice()[..n][n - 1] == Twice()[n - 1];
      hide MeaningOf;
      assert MapEntries(0, 7, 1, 1) == [Entry(0, Mapped(7, 1))];
    }
  }

  lemma NoEvents()
    ensures MeaningOf([]) == NOTHING
  {
  }

  lemma {:induction false} NextEvent(es: seq<Event>, n: nat)
    requires n < |es|
    ensures MeaningOf(es[..n + 1]) == Interpret(MeaningOf(es[..n]), es[n])
  {
    assert es[..n + 1][..n] == es[..n];
  }

  // ---- what they say, without going through them one after the other

  predicate Begins(e: Event) {
    e.DefBegin? || e.DeviceBegin?
  }

  /** What event b begins. */
  function SectionOf(b: Event): MappedSection
    requires Begins(b)
  {
    if b.DefBegin? then Def(b.name) else Dev(b.id)
  }

  /** Event j begins a section that is open before event n. */
  ghost predicate OpenSince(es: seq<Event>, j: nat, n: nat) {
    j < n <= |es| && Begins(es[j]) && forall i :: j < i < n ==> es[i].Map? || es[i].Ref?
  }

  /** Events j and e begin and end a section. */
  ghost predicate Section(es: seq<Event>, j: nat, e: nat) {
    j < e < |es| && OpenSince(es, j, e) && es[e] == if es[j].DefBegin? then DefEnd else DeviceEnd
  }

  /** Of the sections that begin so, the last before event n. */
  ghost predicate LastSection(es: seq<Event>, n: nat, b: Event, j: nat, e: nat) {
    j < e < n <= |es| && Section(es, j, e) && es[j] == b
    && forall j': nat, e': nat :: e < e' < n && Section(es, j', e') ==> es[j'] != b
  }

  /** The event maps block k to v: block i of a <map> tag goes to the i-th block of its data. */
  predicate Maps(e: Event, k: nat, v: Val) {
    e.Map? && e.thinBegin <= k < e.thinBegin + e.len && v == Mapped(e.dataBegin + (k - e.thinBegin), e.time)
  }

  /** Before event n the definition, as last given, maps block k to v. */
  ghost predicate DefMaps(es: seq<Event>, n: nat, name: string, k: nat, v: Val) {
    exists j: nat, e: nat, i: nat :: LastSection(es, n, DefBegin(name), j, e) && j < i < e && Maps(es[i], k, v)
  }

  /** Event i maps block k to v, itself or through the definition it refers to. */
  ghost predicate Gives(es: seq<Event>, i: nat, k: nat, v: Val)
    requires i < |es|
  {
    Maps(es[i], k, v) || (es[i].Ref? && DefMaps(es, i, es[i].name, k, v))
  }

  /** The device, as last given, maps block k to v. */
  ghost predicate DeviceMaps(es: seq<Event>, id: nat, k: nat, v: Val) {
    exists j: nat, e: nat, i: nat :: LastSection(es, |es|, DeviceBegin(id), j, e) && j < i < e && Gives(es, i, k, v)
  }

  ghost predicate DeviceGiven(es: seq<Event>, id: nat) {
    exists j: nat, e: nat :: Section(es, j, e) && es[j] == DeviceBegin(id)
  }

  /** Two sections begin alike: a definition or a device is given twice. */
  ghost predicate GivenTwice(es: seq<Event>) {
    exists j: nat, e: nat, j': nat, e': nat :: Section(es, j, e) && Section(es, j', e') && e < e' && es[j] == es[j']
  }

  /** The event may come now, whatever the keys: sections do not nest, and only devices refer to definitions. */
  predicate Follows(m: Meaning, e: Event) {
    match e
    case DefBegin(_) => m.open.None?
    case DeviceBegin(_) => m.open.None?
    case Map(_, _, _, _) => m.open.Some?
    case Ref(name) => m.open.Some? && m.open.value.Dev? && name in m.defs
    case DefEnd => m.open.Some? && m.open.value.Def?
    case DeviceEnd => m.open.Some? && m.open.value.Dev?
  }

  ghost predicate Orderly(es: seq<Event>) {
    forall i :: 0 <= i < |es| ==> Follows(MeaningOf(es[..i]), es[i])
  }

  lemma {:induction false} OpenSays(es: seq<Event>, n: nat) returns (j: nat)
    requires Orderly(es) && n <= |es|
    ensures var m := MeaningOf(es[..n]);
            if m.open.Some? then OpenSince(es, j, n) && SectionOf(es[j]) == m.open.value && es[j] == BeginOf(m.open.value)
            else forall i :: !OpenSince(es, i, n)
  {
    hide MeaningOf;
    j := 0;
    if n == 0 {
      NoEvents();
    } else {
      var i := OpenSays(es, n - 1);
      NextEvent(es, n - 1);
      assert Follows(MeaningOf(es[..n - 1]), es[n - 1]);
      j := if Begins(es[n - 1]) then n - 1 else i;
    }
  }

  function BeginOf(s: MappedSection): Event {
    match s
    case Def(name) => DefBegin(name)
    case Dev(id) => DeviceBegin(id)
  }

  lemma OpenOnce(es: seq<Event>, i: nat, j: nat, n: nat)
    requires OpenSince(es, i, n) && OpenSince(es, j, n)
    ensures i == j
  {
  }

  /** What is kept of the section that begins so. */
  function Held(m: Meaning, b: Event): Option<seq<Entry>>
    requires Begins(b)
  {
    if b.DefBegin? then (if b.name in m.defs then Some(m.defs[b.name]) else None)
    else (if b.id in m.devs then Some(m.devs[b.id]) else None)
  }

  lemma {:induction false} HeldNext(m: Meaning, e: Event, b: Event)
    requires Follows(m, e) && Begins(b)
    ensures var here := (e.DefEnd? || e.DeviceEnd?) && BeginOf(m.open.value) == b;
            && Held(Interpret(m, e), b) == (if here then Some(m.entries) else Held(m, b))
            && Interpret(m, e).repeats == (m.repeats || ((e.DefEnd? || e.DeviceEnd?) && Held(m, BeginOf(m.open.value)).Some?))
  {
  }

  /** An event that ends no section that begins so leaves the last of them the last. */
  lemma {:induction false} LastStays(es: seq<Event>, n: nat, b: Event, j: nat, e: nat)
    requires 0 < n <= |es| && forall i: nat :: Section(es, i, n - 1) ==> es[i] != b
    ensures LastSection(es, n, b, j, e) <==> LastSection(es, n - 1, b, j, e)
  {
    hide OpenSince;
  }

  lemma {:induction false} LastHere(es: seq<Event>, n: nat, b: Event, j: nat)
    requires 0 < n <= |es| && Section(es, j, n - 1) && es[j] == b
    ensures LastSection(es, n, b, j, n - 1)
  {
    hide OpenSince;
  }

  lemma {:induction false} LastOnce(es: seq<Event>, n: nat, b: Event, j: nat, e: nat, j': nat, e': nat)
    requires LastSection(es, n, b, j, e) && LastSection(es, n, b, j', e')
    ensures j == j' && e == e'
  {
    hide OpenSince;
    if e == e' {
      OpenOnce(es, j, j', e);
    }
  }

  /** What is kept of a section is what had been gathered when it last ended. */
  lemma {:induction false} HeldSays(es: seq<Event>, n: nat, b: Event) returns (j: nat, e: nat)
    requires Orderly(es) && n <= |es| && Begins(b)
    ensures var held := Held(MeaningOf(es[..n]), b);
            if held.Some? then LastSection(es, n, b, j, e) && held.value == MeaningOf(es[..e]).entries
            else forall j', e' :: !LastSection(es, n, b, j', e')
  {
    hide MeaningOf, Interpret, LastSection, OpenSince;
    j, e := 0, 0;
    if n == 0 {
      NoEvents();
      NoneLast(es, b);
    } else {
      var m, ev := MeaningOf(es[..n - 1]), es[n - 1];
      NextEvent(es, n - 1);
      assert Follows(m, ev);
      HeldNext(m, ev, b);
      var i := OpenSays(es, n - 1);
      if (ev.DefEnd? || ev.DeviceEnd?) && BeginOf(m.open.value) == b {
        EndsSection(es, i, n - 1);
        LastHere(es, n, b, i);
        j, e := i, n - 1;
      } else {
        forall k: nat | Section(es, k, n - 1) ensures es[k] != b {
          if m.open.Some? {
            OpenOnce(es, i, k, n - 1);
          }
        }
        j, e := HeldSays(es, n - 1, b);
        forall j', e' ensures LastSection(es, n, b, j', e') <==> LastSection(es, n - 1, b, j', e') {
          LastStays(es, n, b, j', e');
        }
      }
    }
  }

  lemma NoneLast(es: seq<Event>, b: Event)
    ensures forall j, e :: !LastSection(es, 0, b, j, e)
  {
  }

  lemma {:induction false} MapSays(e: Event, k: nat, v: Val)
    requires e.Map?
    ensures Entry(k, v) in MapEntries(e.thinBegin, e.dataBegin, e.time, e.len) <==> Maps(e, k, v)
  {
    var xs := MapEntries(e.thinBegin, e.dataBegin, e.time, e.len);
    if Maps(e, k, v) {
      assert xs[k - e.thinBegin] == Entry(k, v);
    }
  }

  /** An open section has the mappings that its events give. */
  lemma {:induction false} EntriesSay(es: seq<Event>, n: nat, j: nat, k: nat, v: Val)
    requires Orderly(es) && OpenSince(es, j, n)
    ensures Entry(k, v) in MeaningOf(es[..n]).entries <==> exists i :: j < i < n && Gives(es, i, k, v)
    decreases n
  {
    hide MeaningOf, DefMaps;
    var m, e := MeaningOf(es[..n - 1]), es[n - 1];
    NextEvent(es, n - 1);
    assert Follows(m, e);
    if n - 1 > j {
      EntriesSay(es, n - 1, j, k, v);
      if e.Map? {
        MapSays(e, k, v);
      } else {
        DefSays(es, n - 1, e.name, k, v);
      }
      assert Entry(k, v) in MeaningOf(es[..n]).entries <==> Entry(k, v) in m.entries || Gives(es, n - 1, k, v);
    }
  }

  /** No definition refers to another. */
  lemma {:induction false} NoRefs(es: seq<Event>, j: nat, n: nat, i: nat)
    requires Orderly(es) && OpenSince(es, j, n) && es[j].DefBegin? && j < i < n
    ensures es[i].Map?
  {
    hide MeaningOf;
    var k := OpenSays(es, i);
    assert OpenSince(es, j, i);
    assert Follows(MeaningOf(es[..i]), es[i]);
    if MeaningOf(es[..i]).open.Some? {
      OpenOnce(es, j, k, i);
    }
  }

  lemma {:induction false} DefSays(es: seq<Event>, n: nat, name: string, k: nat, v: Val)
    requires Orderly(es) && n <= |es| && name in MeaningOf(es[..n]).defs
    ensures Entry(k, v) in MeaningOf(es[..n]).defs[name] <==> DefMaps(es, n, name, k, v)
    decreases n, 0
  {
    hide MeaningOf, OpenSince;
    var j, e := HeldSays(es, n, DefBegin(name));
    LastIs(es, n, DefBegin(name), j, e);
    EntriesSay(es, e, j, k, v);
    forall i | j < i < e ensures Gives(es, i, k, v) <==> Maps(es[i], k, v) {
      NoRefs(es, j, e, i);
    }
    if DefMaps(es, n, name, k, v) {
      var j': nat, e': nat, i: nat :| LastSection(es, n, DefBegin(name), j', e') && j' < i < e' && Maps(es[i], k, v);
      LastOnce(es, n, DefBegin(name), j, e, j', e');
    }
  }

  lemma LastIs(es: seq<Event>, n: nat, b: Event, j: nat, e: nat)
    requires LastSection(es, n, b, j, e)
    ensures OpenSince(es, j, e) && e < n && Section(es, j, e) && es[j] == b
  {
  }

  /** The devices are those given, and each maps what its events, as last given, say. */
  lemma {:induction false} DevicesSay(es: seq<Event>, id: nat)
    requires Orderly(es)
    ensures id in MeaningOf(es).devs <==> DeviceGiven(es, id)
    ensures id in MeaningOf(es).devs ==> forall k, v :: Entry(k, v) in MeaningOf(es).devs[id] <==> DeviceMaps(es, id, k, v)
  {
    hide MeaningOf, Gives, OpenSince;
    assert es[..|es|] == es;
    var j, e := HeldSays(es, |es|, DeviceBegin(id));
    if id in MeaningOf(es).devs {
      LastIs(es, |es|, DeviceBegin(id), j, e);
      forall k, v ensures Entry(k, v) in MeaningOf(es).devs[id] <==> DeviceMaps(es, id, k, v) {
        EntriesSay(es, e, j, k, v);
        if DeviceMaps(es, id, k, v) {
          var j': nat, e': nat, i: nat :| LastSection(es, |es|, DeviceBegin(id), j', e') && j' < i < e' && Gives(es, i, k, v);
          LastOnce(es, |es|, DeviceBegin(id), j, e, j', e');
        }
      }
    } else if DeviceGiven(es, id) {
      var j': nat, e': nat :| Section(es, j', e') && es[j'] == DeviceBegin(id);
      SomeLast(es, |es|, DeviceBegin(id), j', e');
    }
  }

  /** If there is a section that begins so, there is a last one. */
  lemma {:induction false} SomeLast(es: seq<Event>, n: nat, b: Event, j: nat, e: nat)
    requires Section(es, j, e) && es[j] == b && e < n <= |es|
    ensures exists j', e' :: LastSection(es, n, b, j', e')
    decreases n
  {
    hide OpenSince;
    if i: nat :| Section(es, i, n - 1) && es[i] == b {
      LastHere(es, n, b, i);
    } else {
      assert e < n - 1;
      SomeLast(es, n - 1, b, j, e);
      var j', e' :| LastSection(es, n - 1, b, j', e');
      LastStays(es, n, b, j', e');
    }
  }

  /** A definition or a device replaces one of its kind exactly when it is given twice. */
  lemma {:induction false} RepeatsSay(es: seq<Event>, n: nat)
    requires Orderly(es) && n <= |es|
    ensures MeaningOf(es[..n]).repeats <==>
            exists j: nat, e: nat, j': nat, e': nat :: Section(es, j, e) && Section(es, j', e') && e < e' < n && es[j] == es[j']
  {
    hide MeaningOf, Interpret, LastSection, OpenSince;
    if n == 0 {
      NoEvents();
    } else {
      var m, ev := MeaningOf(es[..n - 1]), es[n - 1];
      RepeatsSay(es, n - 1);
      NextEvent(es, n - 1);
      assert Follows(m, ev);
      HeldNext(m, ev, DefBegin(""));
      var i := OpenSays(es, n - 1);
      if ev.DefEnd? || ev.DeviceEnd? {
        var b := BeginOf(m.open.value);
        EndsSection(es, i, n - 1);
        var j, e := HeldSays(es, n - 1, b);
        if Held(m, b).Some? {
          LastIs(es, n - 1, b, j, e);
        }
        forall j: nat, e: nat, j': nat | Section(es, j, e) && Section(es, j', n - 1) && e < n - 1 && es[j] == es[j']
          ensures Held(m, b).Some?
        {
          SectionOpens(es, j', n - 1);
          OpenOnce(es, i, j', n - 1);
          SomeLast(es, n - 1, b, j, e);
        }
      } else {
        NoSection(es, n - 1);
      }
    }
  }

  lemma EndsSection(es: seq<Event>, j: nat, e: nat)
    requires e < |es| && OpenSince(es, j, e) && (es[e].DefEnd? <==> es[j].DefBegin?) && (es[e].DefEnd? || es[e].DeviceEnd?)
    ensures Section(es, j, e)
  {
  }

  lemma SectionOpens(es: seq<Event>, j: nat, e: nat)
    requires Section(es, j, e)
    ensures OpenSince(es, j, e)
  {
  }

  lemma NoSection(es: seq<Event>, e: nat)
    requires e < |es| && !es[e].DefEnd? && !es[e].DeviceEnd?
    ensures forall j: nat :: !Section(es, j, e)
  {
  }

  lemma {:induction false} TwiceIsTwice()
    ensures GivenTwice(Twice())
  {
    assert Section(Twice(), 0, 2) && Section(Twice(), 3, 4);
  }

  /** A device of one <map> tag: block i of the tag goes to the i-th block of its data, and nothing else is mapped. */
  lemma {:induction false} OneTag(id: nat, thinBegin: nat, dataBegin: nat, time: nat, len: nat) returns (entries: seq<Entry>)
    ensures MeaningOf([DeviceBegin(id), Map(thinBegin, dataBegin, time, len), DeviceEnd]).devs == map[id := entries]
    ensures |entries| == len && forall i :: 0 <= i < len ==> entries[i] == Entry(thinBegin + i, Mapped(dataBegin + i, time))
  {
    var es := [DeviceBegin(id), Map(thinBegin, dataBegin, time, len), DeviceEnd];
    entries := MapEntries(thinBegin, dataBegin, time, len);
    hide MeaningOf, MapEntries;
    NoEvents();
    assert es[..0] == [] && es[..3] == es;
    NextEvent(es, 0);
    NextEvent(es, 1);
    NextEvent(es, 2);
    assert [] + entries == entries;
    MapEntriesAre(thinBegin, dataBegin, time, len);
  }

  lemma MapEntriesAre(thinBegin: nat, dataBegin: nat, time: nat, len: nat)
    ensures var es := MapEntries(thinBegin, dataBegin, time, len);
            |es| == len && forall i :: 0 <= i < len ==> es[i] == Entry(thinBegin + i, Mapped(dataBegin + i, time))
  {
  }

  /** The mappings of a <map> tag come behind those there were. */
  ghost predicate AddsTag(before: seq<Entry>, after: seq<Entry>, thinBegin: nat, dataBegin: nat, time: nat, len: nat) {
    && before <= after && |after| == |before| + len
    && forall i :: |before| <= i < |after| ==>
         after[i] == Entry(thinBegin + (i - |before|), Mapped(dataBegin + (i - |before|), time))
  }
}
