/** The mapping and dirty arrays of a restored cache: src/cache/restore.rs.  Mappings arrive by ascending cache
    block, so the array of mappings can be built as they come; the dirty bits of a version 2 cache are collected
    in a word, which is pushed when a block of another word comes. */
module CacheRestorers {
  import opened Wrappers
  import opened Sequences
  import opened BitWords
  import opened ArrayBuilders
  import opened Eras
  import DirtyFlags

  type Mapping = DirtyFlags.Mapping

  const BLANK: Mapping := DirtyFlags.Mapping(0, false, false, 0)
  const MAX_ENTRIES: nat := DirtyFlags.MAX_ENTRIES // for words as for mappings: both have eight bytes

  /** A mapping event. */
  datatype Map = Map(cblock: nat, oblock: nat, dirty: bool)

  datatype Section = NoSection | Superblock | Finalized

  /** The words pushed and the word being filled, number `index`, have exactly these bits set. */
  ghost predicate Holds(pushed: seq<word>, index: nat, buffer: word, bits: set<nat>) {
    && |pushed| <= index
    && forall b: nat :: b in bits <==> Marked(pushed, b) || (b / 64 == index && buffer[b % 64])
  }

  lemma PushWord(pushed: seq<word>, index: nat, buffer: word, bits: set<nat>, next: nat)
    requires Holds(pushed, index, buffer, bits) && index < next
    ensures Holds(pushed + Fill(ZERO, index - |pushed|) + [buffer], next, ZERO, bits)
  {
    var words := pushed + Fill(ZERO, index - |pushed|) + [buffer];
    forall b: nat ensures b in bits <==> Marked(words, b) || (b / 64 == next && ZERO[b % 64]) {
      if |pushed| <= b / 64 < index {
        assert words[b / 64] == ZERO;
      }
    }
  }

  lemma SetInWord(pushed: seq<word>, index: nat, buffer: word, bits: set<nat>, c: nat)
    requires Holds(pushed, index, buffer, bits) && c / 64 == index
    ensures Holds(pushed, index, Set(buffer, c % 64), bits + {c})
  {
    forall b: nat | b / 64 == index ensures b % 64 == c % 64 <==> b == c {
      assert b == 64 * (b / 64) + b % 64 && c == 64 * (c / 64) + c % 64;
    }
  }

  /** The finished array: the words pushed, and then zeros. */
  lemma Finished(pushed: seq<word>, words: seq<word>, index: nat, bits: set<nat>)
    requires Holds(pushed, index, ZERO, bits) && pushed <= words
    requires forall k :: |pushed| <= k < |words| ==> words[k] == ZERO
    ensures forall b: nat :: b in bits <==> Marked(words, b)
  {
    forall b: nat ensures b in bits <==> Marked(words, b) {
      if |pushed| <= b / 64 < |words| {
        assert words[b / 64] == ZERO;
      }
    }
  }

  ghost predicate MappingOk(b: ArrayBlockBuilder<Mapping>, nr: nat)
    reads b
  {
    b.Valid() && b.nrEntries == nr && b.entriesPerBlock == MAX_ENTRIES && b.blank == BLANK && |b.Contents()| <= nr
  }

  /** The dirty blocks are those of the words pushed and of the word being filled, which is no later than the last
      mapping. */
  ghost predicate DirtyOk(b: ArrayBlockBuilder<word>, nr: nat, bits: (nat, word), dirty: set<nat>, next: nat)
    reads b
  {
    && b.Valid() && b.nrEntries == DivUp(nr, 64) && b.entriesPerBlock == MAX_ENTRIES && b.blank == ZERO
    && Holds(b.Contents(), bits.0, bits.1, dirty) && (bits.0 == 0 || 64 * bits.0 < next) && next <= nr
  }

  class Restorer {
    const version: nat
    var sb: Option<nat> // the number of cache blocks
    var mappingBuilder: Option<ArrayBlockBuilder<Mapping>>
    var dirtyBuilder: Option<ArrayBlockBuilder<word>>
    var mappingArray: Option<seq<seq<Mapping>>>
    var dirtyArray: Option<seq<seq<word>>>
    var dirtyBits: (nat, word)
    var section: Section
    ghost var dirty: set<nat> // the dirty blocks of version 2
    ghost var repr: set<object>

    ghost predicate Valid()
      reads this, repr
    {
      && this in repr && version >= 1
      && (section == NoSection ==> dirtyBits == (0, ZERO) && dirty == {})
      && (if section == Superblock then Open() else sb.None?)
    }

    ghost predicate Open()
      reads this, repr
    {
      && this in repr && sb.Some? && mappingBuilder.Some?
      && var mb := mappingBuilder.value;
         && mb in repr && mb as object != this && MappingOk(mb, sb.value)
         && (version > 1 ==>
               && dirtyBuilder.Some? && dirtyBuilder.value in repr && dirtyBuilder.value as object != mb
               && DirtyOk(dirtyBuilder.value, sb.value, dirtyBits, dirty, |mb.Contents()|))
    }

    /** The mappings so far. */
    ghost function Mapped(): map<nat, Mapping>
      reads this, repr
      requires Valid() && section == Superblock
    {
      mappingBuilder.value.pushed
    }

    /** The first cache block that may be mapped next. */
    ghost function NextBlock(): nat
      reads this, repr
      requires Valid() && section == Superblock
    {
      |mappingBuilder.value.Contents()|
    }

    constructor (version: nat)
      requires version >= 1
      ensures Valid() && fresh(repr) && section == NoSection && this.version == version
    {
      this.version, sb, mappingBuilder, dirtyBuilder, mappingArray, dirtyArray := version, None, None, None, None, None;
      dirtyBits, section, dirty, repr := (0, ZERO), NoSection, {}, {this};
    }

    method SuperblockBegin(nrCacheBlocks: nat) returns (ok: bool)
      requires Valid()
      modifies this
      ensures Valid() && (ok <==> old(section) == NoSection) && fresh(repr - old(repr))
      ensures ok ==> section == Superblock && sb == Some(nrCacheBlocks) && Mapped() == map[] && NextBlock() == 0 && dirty == {}
    {
      hide MappingOk, DirtyOk, ArrayBlockBuilder.Contents, ArrayBlockBuilder.Valid, ArrayBlockBuilder.Overrides, AllFull, Flatten, DivUp,
           BlockSize, Holds;
      if section != NoSection {
        return false;
      }
      var mb := NewMappings(nrCacheBlocks);
      if version > 1 {
        var db := NewDirty(nrCacheBlocks);
        sb, section, mappingBuilder, dirtyBuilder, repr := Some(nrCacheBlocks), Superblock, Some(mb), Some(db), repr + {mb, db};
      } else {
        sb, section, mappingBuilder, repr := Some(nrCacheBlocks), Superblock, Some(mb), repr + {mb};
      }
      ok := true;
    }

    method NewMappings(nr: nat) returns (mb: ArrayBlockBuilder<Mapping>)
      ensures fresh(mb) && MappingOk(mb, nr) && mb.Contents() == [] && mb.pushed == map[]
    {
      mb := new ArrayBlockBuilder<Mapping>(nr, MAX_ENTRIES, BLANK);
    }

    method NewDirty(nr: nat) returns (db: ArrayBlockBuilder<word>)
      ensures fresh(db) && DirtyOk(db, nr, (0, ZERO), {}, 0)
    {
      db := new ArrayBlockBuilder<word>(DivUp(nr, 64), MAX_ENTRIES, ZERO);
      NoWords();
    }

    /** Marks a block in the word being filled, or, if it belongs to another, pushes that word and begins the other. */
    method SetDirty(c: nat) returns (ok: bool)
      requires Valid() && section == Superblock && version > 1
      modifies `dirtyBits, `dirty, dirtyBuilder.value
      ensures ok <==> c / 64 == old(dirtyBits.0) || old(dirtyBits.0) < DivUp(sb.value, 64)
      ensures ok && c / 64 >= old(dirtyBits.0) ==>
                && dirty == old(dirty) + {c} && dirtyBits.0 == c / 64 && dirtyBuilder.value.Valid()
                && Holds(dirtyBuilder.value.Contents(), dirtyBits.0, dirtyBits.1, dirty)
    {
      hide ArrayBlockBuilder.Valid, ArrayBlockBuilder.Contents, Set;
      var index := c / 64;
      var db := dirtyBuilder.value;
      ghost var pushed := db.Contents();
      if index == dirtyBits.0 {
        SetInWord(pushed, index, dirtyBits.1, dirty, c);
        dirtyBits, dirty, ok := (index, Set(dirtyBits.1, c % 64)), dirty + {c}, true;
      } else {
        ok := db.PushValue(dirtyBits.0, dirtyBits.1);
        if ok {
          if index > dirtyBits.0 {
            PushWord(pushed, dirtyBits.0, dirtyBits.1, dirty, index);
            SetInWord(db.Contents(), index, ZERO, dirty, c);
          }
          dirtyBits, dirty := (index, Set(ZERO, c % 64)), dirty + {c};
        }
      }
    }

    /** Mappings are accepted in ascending order of their cache blocks, and no others. */
    method Mapping(m: Map) returns (ok: bool)
      requires Valid() && section == Superblock
      modifies this, repr
      ensures section == old(section) && sb == old(sb) && repr == old(repr)
      ensures ok <==> old(NextBlock()) <= m.cblock < sb.value
      ensures ok ==> Valid() && NextBlock() == m.cblock + 1
      ensures ok ==> Mapped() == old(Mapped())[m.cblock := DirtyFlags.Mapping(m.oblock, true, m.dirty && version == 1, 0)]
      ensures ok ==> dirty == old(dirty) + if m.dirty && version > 1 then {m.cblock} else {}
    {
      hide ArrayBlockBuilder.Valid, ArrayBlockBuilder.Contents, Holds;
      ghost var next := NextBlock();
      var entry := DirtyFlags.Mapping(m.oblock, true, false, 0);
      var mb := mappingBuilder.value;
      if m.dirty {
        if version == 1 {
          entry := entry.(dirty := true);
        } else {
          WordInside(dirtyBits.0, sb.value, next);
          ok := SetDirty(m.cblock);
          if !ok {
            return;
          }
        }
      }
      ok := mb.PushValue(m.cblock, entry);
    }

    /** Builds the arrays.  For version 2 that fails on a cache without blocks, whose dirty array has no room even
        for the word being filled. */
    method Finalize() returns (ok: bool)
      requires Valid()
      modifies this, repr
      ensures ok <==> old(section) == Superblock && (version == 1 || old(sb).value > 0)
      ensures ok ==> section == Finalized && mappingArray.Some? && (version > 1 ==> dirtyArray.Some?)
      ensures ok ==> MappingsBuilt(mappingArray.value, old(sb).value, old(if section == Superblock then Mapped() else map[]))
      ensures ok && version > 1 ==> DirtyBuilt(dirtyArray.value, old(sb).value, old(dirty))
    {
      if sb.None? {
        return false;
      }
      hide DirtyOk, MappingOk, MappingsBuilt, DirtyBuilt, ArrayBlockBuilder.Contents, ArrayBlockBuilder.Valid;
      var nr := sb.value;
      sb := None;
      ghost var next := |mappingBuilder.value.Contents()|;
      var mapping := FinalizeMapping(mappingBuilder.value, nr);
      mappingArray, mappingBuilder := Some(mapping), None;
      ok := true;
      if version > 1 {
        ok := FinishDirty(nr, next);
        if !ok {
          return;
        }
      }
      section := Finalized;
    }

    method FinishDirty(nr: nat, ghost next: nat) returns (ok: bool)
      requires dirtyBuilder.Some? && DirtyOk(dirtyBuilder.value, nr, dirtyBits, dirty, next)
      modifies this`dirtyArray, this`dirtyBuilder, dirtyBuilder.value
      ensures ok <==> nr > 0
      ensures ok ==> dirtyArray.Some? && DirtyBuilt(dirtyArray.value, nr, dirty)
    {
      hide DirtyOk, DirtyBuilt;
      var words;
      ok, words := FinalizeDirty(dirtyBuilder.value, nr, next);
      if ok {
        dirtyArray, dirtyBuilder := Some(words), None;
      }
    }

    method FinalizeMapping(mb: ArrayBlockBuilder<Mapping>, nr: nat) returns (blocks: seq<seq<Mapping>>)
      requires MappingOk(mb, nr)
      modifies mb
      ensures MappingsBuilt(blocks, nr, old(mb.pushed))
    {
      blocks := mb.Complete();
    }

    method FinalizeDirty(db: ArrayBlockBuilder<word>, nr: nat, ghost next: nat)
      returns (ok: bool, words: seq<seq<word>>)
      requires DirtyOk(db, nr, dirtyBits, dirty, next)
      modifies db
      ensures ok <==> nr > 0
      ensures ok ==> DirtyBuilt(words, nr, dirty)
    {
      ghost var pushed := db.Contents();
      WordInside(dirtyBits.0, nr, next);
      ok := db.PushValue(dirtyBits.0, dirtyBits.1);
      words := [];
      if ok {
        PushWord(pushed, dirtyBits.0, dirtyBits.1, dirty, dirtyBits.0 + 1);
        ghost var now := db.Contents();
        words := db.Complete();
        Finished(now, Flatten(words), dirtyBits.0 + 1, dirty);
      }
    }
  }

  lemma NoWords()
    ensures Holds([], 0, ZERO, {})
  {
  }

  /** The word being filled is in the array, unless that has none. */
  lemma WordInside(index: nat, nr: nat, next: nat)
    requires (index == 0 || 64 * index < next) && next <= nr
    ensures index < DivUp(nr, 64) <==> nr > 0
  {
  }

  ghost predicate MappingsBuilt(blocks: seq<seq<Mapping>>, nr: nat, mapped: map<nat, Mapping>) {
    && AllFull(blocks, nr, MAX_ENTRIES) && |blocks| == DivUp(nr, MAX_ENTRIES) && |Flatten(blocks)| == nr
    && forall k :: 0 <= k < nr ==> Flatten(blocks)[k] == if k in mapped then mapped[k] else BLANK
  }

  ghost predicate DirtyBuilt(blocks: seq<seq<word>>, nr: nat, dirty: set<nat>) {
    && AllFull(blocks, DivUp(nr, 64), MAX_ENTRIES) && |Flatten(blocks)| == DivUp(nr, 64)
    && forall b: nat :: b in dirty <==> b / 64 < |Flatten(blocks)| && Flatten(blocks)[b / 64][b % 64]
  }

  ghost predicate InOrder(maps: seq<Map>, nr: nat) {
    && (forall i :: 0 <= i < |maps| ==> maps[i].cblock < nr)
    && forall i, j :: 0 <= i < j < |maps| ==> maps[i].cblock < maps[j].cblock
  }

  /** Each mapping's entry is valid and has its origin block, and its dirty flag if there is no dirty array; the other
      entries are blank. */
  ghost predicate EntriesBuilt(blocks: seq<seq<Mapping>>, nr: nat, maps: seq<Map>, version: nat) {
    && AllFull(blocks, nr, MAX_ENTRIES) && |blocks| == DivUp(nr, MAX_ENTRIES) && |Flatten(blocks)| == nr
    && (forall i :: 0 <= i < |maps| && maps[i].cblock < nr ==>
          Flatten(blocks)[maps[i].cblock] == DirtyFlags.Mapping(maps[i].oblock, true, maps[i].dirty && version == 1, 0))
    && forall k: nat :: k < nr && (forall i :: 0 <= i < |maps| ==> maps[i].cblock != k)
         ==> Flatten(blocks)[k] == DirtyFlags.Mapping(0, false, false, 0)
  }

  /** The entries gathered are those of the mappings so far. */
  ghost predicate Gathered(mapped: map<nat, Mapping>, maps: seq<Map>, version: nat) {
    && (forall i :: 0 <= i < |maps| ==>
          maps[i].cblock in mapped
          && mapped[maps[i].cblock] == DirtyFlags.Mapping(maps[i].oblock, true, maps[i].dirty && version == 1, 0))
    && forall k :: k in mapped ==> exists i :: 0 <= i < |maps| && maps[i].cblock == k
  }

  lemma GatherOne(mapped: map<nat, Mapping>, maps: seq<Map>, version: nat, i: nat, nr: nat)
    requires i < |maps| && Gathered(mapped, maps[..i], version) && InOrder(maps[..i + 1], nr)
    ensures var m := maps[i];
            Gathered(mapped[m.cblock := DirtyFlags.Mapping(m.oblock, true, m.dirty && version == 1, 0)], maps[..i + 1], version)
  {
    var m := maps[i];
    var mapped' := mapped[m.cblock := DirtyFlags.Mapping(m.oblock, true, m.dirty && version == 1, 0)];
    assert maps[..i + 1] == maps[..i] + [m];
    forall k | 0 <= k < i ensures maps[..i][k].cblock != m.cblock {
      assert maps[..i + 1][k] == maps[..i][k] && maps[..i + 1][i] == m;
    }
    var maps' := maps[..i + 1];
    forall k | k in mapped' ensures exists j :: 0 <= j < |maps'| && maps'[j].cblock == k {
      if k == m.cblock {
        assert maps'[i] == m;
      } else {
        var j :| 0 <= j < i && maps[..i][j].cblock == k;
        assert maps'[j] == maps[..i][j];
      }
    }
  }

  lemma BuiltAsGiven(blocks: seq<seq<Mapping>>, nr: nat, mapped: map<nat, Mapping>, maps: seq<Map>, version: nat)
    requires MappingsBuilt(blocks, nr, mapped) && Gathered(mapped, maps, version)
    ensures EntriesBuilt(blocks, nr, maps, version)
  {
    hide AllFull, Flatten, DivUp;
  }

  ghost function DirtySet(maps: seq<Map>): set<nat> {
    set i | 0 <= i < |maps| && maps[i].dirty :: maps[i].cblock
  }

  /** A whole restore.  It succeeds exactly when the mappings are in order and inside the cache, which for version 2
      has at least one block; then the mapping array holds the mappings and the default elsewhere, and the words of
      the dirty array decode to exactly the dirty cache blocks. */
  method Restore(version: nat, nrCacheBlocks: nat, maps: seq<Map>)
    returns (r: Option<seq<seq<Mapping>>>, dirtyWords: seq<seq<word>>)
    requires version >= 1
    ensures r.Some? <==> InOrder(maps, nrCacheBlocks) && (version == 1 || nrCacheBlocks > 0)
    ensures r.Some? ==> EntriesBuilt(r.value, nrCacheBlocks, maps, version)
    ensures r.Some? && version > 1 ==> DirtyBuilt(dirtyWords, nrCacheBlocks, DirtySet(maps))
  {
    hide MappingsBuilt, DirtyBuilt, EntriesBuilt, Gathered, Restorer.Valid, InOrder;
    dirtyWords := [];
    var restorer := new Restorer(version);
    var ok := restorer.SuperblockBegin(nrCacheBlocks);
    assert InOrder([], nrCacheBlocks) && DirtySet([]) == {} && Gathered(map[], [], version) by { NoMaps(nrCacheBlocks, version); }
    assert maps[..0] == [];
    for i := 0 to |maps|
      invariant restorer.Valid() && fresh(restorer.repr) && restorer.section == Superblock
      invariant restorer.version == version && restorer.sb == Some(nrCacheBlocks)
      invariant Gathered(restorer.Mapped(), maps[..i], version) && InOrder(maps[..i], nrCacheBlocks)
      invariant restorer.NextBlock() == if i == 0 then 0 else maps[i - 1].cblock + 1
      invariant version > 1 ==> restorer.dirty == DirtySet(maps[..i])
    {
      assert maps[..i + 1][..i] == maps[..i];
      OneMore(maps, i, nrCacheBlocks);
      ghost var mapped := restorer.Mapped();
      ok := restorer.Mapping(maps[i]);
      if !ok {
        return None, dirtyWords;
      }
      GatherOne(mapped, maps, version, i, nrCacheBlocks);
    }
    assert maps[..|maps|] == maps;
    ghost var mapped := restorer.Mapped();
    ok := restorer.Finalize();
    if !ok {
      return None, dirtyWords;
    }
    BuiltAsGiven(restorer.mappingArray.value, nrCacheBlocks, mapped, maps, version);
    r := restorer.mappingArray;
    if version > 1 {
      dirtyWords := restorer.dirtyArray.value;
    }
  }

  lemma NoMaps(nr: nat, version: nat)
    ensures InOrder([], nr) && DirtySet([]) == {} && Gathered(map[], [], version)
  {
  }

  lemma OneMore(maps: seq<Map>, i: nat, nr: nat)
    requires i < |maps| && InOrder(maps[..i], nr)
    ensures var next := if i == 0 then 0 else maps[i - 1].cblock + 1;
            && (next <= maps[i].cblock < nr ==> InOrder(maps[..i + 1], nr))
            && (!(next <= maps[i].cblock < nr) ==> !InOrder(maps, nr))
    ensures DirtySet(maps[..i + 1]) == DirtySet(maps[..i]) + if maps[i].dirty then {maps[i].cblock} else {}
  {
    assert maps[..i + 1] == maps[..i] + [maps[i]];
    assert forall k :: 0 <= k < i ==> maps[..i][k] == maps[k] && maps[..i + 1][k] == maps[k];
    assert maps[..i + 1][i] == maps[i];
    if i > 0 {
      assert forall k :: 0 <= k < i - 1 ==> maps[..i][k].cblock < maps[..i][i - 1].cblock;
    }
    forall c | c in DirtySet(maps[..i]) ensures c in DirtySet(maps[..i + 1]) {
      var k :| 0 <= k < i && maps[..i][k].dirty && maps[..i][k].cblock == c;
      assert maps[..i + 1][k].cblock == c;
    }
  }
}
