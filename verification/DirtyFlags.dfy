/** Choosing the dirty blocks and clearing their flags in the metadata: src/cache/writeback.rs. */
module DirtyFlags {
  import opened Wrappers
  import opened BitWords
  import opened Sequences
  import opened Writebacks
  import Copiers

  /** `calc_max_entries::<Mapping>()`: eight bytes each, after the array block's header. */
  const MAX_ENTRIES: nat := 509

  datatype Mapping = Mapping(oblock: nat, valid: bool, dirty: bool, otherFlags: nat)

  /** The array of mappings, in its blocks. */
  class MappingArray {
    var blocks: seq<seq<Mapping>>

    constructor (blocks: seq<seq<Mapping>>)
      ensures this.blocks == blocks
    {
      this.blocks := blocks;
    }
  }

  /** Every block of the array but the last is full. */
  predicate Packed(blocks: seq<seq<Mapping>>) {
    && (forall i :: 0 <= i < |blocks| ==> |blocks[i]| <= MAX_ENTRIES)
    && forall i :: 0 <= i < |blocks| - 1 ==> |blocks[i]| == MAX_ENTRIES
  }

  predicate InArray(blocks: seq<seq<Mapping>>, c: nat) {
    c / MAX_ENTRIES < |blocks| && c % MAX_ENTRIES < |blocks[c / MAX_ENTRIES]|
  }

  function Entry(blocks: seq<seq<Mapping>>, c: nat): Mapping
    requires InArray(blocks, c)
  {
    blocks[c / MAX_ENTRIES][c % MAX_ENTRIES]
  }

  /** The origin block of each valid cache block. */
  function Origins(blocks: seq<seq<Mapping>>): Mappings {
    map c: nat | c < |blocks| * MAX_ENTRIES && InArray(blocks, c) && Entry(blocks, c).valid :: Entry(blocks, c).oblock
  }

  // ---- which blocks to copy

  datatype Selector = V1Selector | V2Selector(dirty: set<nat>) | AllSelector {
    predicate NeedsWriteback(c: nat, m: Mapping) {
      match this
      case V1Selector => m.dirty
      case V2Selector(dirty) => c in dirty
      case AllSelector => true
    }
  }

  ghost predicate Wanted(blocks: seq<seq<Mapping>>, sel: Selector, c: nat) {
    InArray(blocks, c) && Entry(blocks, c).valid && sel.NeedsWriteback(c, Entry(blocks, c))
  }

  /** The visitor of the array: each valid block that needs it, once. */
  method SelectBlocks(arr: MappingArray, sel: Selector) returns (list: seq<nat>)
    requires Packed(arr.blocks)
    ensures Ascending(list) && forall c: nat :: c in list <==> Wanted(arr.blocks, sel, c)
  {
    list := [];
    for i := 0 to |arr.blocks|
      invariant Ascending(list) && forall c: nat :: c in list <==> c < i * MAX_ENTRIES && Wanted(arr.blocks, sel, c)
    {
      var cbegin := i * MAX_ENTRIES;
      for j := 0 to |arr.blocks[i]|
        invariant Ascending(list) && forall c: nat :: c in list <==> c < cbegin + j && Wanted(arr.blocks, sel, c)
      {
        Position(i, j);
        var m := arr.blocks[i][j];
        assert forall k :: 0 <= k < |list| ==> list[k] in list;
        if m.valid && sel.NeedsWriteback(cbegin + j, m) {
          list := list + [cbegin + j];
        }
      }
      forall c: nat | cbegin + |arr.blocks[i]| <= c < (i + 1) * MAX_ENTRIES ensures !InArray(arr.blocks, c) {
        Position(i, c - cbegin);
      }
    }
  }

  lemma Position(i: nat, j: nat)
    requires j < MAX_ENTRIES
    ensures (i * MAX_ENTRIES + j) / MAX_ENTRIES == i && (i * MAX_ENTRIES + j) % MAX_ENTRIES == j
  {
  }

  // ---- version 1: the flags are in the mappings

  /** The entries of a list of blocks with the dirty flag cleared, and every other entry as it was. */
  ghost predicate Cleared(before: seq<seq<Mapping>>, after: seq<seq<Mapping>>, cleaned: seq<nat>) {
    && |after| == |before| && (forall i :: 0 <= i < |before| ==> |after[i]| == |before[i]|)
    && forall c: nat :: InArray(before, c) ==>
         Entry(after, c) == if c in cleaned then Entry(before, c).(dirty := false) else Entry(before, c)
  }

  method UpdateV1Metadata(arr: MappingArray, cleaned: seq<nat>)
    requires arr.blocks != [] && forall c :: c in cleaned ==> InArray(arr.blocks, c)
    modifies arr
    ensures Cleared(old(arr.blocks), arr.blocks, cleaned)
  {
    hide Cleared;
    ghost var before := arr.blocks;
    var index := 0;
    var ablock := arr.blocks[index];
    var needsUpdate := false;
    NothingCleared(before);
    assert arr.blocks[0 := ablock] == before;
    for n := 0 to |cleaned|
      invariant |arr.blocks| == |before| && index < |before|
      invariant needsUpdate || ablock == arr.blocks[index]
      invariant Cleared(before, arr.blocks[index := ablock], cleaned[..n])
    {
      var c := cleaned[n];
      assert c in cleaned && InArray(before, c);
      ghost var view := arr.blocks[index := ablock];
      assert cleaned[..n + 1] == cleaned[..n] + [c];
      if c / MAX_ENTRIES != index {
        if needsUpdate {
          arr.blocks := arr.blocks[index := ablock];
        }
        assert arr.blocks == view;
        index := c / MAX_ENTRIES;
        ablock := arr.blocks[index];
        assert arr.blocks[index := ablock] == view;
      }
      ClearedOne(before, view, cleaned[..n], c);
      var j := c % MAX_ENTRIES;
      ablock := ablock[j := ablock[j].(dirty := false)];
      needsUpdate := true;
      assert arr.blocks[index := ablock] == view[index := ablock];
    }
    assert cleaned[..|cleaned|] == cleaned;
    if needsUpdate {
      arr.blocks := arr.blocks[index := ablock];
    } else {
      assert arr.blocks[index := ablock] == arr.blocks;
    }
  }

  lemma NothingCleared(before: seq<seq<Mapping>>)
    ensures Cleared(before, before, [])
  {
  }

  lemma ClearedOne(before: seq<seq<Mapping>>, view: seq<seq<Mapping>>, cleaned: seq<nat>, c: nat)
    requires Cleared(before, view, cleaned) && InArray(before, c)
    ensures var i, j := c / MAX_ENTRIES, c % MAX_ENTRIES;
            && i < |view| && j < |view[i]|
            && Cleared(before, view[i := view[i][j := view[i][j].(dirty := false)]], cleaned + [c])
  {
    var i, j := c / MAX_ENTRIES, c % MAX_ENTRIES;
    var after := view[i := view[i][j := view[i][j].(dirty := false)]];
    forall d: nat | InArray(before, d)
      ensures Entry(after, d) == if d in cleaned + [c] then Entry(before, d).(dirty := false) else Entry(before, d)
    {
      assert d == c <==> d / MAX_ENTRIES == i && d % MAX_ENTRIES == j;
    }
  }

  // ---- version 2: the flags are in a bitset

  /** The words of the bitset, one block after the other. */
  function Words(blocks: seq<seq<word>>): seq<word> {
    Flatten<word>(blocks)
  }

  /** Where block i's words begin. */
  function Begin(blocks: seq<seq<word>>, i: nat): nat
    requires i <= |blocks|
  {
    if i == 0 then 0 else Begin(blocks, i - 1) + |blocks[i - 1]|
  }

  /** The blocks with one word replaced. */
  function Put(blocks: seq<seq<word>>, i: nat, k: nat, w: word): seq<seq<word>>
    requires i < |blocks| && k < |blocks[i]|
  {
    var row: seq<word> := blocks[i][k := w];
    blocks[i := row]
  }

  lemma {:induction false} WordAt(blocks: seq<seq<word>>, i: nat, k: nat, w: word)
    requires i < |blocks| && k < |blocks[i]|
    ensures Begin(blocks, i) + k < |Words(blocks)| && Words(blocks)[Begin(blocks, i) + k] == blocks[i][k]
    ensures Words(Put(blocks, i, k, w)) == Words(blocks)[Begin(blocks, i) + k := w]
    decreases |blocks|
  {
    var n := |blocks| - 1;
    var row: seq<word> := blocks[i][k := w];
    BeginPrefix(blocks, i);
    if i < n {
      assert blocks[i := row][..n] == blocks[..n][i := row];
      WordAt(blocks[..n], i, k, w);
    } else {
      BeginIsLength(blocks[..n]);
      assert blocks[i := row][..n] == blocks[..n];
    }
  }

  lemma {:induction false} BeginPrefix(blocks: seq<seq<word>>, i: nat)
    requires i < |blocks|
    ensures Begin(blocks[..|blocks| - 1], i) == Begin(blocks, i)
  {
    if i > 0 {
      BeginPrefix(blocks, i - 1);
    }
  }

  lemma {:induction false} BeginIsLength(blocks: seq<seq<word>>)
    ensures Begin(blocks, |blocks|) == |Words(blocks)|
    decreases |blocks|
  {
    if blocks != [] {
      var n := |blocks| - 1;
      BeginIsLength(blocks[..n]);
      if n > 0 {
        BeginPrefix(blocks, n);
      }
    }
  }

  lemma {:induction false} BeginSame(a: seq<seq<word>>, b: seq<seq<word>>, i: nat)
    requires |a| == |b| && i <= |a| && forall k :: 0 <= k < |a| ==> |a[k]| == |b[k]|
    ensures Begin(a, i) == Begin(b, i)
  {
    if i > 0 {
      BeginSame(a, b, i - 1);
    }
  }

  lemma {:induction false} SameLength(a: seq<seq<word>>, b: seq<seq<word>>)
    requires |a| == |b| && forall k :: 0 <= k < |a| ==> |a[k]| == |b[k]|
    ensures |Words(a)| == |Words(b)|
  {
    BeginIsLength(a);
    BeginIsLength(b);
    BeginSame(a, b, |a|);
  }

  lemma {:induction false} BeginGrows(blocks: seq<seq<word>>, i: nat, j: nat)
    requires i <= j <= |blocks|
    ensures Begin(blocks, i) <= Begin(blocks, j)
    decreases j
  {
    if i < j {
      BeginGrows(blocks, i, j - 1);
    }
  }

  datatype BitBlock = BitBlock(index: nat, bitBegin: nat, values: seq<word>)

  /** A cursor over the blocks of a bitset, with the one it is at in memory. */
  class BitsetUpdater {
    var disk: seq<seq<word>>
    var current: Option<BitBlock>
    var last: Option<nat>

    ghost predicate Sound()
      reads this
    {
      current.Some? ==>
        var bb := current.value;
        bb.index < |disk| && |bb.values| == |disk[bb.index]| && bb.bitBegin == 64 * Begin(disk, bb.index)
    }

    ghost predicate Valid()
      reads this
    {
      Sound() && (current.Some? ==> last.Some? && current.value.bitBegin <= last.value)
    }

    /** The blocks, with what is in memory taken to be written. */
    ghost function View(): seq<seq<word>>
      reads this
      requires Sound()
    {
      if current.Some? then disk[current.value.index := current.value.values] else disk
    }

    constructor (disk: seq<seq<word>>)
      ensures Valid() && View() == disk && last == None
    {
      this.disk, current, last := disk, None, None;
    }

    /** Writes the current block, if there is one, and reads the next; fails when there is no next. */
    method NextBitmap() returns (ok: bool)
      requires Sound()
      modifies `disk, `current
      ensures Sound() && View() == old(View()) && |disk| == |old(disk)|
      ensures var next := if old(current).Some? then old(current).value.index + 1 else 0;
              && (ok <==> next < |disk|) && (if ok then current.Some? && current.value.index == next else current == None)
      ensures ok && old(current).Some? ==>
                current.value.bitBegin == old(current).value.bitBegin + 64 * |old(current).value.values|
      ensures ok && old(current).None? ==> current.value.bitBegin == 0
      ensures forall k :: 0 <= k < |disk| ==> |disk[k]| == |old(disk)[k]|
    {
      var next, bitBegin := 0, 0;
      ghost var disk0 := disk;
      if current.Some? {
        var bb := current.value;
        next, bitBegin := bb.index + 1, bb.bitBegin + 64 * |bb.values|;
        current, disk := None, disk[bb.index := bb.values];
        BeginSame(disk0, disk, bb.index + 1);
      }
      ok := next < |disk|;
      if ok {
        current := Some(BitBlock(next, bitBegin, disk[next]));
        assert disk[next := disk[next]] == disk;
      }
    }

    /** Moves on until the current block has the bit. */
    method GetBitmap(bit: nat) returns (ok: bool)
      requires Sound() && (current.Some? ==> current.value.bitBegin <= bit)
      modifies `disk, `current
      ensures Sound() && View() == old(View())
      ensures ok <==> bit / 64 < |Words(old(View()))|
      ensures ok ==> current.Some? && current.value.bitBegin <= bit < current.value.bitBegin + 64 * |current.value.values|
    {
      ghost var view := View();
      SameLength(view, disk);
      while current.None? || !(current.value.bitBegin <= bit < current.value.bitBegin + 64 * |current.value.values|)
        invariant Sound() && View() == view && |Words(view)| == |Words(disk)|
        invariant current.Some? ==> current.value.bitBegin <= bit
        decreases |disk| - if current.Some? then current.value.index + 1 else 0
      {
        ghost var disk0, before := disk, current;
        ok := NextBitmap();
        SameLength(disk0, disk);
        if !ok {
          BeginIsLength(disk0);
          return;
        }
      }
      ok := true;
      BeginIsLength(disk);
      BeginGrows(disk, current.value.index + 1, |disk|);
    }

    /** Sets or clears one bit, at or after the last one; fails past the end of the bitset. */
    method SetBit(b: nat, v: bool) returns (ok: bool)
      requires Valid() && (last.Some? ==> b >= last.value)
      modifies this
      ensures ok ==> Valid() && last == Some(b)
      ensures ok <==> b / 64 < |Words(old(View()))|
      ensures ok ==>
                var was := Words(old(View()));
                Words(View()) == was[b / 64 := if v then Set(was[b / 64], b % 64) else Clear(was[b / 64], b % 64)]
    {
      hide Set, Clear, Words;
      ok := GetBitmap(b);
      if !ok {
        return;
      }
      last := Some(b);
      var bb := current.value;
      var k := (b - bb.bitBegin) / 64;
      var w := if v then Set(bb.values[k], b % 64) else Clear(bb.values[k], b % 64);
      ghost var view := View();
      BeginSame(view, disk, bb.index);
      WordAt(view, bb.index, k, w);
      assert Begin(view, bb.index) + k == b / 64;
      current := Some(bb.(values := bb.values[k := w]));
      assert View() == Put(view, bb.index, k, w);
    }

    method Flush()
      requires Valid()
      modifies `disk, `current
      ensures Valid() && current == None && disk == old(View())
    {
      if current.Some? {
        disk, current := disk[current.value.index := current.value.values], None;
      }
    }
  }

  /** Clears the bits of ascending blocks, and no others; fails if one is past the end. */
  method UpdateV2Metadata(updater: BitsetUpdater, cleaned: seq<nat>) returns (ok: bool)
    requires updater.Valid() && updater.current == None && updater.last == None && Ascending(cleaned)
    modifies updater
    ensures ok <==> forall c :: c in cleaned ==> c / 64 < |Words(old(updater.disk))|
    ensures ok ==> BitsCleared(Words(old(updater.disk)), Words(updater.disk), cleaned)
  {
    hide Words, BitsCleared;
    ghost var was := Words(updater.disk);
    NoBitsCleared(was);
    for n := 0 to |cleaned|
      invariant updater.Valid() && BitsCleared(was, Words(updater.View()), cleaned[..n])
      invariant |Words(updater.View())| == |was| && forall c :: c in cleaned[..n] ==> c / 64 < |was|
      invariant updater.last == if n == 0 then None else Some(cleaned[n - 1])
    {
      assert cleaned[..n + 1] == cleaned[..n] + [cleaned[n]];
      ghost var now := Words(updater.View());
      ok := updater.SetBit(cleaned[n], false);
      if !ok {
        assert cleaned[n] in cleaned;
        return;
      }
      ClearedBit(was, now, cleaned[..n], cleaned[n]);
    }
    assert cleaned[..|cleaned|] == cleaned;
    updater.Flush();
    ok := true;
  }

  ghost predicate BitsCleared(before: seq<word>, after: seq<word>, cleaned: seq<nat>) {
    && |after| == |before|
    && forall b: nat :: b / 64 < |before| ==> (Bit(after[b / 64], b % 64) <==> Bit(before[b / 64], b % 64) && b !in cleaned)
  }

  lemma NoBitsCleared(words: seq<word>)
    ensures BitsCleared(words, words, [])
  {
  }

  lemma ClearedBit(before: seq<word>, now: seq<word>, cleaned: seq<nat>, c: nat)
    requires BitsCleared(before, now, cleaned) && c / 64 < |before|
    ensures BitsCleared(before, now[c / 64 := Clear(now[c / 64], c % 64)], cleaned + [c])
  {
    hide Bit, Clear;
    var after := now[c / 64 := Clear(now[c / 64], c % 64)];
    forall b: nat | b / 64 < |before|
      ensures Bit(after[b / 64], b % 64) <==> Bit(before[b / 64], b % 64) && b !in cleaned + [c]
    {
      ClearBit(now[c / 64], c % 64, b % 64);
      assert b == c <==> b / 64 == c / 64 && b % 64 == c % 64;
    }
  }

  // ---- the whole run

  /** `v2_read_dirty_bitset` */
  method ReadDirtyBitset(words: seq<word>, cacheBlocks: nat) returns (dirty: set<nat>)
    requires cacheBlocks <= 64 * |words|
    ensures forall b: nat :: b in dirty <==> b < cacheBlocks && Bit(words[b / 64], b % 64)
  {
    hide Bit;
    dirty := {};
    for b := 0 to cacheBlocks
      invariant forall c: nat :: c in dirty <==> c < b && Bit(words[c / 64], c % 64)
    {
      if Bit(words[b / 64], b % 64) {
        dirty := dirty + {b};
      }
    }
  }

  /** A bitmap's members below a bound, in ascending order. */
  method AscendingList(bs: set<nat>, bound: nat) returns (list: seq<nat>)
    requires forall b :: b in bs ==> b < bound
    ensures Ascending(list) && forall b: nat :: b in list <==> b in bs
  {
    list := [];
    for b := 0 to bound
      invariant Ascending(list) && forall c: nat :: c in list <==> c < b && c in bs
    {
      assert forall k :: 0 <= k < |list| ==> list[k] in list;
      if b in bs {
        list := list + [b];
      }
    }
  }

  /** The blocks to copy: the valid ones that are dirty, or after an unclean shutdown all valid ones. */
  ghost predicate ToCopy(blocks: seq<seq<Mapping>>, version1: bool, clean: bool, words: seq<word>, cacheBlocks: nat, c: nat)
    requires cacheBlocks <= 64 * |words|
  {
    && InArray(blocks, c) && Entry(blocks, c).valid
    && (clean ==> if version1 then Entry(blocks, c).dirty else c < cacheBlocks && Bit(words[c / 64], c % 64))
  }

  /** The selector for the metadata: after an unclean shutdown every valid block is taken to be dirty. */
  method MakeSelector(version1: bool, clean: bool, words: seq<word>, cacheBlocks: nat) returns (sel: Selector)
    requires cacheBlocks <= 64 * |words|
    ensures forall blocks, c :: Wanted(blocks, sel, c) <==> ToCopy(blocks, version1, clean, words, cacheBlocks, c)
  {
    hide Bit, InArray, Entry;
    if !clean {
      sel := AllSelector;
    } else if version1 {
      sel := V1Selector;
    } else {
      var dirty := ReadDirtyBitset(words, cacheBlocks);
      sel := V2Selector(dirty);
    }
  }

  /** Of the blocks tried, every cleaned one whose origin block belongs to no other has its data there, and no other
      block of the origin device is touched. */
  ghost predicate Copied(blocks: seq<seq<Mapping>>, o: Outcome, fast: map<nat, Copiers.Data>, before: map<nat, Copiers.Data>,
                         after: map<nat, Copiers.Data>) {
    var tried := o.cleaned + o.readFailed + o.writeFailed;
    && o.cleaned !! o.readFailed !! o.writeFailed && (forall c :: c in tried ==> InArray(blocks, c))
    && (forall c :: c in o.cleaned && SoleOrigin(blocks, tried, c) ==> CopiedHome(Entry(blocks, c).oblock, c, fast, after))
    && (forall b: nat :: (forall c :: c in tried ==> Entry(blocks, c).oblock != b) ==> Same(before, after, b))
  }

  ghost predicate SoleOrigin(blocks: seq<seq<Mapping>>, tried: set<nat>, c: nat)
    requires InArray(blocks, c) && forall a :: a in tried ==> InArray(blocks, a)
  {
    forall a :: a in tried && a != c ==> Entry(blocks, a).oblock != Entry(blocks, c).oblock
  }

  ghost predicate CopiedHome(oblock: nat, c: nat, fast: map<nat, Copiers.Data>, after: map<nat, Copiers.Data>) {
    c in fast && oblock in after && after[oblock] == fast[c]
  }

  lemma OutcomeCopied(blocks: seq<seq<Mapping>>, o: Outcome, tried: set<nat>, fast: map<nat, Copiers.Data>,
                      before: map<nat, Copiers.Data>, after: map<nat, Copiers.Data>)
    requires o.Ok(tried, Origins(blocks), fast, before, after)
    ensures tried == o.cleaned + o.readFailed + o.writeFailed && Copied(blocks, o, fast, before, after)
  {
    var m := Origins(blocks);
    forall c | c in o.cleaned && SoleOrigin(blocks, tried, c) ensures CopiedHome(Entry(blocks, c).oblock, c, fast, after) {
      assert Unshared(m, tried, c);
    }
    forall b: nat | forall c :: c in tried ==> Entry(blocks, c).oblock != b ensures Same(before, after, b) {
      assert !Targets(m, tried, b);
    }
  }

  method CopyWanted(dev: Devices, arr: MappingArray, sel: Selector, retryCount: nat) returns (o: Option<Outcome>)
    requires Packed(arr.blocks)
    modifies dev
    ensures o.Some? ==> Copied(arr.blocks, o.value, dev.fast, old(dev.origin), dev.origin)
    ensures o.Some? ==>
              forall c: nat :: c in o.value.cleaned + o.value.readFailed + o.value.writeFailed <==> Wanted(arr.blocks, sel, c)
  {
    hide Outcome.Ok, Copied;
    var list := SelectBlocks(arr, sel);
    ghost var m := Origins(arr.blocks);
    forall c | c in list ensures c in m {
      assert Wanted(arr.blocks, sel, c) && c < |arr.blocks| * MAX_ENTRIES;
    }
    o := CopyDirtyBlocks(dev, list, Origins(arr.blocks), retryCount);
    if o.Some? {
      assert forall c: nat :: c in Members(list) <==> Wanted(arr.blocks, sel, c);
      OutcomeCopied(arr.blocks, o.value, Members(list), dev.fast, old(dev.origin), dev.origin);
    }
  }

  ghost predicate ClearedAll(before: seq<seq<Mapping>>, after: seq<seq<Mapping>>, cleaned: set<nat>) {
    exists list :: Cleared(before, after, list) && forall c: nat :: c in list <==> c in cleaned
  }

  ghost predicate BitsClearedAll(before: seq<seq<word>>, after: seq<seq<word>>, cleaned: set<nat>) {
    exists list :: BitsCleared(Words(before), Words(after), list) && forall c: nat :: c in list <==> c in cleaned
  }

  /** Writes back a cache.  Every block to copy is either cleaned, with its data at home on the origin device unless
      another block to copy belongs in the same place, or failed; the dirty flags of exactly the cleaned blocks are
      cleared, and nothing else changes in the metadata. */
  method Writeback(dev: Devices, arr: MappingArray, updater: BitsetUpdater, version1: bool, clean: bool, cacheBlocks: nat,
                   retryCount: nat)
    returns (o: Option<Outcome>, updated: bool)
    requires Packed(arr.blocks) && arr.blocks != []
    requires updater.Valid() && updater.current == None && updater.last == None && cacheBlocks <= 64 * |Words(updater.disk)|
    modifies dev, arr, updater
    ensures o.Some? ==>
              forall c: nat :: c in o.value.cleaned + o.value.readFailed + o.value.writeFailed
                               <==> ToCopy(old(arr.blocks), version1, clean, Words(old(updater.disk)), cacheBlocks, c)
    ensures o.Some? ==> Copied(old(arr.blocks), o.value, dev.fast, old(dev.origin), dev.origin)
    ensures updated ==> o.Some? && (if version1 then ClearedAll(old(arr.blocks), arr.blocks, o.value.cleaned)
                                    else BitsClearedAll(old(updater.disk), updater.disk, o.value.cleaned))
    ensures !updated || !version1 ==> arr.blocks == old(arr.blocks)
    ensures version1 || o.None? ==> updater.disk == old(updater.disk)
  {
    hide Outcome.Ok, Cleared, BitsCleared, Copied, Words, Wanted, ToCopy;
    updated := false;
    var s := MakeSelector(version1, clean, Words(updater.disk), cacheBlocks);
    o := CopyWanted(dev, arr, s, retryCount);
    if o.None? {
      return;
    }
    forall c | c in o.value.cleaned ensures InArray(arr.blocks, c) && c < |arr.blocks| * MAX_ENTRIES {
      WantedInArray(arr.blocks, s, c);
    }
    var cleaned := AscendingList(o.value.cleaned, |arr.blocks| * MAX_ENTRIES);
    if version1 {
      UpdateV1Metadata(arr, cleaned);
      updated := true;
    } else {
      updated := UpdateV2Metadata(updater, cleaned);
    }
  }

  lemma WantedInArray(blocks: seq<seq<Mapping>>, sel: Selector, c: nat)
    requires Wanted(blocks, sel, c)
    ensures InArray(blocks, c) && c < |blocks| * MAX_ENTRIES
  {
  }

  /** The entry of a cache block is the one that many places into the array. */
  lemma {:induction false} EntryIsAt(blocks: seq<seq<Mapping>>, c: nat)
    requires Packed(blocks)
    ensures InArray(blocks, c) <==> c < |Flatten(blocks)|
    ensures InArray(blocks, c) ==> Entry(blocks, c) == Flatten(blocks)[c]
    ensures blocks == [] || |Flatten(blocks)| == (|blocks| - 1) * MAX_ENTRIES + |blocks[|blocks| - 1]|
    decreases |blocks|
  {
    if blocks != [] {
      var n := |blocks| - 1;
      var start := n * MAX_ENTRIES;
      EntryIsAt(blocks[..n], c);
      assert |Flatten(blocks[..n])| == start;
      if c < start {
        assert c / MAX_ENTRIES < n;
      } else if c < start + MAX_ENTRIES {
        Position(n, c - start);
      } else {
        assert c / MAX_ENTRIES > n;
      }
    }
  }
}
