/** Runs of marked blocks: src/era/invalidate.rs and `dump_writeset` of src/era/dump.rs. */
module Eras {
  import opened BitWords

  const TWO32: nat := 0x1_0000_0000

  /** Bit b of an array of words. */
  predicate Marked(words: seq<word>, b: nat) {
    b / 64 < |words| && words[b / 64][b % 64]
  }

  datatype Range = Range(begin: nat, end: nat)

  /** A run of marked blocks below the limit that cannot be extended at either end. */
  ghost predicate Maximal(words: seq<word>, limit: nat, r: Range) {
    && r.begin < r.end <= limit
    && (forall b :: r.begin <= b < r.end ==> Marked(words, b))
    && (r.begin == 0 || !Marked(words, r.begin - 1))
    && (r.end == limit || !Marked(words, r.end))
  }

  ghost predicate Covered(rs: seq<Range>, b: nat) {
    exists i :: 0 <= i < |rs| && rs[i].begin <= b < rs[i].end
  }

  /** The ranges are maximal runs, in order, and cover the marked blocks up to a point. */
  ghost predicate RunsTo(words: seq<word>, limit: nat, rs: seq<Range>, upTo: nat) {
    && (forall i :: 0 <= i < |rs| ==> Maximal(words, limit, rs[i]) && rs[i].end <= upTo)
    && (forall i, j :: 0 <= i < j < |rs| ==> rs[i].end < rs[j].begin)
    && (forall b: nat :: b < upTo && b < limit && Marked(words, b) ==> Covered(rs, b))
  }

  /** Where the scan is: `at` bits have been looked at.  Either the run begin..end is open, cut off at the limit;
      or there is none; or the limit is behind, and neither bound means anything any more. */
  ghost predicate Scanning(words: seq<word>, limit: nat, rs: seq<Range>, begin: nat, end: nat, at: nat) {
    if begin < end then
      && begin < limit && end == (if at < limit then at else limit)
      && (forall b :: begin <= b < at ==> Marked(words, b)) && (begin == 0 || !Marked(words, begin - 1))
      && RunsTo(words, limit, rs, begin) && (forall i :: 0 <= i < |rs| ==> rs[i].end < begin)
    else if begin == end == at then
      RunsTo(words, limit, rs, at) && (at == 0 || at > limit || !Marked(words, at - 1))
    else
      limit <= begin <= at && limit <= end <= at && RunsTo(words, limit, rs, limit)
  }

  /** The ranges with the open run, if there is one, added. */
  function Emitted(rs: seq<Range>, begin: nat, end: nat): seq<Range> {
    if end > begin then rs + [Range(begin, end)] else rs
  }

  lemma RunsPush(words: seq<word>, limit: nat, rs: seq<Range>, begin: nat, end: nat, upTo: nat)
    requires RunsTo(words, limit, rs, begin) && (forall i :: 0 <= i < |rs| ==> rs[i].end < begin)
    requires Maximal(words, limit, Range(begin, end)) && end <= upTo
    requires forall b: nat :: end <= b < upTo && b < limit ==> !Marked(words, b)
    ensures RunsTo(words, limit, rs + [Range(begin, end)], upTo)
  {
    var rs' := rs + [Range(begin, end)];
    assert forall i :: 0 <= i < |rs| ==> rs'[i] == rs[i];
    assert rs'[|rs|] == Range(begin, end);
    forall b: nat | b < upTo && b < limit && Marked(words, b) ensures Covered(rs', b) {
      if b < begin {
        assert Covered(rs, b);
        var i :| 0 <= i < |rs| && rs[i].begin <= b < rs[i].end;
        assert rs'[i].begin <= b < rs'[i].end;
      }
    }
  }

  lemma RunsLater(words: seq<word>, limit: nat, rs: seq<Range>, upTo: nat, later: nat)
    requires RunsTo(words, limit, rs, upTo) && upTo <= later
    requires forall b: nat :: upTo <= b < later && b < limit ==> !Marked(words, b)
    ensures RunsTo(words, limit, rs, later)
  {
  }

  /** Over bits that are not marked: an open run ends. */
  lemma Zeros(words: seq<word>, limit: nat, rs: seq<Range>, begin: nat, end: nat, at: nat, z: nat)
    requires Scanning(words, limit, rs, begin, end, at) && z > 0
    requires forall b :: at <= b < at + z ==> !Marked(words, b)
    ensures Scanning(words, limit, Emitted(rs, begin, end), end + z, end + z, at + z)
    ensures Scanning(words, limit, Emitted(rs, begin, end), at + z, at + z, at + z)
    ensures RunsTo(words, limit, Emitted(rs, begin, end), if at + z < limit then at + z else limit)
  {
    if begin < end {
      if at < limit {
        RunsPush(words, limit, rs, begin, end, at + z);
        if at + z >= limit {
          RunsPush(words, limit, rs, begin, end, limit);
        }
      } else {
        RunsPush(words, limit, rs, begin, end, limit);
        RunsLater(words, limit, Emitted(rs, begin, end), limit, at + z);
      }
    } else if begin == end == at {
      RunsLater(words, limit, rs, at, at + z);
      if at + z >= limit {
        Shrunk(words, limit, rs, at + z);
      }
    } else {
      RunsLater(words, limit, rs, limit, at + z);
    }
  }

  lemma Shrunk(words: seq<word>, limit: nat, rs: seq<Range>, upTo: nat)
    requires RunsTo(words, limit, rs, upTo) && upTo >= limit
    ensures RunsTo(words, limit, rs, limit)
  {
  }

  /** Over marked bits: a run opens or goes on, up to the limit. */
  lemma Ones(words: seq<word>, limit: nat, rs: seq<Range>, begin: nat, end: nat, at: nat, o: nat)
    requires Scanning(words, limit, rs, begin, end, at) && o > 0
    requires forall b :: at <= b < at + o ==> Marked(words, b)
    ensures Scanning(words, limit, rs, begin, if end + o < limit then end + o else limit, at + o)
  {
    if begin < end {
    } else if begin == end == at {
      if at < limit {
        assert RunsTo(words, limit, rs, begin);
        forall i | 0 <= i < |rs| ensures rs[i].end < begin {
          assert Maximal(words, limit, rs[i]) && Marked(words, rs[i].end - 1);
        }
      } else {
        Shrunk(words, limit, rs, at);
      }
    } else {
    }
  }

  // ---- the scan

  lemma BitOf(words: seq<word>, i: nat, k: nat)
    requires i < |words| && k < 64
    ensures Marked(words, 64 * i + k) <==> words[i][k]
  {
    assert (64 * i + k) / 64 == i && (64 * i + k) % 64 == k;
  }

  /** `min(end + more, limit)` in u32s. */
  function Advance(end: nat, more: nat, limit: nat): nat {
    var sum := (end + more) % TWO32;
    if sum < limit then sum else limit
  }

  /** Every bit has a number that fits a u32. */
  ghost predicate Fits(words: seq<word>, limit: nat) {
    limit < TWO32 && 64 * |words| <= TWO32
  }

  /** There are as many words as a u32 can number the bits of, the limit is in or just before the last one, and
      from the last bit below the limit on all are marked.  The end of that run, 2^32, is then taken for zero. */
  ghost predicate Overruns(words: seq<word>, limit: nat) {
    && 64 * |words| == TWO32 && 0 < limit && TWO32 - 64 <= limit
    && forall b :: limit - 1 <= b < TWO32 ==> Marked(words, b)
  }

  /** All the runs but the last, which ends at the limit. */
  ghost predicate LastLost(words: seq<word>, limit: nat, rs: seq<Range>, begin: nat) {
    && Maximal(words, limit, Range(begin, limit))
    && RunsTo(words, limit, rs, begin) && forall i :: 0 <= i < |rs| ==> rs[i].end < begin
  }

  lemma {:induction false} LostIsWrong(words: seq<word>, limit: nat, rs: seq<Range>, begin: nat)
    requires LastLost(words, limit, rs, begin)
    ensures !RunsTo(words, limit, rs, limit)
  {
    assert Marked(words, limit - 1) && !Covered(rs, limit - 1);
  }

  /** What the scan yields when it ends with 2^32 bits looked at. */
  ghost predicate Ended(words: seq<word>, limit: nat, rs: seq<Range>, begin: nat, end: nat) {
    if Overruns(words, limit) then end <= begin && LastLost(words, limit, rs, begin)
    else RunsTo(words, limit, Emitted(rs, begin, end), limit)
  }

  ghost predicate Scanned(words: seq<word>, limit: nat, rs: seq<Range>, begin: nat, end: nat, at: nat) {
    if at < TWO32 then Scanning(words, limit, rs, begin, end, at) else Ended(words, limit, rs, begin, end)
  }

  /** The only run ends at the limit but is marked further on: nothing is found. */
  lemma {:induction false} AllLost(rs: seq<Range>, begin: nat)
    ensures var words: seq<word> := seq(0x400_0000, i => if i == 0x3ff_ffff then ALL_ONES else ZERO);
            Fits(words, TWO32 - 1) && Overruns(words, TWO32 - 1) && (LastLost(words, TWO32 - 1, rs, begin) ==> rs == [])
  {
    var words: seq<word> := seq(0x400_0000, i => if i == 0x3ff_ffff then ALL_ONES else ZERO);
    forall b: nat ensures Marked(words, b) <==> TWO32 - 64 <= b < TWO32 {
    }
    if LastLost(words, TWO32 - 1, rs, begin) {
      assert Marked(words, begin) && (begin > 0 ==> !Marked(words, begin - 1));
      assert rs != [] ==> Maximal(words, TWO32 - 1, rs[0]) && Marked(words, rs[0].begin);
    }
  }

  /** The loop shared by `emit_blocks` and `dump_writeset`: words that are all ones are skipped over, the others
      taken apart by their trailing zeros and ones, bits past the limit included. */
  method ScanRuns(words: seq<word>, limit: nat) returns (rs: seq<Range>)
    requires Fits(words, limit)
    ensures RunsTo(words, limit, rs, limit) <==> !Overruns(words, limit)
    ensures Overruns(words, limit) ==> exists begin: nat :: LastLost(words, limit, rs, begin)
  {
    assert 64 * |words| <= TWO32;
    hide Scanning, RunsTo, Marked, Fits, Advance, Ended, Overruns, LastLost;
    rs := [];
    var begin: nat, end: nat := 0, 0;
    ghost var at: nat := 0;
    Nothing(words, limit);
    for index := 0 to |words|
      invariant Scanned(words, limit, rs, begin, end, at) && at <= 64 * index
      invariant index < |words| ==> at == 64 * index
      invariant forall b :: at <= b < 64 * index ==> !Marked(words, b)
    {
      var n := words[index];
      if n == ALL_ONES {
        OnesWord(words, limit, rs, begin, end, index);
        end, at := Advance(end, 64, limit), at + 64;
      } else {
        rs, begin, end, at := ScanWord(words, limit, index, rs, begin, end);
        var endpos := EndPos(index);
        EndOfWord(words, limit, rs, begin, end, at, index);
        if end < endpos {
          if end > begin {
            rs := rs + [Range(begin, end)];
          }
          begin, end, at := endpos, endpos, endpos;
        }
      }
    }
    Finish(words, limit, rs, begin, end, at);
    if end > begin {
      rs := rs + [Range(begin, end)];
    }
    if Overruns(words, limit) {
      LostIsWrong(words, limit, rs, begin);
    }
  }

  /** The position after a word, as a u32. */
  function EndPos(index: nat): nat {
    (64 * index % TWO32 + 64) % TWO32
  }

  lemma {:induction false} OnesWord(words: seq<word>, limit: nat, rs: seq<Range>, begin: nat, end: nat, index: nat)
    requires Fits(words, limit) && index < |words| && words[index] == ALL_ONES
    requires Scanning(words, limit, rs, begin, end, 64 * index)
    ensures Scanned(words, limit, rs, begin, Advance(end, 64, limit), 64 * index + 64)
  {
    forall b | 64 * index <= b < 64 * index + 64 ensures Marked(words, b) {
      BitOf(words, index, b - 64 * index);
    }
    OnesRound(words, limit, rs, begin, end, 64 * index, 64, index);
  }

  /** Over all the marked bits from somewhere in a word, up to its end or a bit that is not marked. */
  lemma {:induction false} OnesRound(words: seq<word>, limit: nat, rs: seq<Range>, begin: nat, end: nat, at: nat, o: nat, index: nat)
    requires Fits(words, limit) && Scanning(words, limit, rs, begin, end, at) && index < |words|
    requires 0 < o && forall b :: at <= b < at + o ==> Marked(words, b)
    requires 64 * index <= at && at + o <= 64 * index + 64 && (at == 64 * index || !Marked(words, at - 1))
    ensures Scanned(words, limit, rs, begin, Advance(end, o, limit), at + o)
  {
    if at + o < TWO32 {
      hide Marked, Fits;
      Bounds(words, limit, rs, begin, end, at);
      hide Scanning, RunsTo;
      Ones(words, limit, rs, begin, end, at, o);
    } else if at <= limit {
      UpToTheEnd(words, limit, rs, begin, end, at, o);
    } else {
      PastTheLimit(words, limit, rs, begin, end, at, o);
    }
  }

  /** The sum wraps round: a run that goes on past the limit is lost. */
  lemma {:induction false} UpToTheEnd(words: seq<word>, limit: nat, rs: seq<Range>, begin: nat, end: nat, at: nat, o: nat)
    requires Fits(words, limit) && Scanning(words, limit, rs, begin, end, at)
    requires 0 < o && at + o == 64 * |words| == TWO32 && forall b :: at <= b < at + o ==> Marked(words, b)
    requires TWO32 - 64 <= at <= limit
    ensures Ended(words, limit, rs, begin, Advance(end, o, limit))
  {
    hide Marked;
    assert end == at && Advance(end, o, limit) == 0;
    if begin < end || at < limit {
      forall i | 0 <= i < |rs| ensures rs[i].end < begin {
        assert Maximal(words, limit, rs[i]) && Marked(words, rs[i].end - 1);
      }
      assert Maximal(words, limit, Range(begin, limit));
    } else {
      assert !Marked(words, limit - 1);
    }
  }

  /** The sum does not wrap round, or there is no open run. */
  lemma {:induction false} PastTheLimit(words: seq<word>, limit: nat, rs: seq<Range>, begin: nat, end: nat, at: nat, o: nat)
    requires Fits(words, limit) && Scanning(words, limit, rs, begin, end, at)
    requires 0 < o && at + o == 64 * |words| == TWO32 && forall b :: at <= b < at + o ==> Marked(words, b)
    requires TWO32 - 64 <= at && limit < at && (at == TWO32 - 64 || !Marked(words, at - 1))
    ensures Ended(words, limit, rs, begin, Advance(end, o, limit))
  {
    hide Marked;
    assert !Overruns(words, limit);
    if begin < end {
      assert end == limit && Advance(end, o, limit) == limit;
      assert Maximal(words, limit, Range(begin, end));
      hide RunsTo, Maximal;
      RunsPush(words, limit, rs, begin, end, limit);
    } else {
      assert Advance(end, o, limit) <= limit <= begin;
      if begin == end == at {
        Shrunk(words, limit, rs, at);
      }
    }
  }

  lemma Nothing(words: seq<word>, limit: nat)
    ensures Scanning(words, limit, [], 0, 0, 0)
  {
  }

  lemma Bounds(words: seq<word>, limit: nat, rs: seq<Range>, begin: nat, end: nat, at: nat)
    requires Scanning(words, limit, rs, begin, end, at)
    ensures begin <= at && end <= at
  {
  }

  /** The loop over one word.  Afterwards only bits that are not marked are left of it. */
  method ScanWord(words: seq<word>, limit: nat, index: nat, rs: seq<Range>, begin: nat, end: nat)
    returns (rs': seq<Range>, begin': nat, end': nat, ghost at: nat)
    requires Fits(words, limit) && index < |words| && words[index] != ALL_ONES
    requires Scanning(words, limit, rs, begin, end, 64 * index)
    ensures Scanned(words, limit, rs', begin', end', at) && 64 * index <= at <= 64 * index + 64
    ensures forall b :: at <= b < 64 * index + 64 ==> !Marked(words, b)
  {
    hide Scanning, RunsTo, Marked, Fits, Advance, Shift, Scanned, Left, Between;
    rs', begin', end', at := rs, begin, end, 64 * index;
    var n := words[index];
    ghost var p: nat := 0;
    NoShift(n);
    InWord(words, limit, rs, begin, end, index);
    while n != ZERO
      invariant at == 64 * index + p && p <= 64 && Left(words[index], p, n) && n != ALL_ONES
      invariant Scanned(words, limit, rs', begin', end', at)
      decreases 64 - p
    {
      var zeros: nat := TrailingZeros(n);
      AfterZeros(words, limit, rs', begin', end', index, p, n, zeros);
      if zeros > 0 {
        if end' > begin' {
          rs' := rs' + [Range(begin', end')];
        }
        n := Shift(n, zeros);
        end' := end' + zeros;
        begin' := end';
        at, p := at + zeros, p + zeros;
      }
      var ones: nat := TrailingOnes(n);
      AfterOnes(words, limit, rs', begin', end', index, p, n, ones);
      n, end' := Shift(n, ones), Advance(end', ones, limit);
      at, p := at + ones, p + ones;
    }
    RestClear(words, index, p, n);
  }

  lemma {:induction false} InWord(words: seq<word>, limit: nat, rs: seq<Range>, begin: nat, end: nat, index: nat)
    requires Fits(words, limit) && index < |words| && Scanning(words, limit, rs, begin, end, 64 * index)
    ensures Scanned(words, limit, rs, begin, end, 64 * index)
  {
  }

  /** What is left of a word before each round: it does not begin with a one. */
  ghost predicate Left(w: word, p: nat, n: word)
    requires p <= 64
  {
    n == Shift(w, p) && (p > 0 ==> !n[0])
  }

  /** Where a round stands when the zeros are off the word. */
  ghost predicate Between(words: seq<word>, limit: nat, rs: seq<Range>, begin: nat, end: nat, index: nat, p: nat, n: word)
    requires index < |words|
  {
    && p < 64 && n == Shift(words[index], p) && n[0]
    && Scanning(words, limit, rs, begin, end, 64 * index + p) && (p == 0 || !Marked(words, 64 * index + p - 1))
  }

  lemma {:induction false} AfterZeros(words: seq<word>, limit: nat, rs: seq<Range>, begin: nat, end: nat, index: nat, p: nat,
                                      n: word, z: index)
    requires Fits(words, limit) && index < |words| && p <= 64 && Left(words[index], p, n) && n != ALL_ONES
    requires Scanned(words, limit, rs, begin, end, 64 * index + p)
    requires n[z] && forall k :: 0 <= k < z ==> !n[k]
    ensures z > 0 ==> Shift(n, z) != ALL_ONES
    ensures z == 0 ==> Between(words, limit, rs, begin, end, index, p, n)
    ensures z > 0 ==> Between(words, limit, Emitted(rs, begin, end), end + z, end + z, index, p + z, Shift(n, z))
  {
    hide Scanning, Scanned, Marked, Shift, Fits;
    ShiftedBits(words, index, p, n, z);
    ShiftShift(words[index], p, z);
    NotAtTheEnd(words, limit, rs, begin, end, index, p);
    hide Left;
    if z > 0 {
      Zeros(words, limit, rs, begin, end, 64 * index + p, z);
    }
  }

  lemma {:induction false} NotAtTheEnd(words: seq<word>, limit: nat, rs: seq<Range>, begin: nat, end: nat, index: nat, p: nat)
    requires Fits(words, limit) && index < |words| && p < 64 && Scanned(words, limit, rs, begin, end, 64 * index + p)
    ensures Scanning(words, limit, rs, begin, end, 64 * index + p)
  {
  }

  lemma {:induction false} AfterOnes(words: seq<word>, limit: nat, rs: seq<Range>, begin: nat, end: nat, index: nat, p: nat,
                                     n: word, o: index)
    requires Fits(words, limit) && index < |words| && Between(words, limit, rs, begin, end, index, p, n)
    requires !n[o] && forall k :: 0 <= k < o ==> n[k]
    ensures 0 < o && p + o <= 64 && Left(words[index], p + o, Shift(n, o)) && Shift(n, o) != ALL_ONES
    ensures Scanned(words, limit, rs, begin, Advance(end, o, limit), 64 * index + p + o)
  {
    ShiftedOnes(words, index, p, n, o);
    ShiftShift(words[index], p, o);
    hide Marked, Scanned, Scanning, Shift;
    OnesRound(words, limit, rs, begin, end, 64 * index + p, o, index);
  }

  lemma {:induction false} NoShift(n: word)
    ensures Left(n, 0, n)
  {
  }

  lemma ShiftShift(w: word, p: nat, z: nat)
    requires p + z <= 64
    ensures Shift(Shift(w, p), z) == Shift(w, p + z)
    ensures z > 0 ==> Shift(Shift(w, p), z) != ALL_ONES
    ensures z < 64 ==> Shift(Shift(w, p), z)[0] == Shift(w, p)[z]
  {
    if z > 0 {
      assert !Shift(w, p + z)[63] && ALL_ONES[63];
    }
  }

  lemma ShiftedBits(words: seq<word>, index: nat, p: nat, n: word, z: nat)
    requires index < |words| && p <= 64 && n == Shift(words[index], p)
    requires z < 64 && n[z] && forall k :: 0 <= k < z ==> !n[k]
    ensures p + z < 64 && forall b :: 64 * index + p <= b < 64 * index + p + z ==> !Marked(words, b)
  {
    forall b | 64 * index + p <= b < 64 * index + p + z ensures !Marked(words, b) {
      var k := b - 64 * index - p;
      assert !n[k];
      BitOf(words, index, p + k);
    }
  }

  lemma ShiftedOnes(words: seq<word>, index: nat, p: nat, n: word, o: nat)
    requires index < |words| && p <= 64 && n == Shift(words[index], p)
    requires n[0] && o < 64 && !n[o] && forall k :: 0 <= k < o ==> n[k]
    ensures 0 < o && p + o <= 64 && forall b :: 64 * index + p <= b < 64 * index + p + o ==> Marked(words, b)
  {
    assert n[o - 1];
    forall b | 64 * index + p <= b < 64 * index + p + o ensures Marked(words, b) {
      var k := b - 64 * index - p;
      assert n[k];
      BitOf(words, index, p + k);
    }
  }

  lemma {:induction false} RestClear(words: seq<word>, index: nat, p: nat, n: word)
    requires index < |words| && p <= 64 && Left(words[index], p, n) && n == ZERO
    ensures forall b :: 64 * index + p <= b < 64 * index + 64 ==> !Marked(words, b)
  {
    forall b | 64 * index + p <= b < 64 * index + 64 ensures !Marked(words, b) {
      var k := b - 64 * index - p;
      assert !Shift(words[index], p)[k];
      BitOf(words, index, p + k);
    }
  }

  /** After a word: the rest of it is not marked.  Where the scan falls short of the word's end, an open run is
      closed and the scan goes on from there; otherwise it has reached the end exactly, or the end, being 2^32, was
      taken for zero. */
  lemma EndOfWord(words: seq<word>, limit: nat, rs: seq<Range>, begin: nat, end: nat, at: nat, index: nat)
    requires Fits(words, limit) && Scanned(words, limit, rs, begin, end, at) && index < |words|
    requires 64 * index <= at <= 64 * index + 64 && forall b :: at <= b < 64 * index + 64 ==> !Marked(words, b)
    ensures end < EndPos(index) ==>
              Scanning(words, limit, Emitted(rs, begin, end), EndPos(index), EndPos(index), EndPos(index))
    ensures end < EndPos(index) ==> EndPos(index) == 64 * index + 64
    ensures end >= EndPos(index) && index + 1 < |words| ==> at == 64 * index + 64
  {
    EndPosIs(index);
    hide Marked, Scanning, RunsTo, EndPos, Ended;
    if end < EndPos(index) {
      Bounds(words, limit, rs, begin, end, at);
      if at < EndPos(index) {
        Zeros(words, limit, rs, begin, end, at, EndPos(index) - at);
      } else {
        CutOff(words, limit, rs, begin, end, at);
      }
    }
  }

  lemma EndPosIs(index: nat)
    requires 64 * index + 64 <= TWO32
    ensures EndPos(index) == if 64 * index + 64 == TWO32 then 0 else 64 * index + 64
  {
  }

  /** A word ends with a marked bit, but the run was cut off before it. */
  lemma CutOff(words: seq<word>, limit: nat, rs: seq<Range>, begin: nat, end: nat, at: nat)
    requires Scanning(words, limit, rs, begin, end, at) && end < at
    ensures Scanning(words, limit, Emitted(rs, begin, end), at, at, at)
  {
    if begin < end {
      RunsPush(words, limit, rs, begin, end, limit);
    }
    RunsLater(words, limit, Emitted(rs, begin, end), limit, at);
  }

  lemma {:induction false} Finish(words: seq<word>, limit: nat, rs: seq<Range>, begin: nat, end: nat, at: nat)
    requires Fits(words, limit) && Scanned(words, limit, rs, begin, end, at) && at <= 64 * |words|
    requires forall b :: at <= b < 64 * |words| ==> !Marked(words, b)
    ensures !Overruns(words, limit) ==> RunsTo(words, limit, Emitted(rs, begin, end), limit)
    ensures Overruns(words, limit) ==> LastLost(words, limit, Emitted(rs, begin, end), begin)
  {
    if at < TWO32 {
      hide Scanning, RunsTo;
      assert 64 * |words| == TWO32 ==> !Marked(words, TWO32 - 1);
      hide Marked;
      Zeros(words, limit, rs, begin, end, at, limit + 1);
    }
  }

  // ---- what is written

  datatype Element = RangeElement(begin: nat, end: nat) | BlockElement(block: nat)

  /** `emit_range`: a run of one is a block. */
  function Written(r: Range): Element
    requires r.begin < r.end
  {
    if r.end > r.begin + 1 then RangeElement(r.begin, r.end) else BlockElement(r.begin)
  }

  predicate Says(e: Element, b: nat) {
    match e
    case RangeElement(begin, end) => begin <= b < end
    case BlockElement(block) => b == block
  }

  /** `emit_blocks`: the elements name exactly the marked blocks below the limit. */
  method EmitBlocks(words: seq<word>, nrBlocks: nat) returns (es: seq<Element>, ghost rs: seq<Range>)
    requires Fits(words, nrBlocks)
    ensures RunsTo(words, nrBlocks, rs, nrBlocks) <==> !Overruns(words, nrBlocks)
    ensures Overruns(words, nrBlocks) ==> exists begin: nat :: LastLost(words, nrBlocks, rs, begin)
    ensures |es| == |rs| && forall i :: 0 <= i < |rs| ==> rs[i].begin < rs[i].end
    ensures forall i :: 0 <= i < |rs| ==>
              es[i] == if rs[i].end == rs[i].begin + 1 then BlockElement(rs[i].begin) else RangeElement(rs[i].begin, rs[i].end)
    ensures !Overruns(words, nrBlocks) ==>
              forall b: nat :: (exists i :: 0 <= i < |es| && Says(es[i], b)) <==> b < nrBlocks && Marked(words, b)
  {
    var runs := ScanRuns(words, nrBlocks);
    rs, es := runs, [];
    AllMaximal(words, nrBlocks, rs);
    for i := 0 to |runs|
      invariant |es| == i && forall k :: 0 <= k < i ==> es[k] == Written(rs[k])
    {
      es := es + [Written(runs[i])];
    }
    hide RunsTo, Overruns, LastLost;
    if !Overruns(words, nrBlocks) {
      forall b: nat ensures (exists i :: 0 <= i < |es| && Says(es[i], b)) <==> b < nrBlocks && Marked(words, b) {
        ElementsSay(words, nrBlocks, rs, es, b);
      }
    }
  }

  lemma {:induction false} AllMaximal(words: seq<word>, limit: nat, rs: seq<Range>)
    requires RunsTo(words, limit, rs, limit) || exists begin: nat :: LastLost(words, limit, rs, begin)
    ensures forall i :: 0 <= i < |rs| ==> Maximal(words, limit, rs[i])
  {
  }

  lemma ElementsSay(words: seq<word>, limit: nat, rs: seq<Range>, es: seq<Element>, b: nat)
    requires RunsTo(words, limit, rs, limit) && |es| == |rs|
    requires forall i :: 0 <= i < |rs| ==> rs[i].begin < rs[i].end && es[i] == Written(rs[i])
    ensures (exists i :: 0 <= i < |es| && Says(es[i], b)) <==> b < limit && Marked(words, b)
  {
    hide Marked;
    if b < limit && Marked(words, b) {
      assert Covered(rs, b);
      var i :| 0 <= i < |rs| && rs[i].begin <= b < rs[i].end;
      assert Says(es[i], b);
    }
    if i :| 0 <= i < |es| && Says(es[i], b) {
      assert Maximal(words, limit, rs[i]);
    }
  }

  datatype MarkedBlocks = MarkedBlocks(begin: nat, len: nat)

  function Ranges(ms: seq<MarkedBlocks>): (rs: seq<Range>)
    ensures |rs| == |ms| && forall i :: 0 <= i < |ms| ==> rs[i] == Range(ms[i].begin, ms[i].begin + ms[i].len)
  {
    seq(|ms|, i requires 0 <= i < |ms| => Range(ms[i].begin, ms[i].begin + ms[i].len))
  }

  /** `dump_writeset`: each maximal run, by its first block and length. */
  method DumpWriteset(words: seq<word>, nrBits: nat) returns (ms: seq<MarkedBlocks>)
    requires Fits(words, nrBits)
    ensures RunsTo(words, nrBits, Ranges(ms), nrBits) <==> !Overruns(words, nrBits)
    ensures Overruns(words, nrBits) ==> exists begin: nat :: LastLost(words, nrBits, Ranges(ms), begin)
    ensures !Overruns(words, nrBits) ==>
              forall b: nat :: (exists i :: 0 <= i < |ms| && ms[i].begin <= b < ms[i].begin + ms[i].len)
                               <==> b < nrBits && Marked(words, b)
    ensures forall i :: 0 <= i < |ms| ==> 0 < ms[i].len
  {
    var runs := ScanRuns(words, nrBits);
    ms := [];
    AllMaximal(words, nrBits, runs);
    for i := 0 to |runs|
      invariant |ms| == i && forall k :: 0 <= k < i ==> 0 < ms[k].len && runs[k] == Range(ms[k].begin, ms[k].begin + ms[k].len)
    {
      ms := ms + [MarkedBlocks(runs[i].begin, runs[i].end - runs[i].begin)];
    }
    assert Ranges(ms) == runs;
    hide RunsTo, Overruns, LastLost, Marked;
    if !Overruns(words, nrBits) {
      forall b: nat
        ensures (exists i :: 0 <= i < |ms| && ms[i].begin <= b < ms[i].begin + ms[i].len) <==> b < nrBits && Marked(words, b)
      {
        RangesSay(words, nrBits, ms, b);
      }
    }
  }

  lemma {:induction false} RangesSay(words: seq<word>, limit: nat, ms: seq<MarkedBlocks>, b: nat)
    requires RunsTo(words, limit, Ranges(ms), limit)
    ensures (exists i :: 0 <= i < |ms| && ms[i].begin <= b < ms[i].begin + ms[i].len) <==> b < limit && Marked(words, b)
  {
    var rs := Ranges(ms);
    if b < limit && Marked(words, b) {
      assert Covered(rs, b);
      var i :| 0 <= i < |rs| && rs[i].begin <= b < rs[i].end;
      assert ms[i].begin <= b < ms[i].begin + ms[i].len;
    }
    if i :| 0 <= i < |ms| && ms[i].begin <= b < ms[i].begin + ms[i].len {
      assert Maximal(words, limit, rs[i]);
    }
  }

  // ---- marking the blocks of late eras

  /** The bits with those set whose era is at least the threshold; values[k] is the era of block first + k. */
  ghost predicate Collated(before: seq<word>, after: seq<word>, first: nat, eras: seq<nat>, threshold: nat) {
    && |after| == |before|
    && forall b: nat :: b < 64 * |before| ==>
         (Marked(after, b) <==> Marked(before, b) || (first <= b < first + |eras| && eras[b - first] >= threshold))
  }

  class EraArrayCollator {
    var composed: seq<word>
    const threshold: nat

    constructor (bitset: seq<word>, threshold: nat)
      ensures composed == bitset && this.threshold == threshold
    {
      composed, this.threshold := bitset, threshold;
    }

    /** Marks the blocks of one block of the era array.  Bits are gathered in a buffer and stored when the next word
        is reached; the visit fails if the bitset ends too early. */
    method Visit(index: nat, maxEntries: nat, values: seq<nat>) returns (ok: bool)
      requires |values| <= maxEntries
      modifies this
      ensures |composed| == |old(composed)|
      ensures ok <==> Reaches(|composed|, index * maxEntries, values)
      ensures ok ==> Collated(old(composed), composed, index * maxEntries, values, threshold)
    {
      var begin := index * maxEntries;
      hide Reaches, Collated;
      ok := VisitFrom(begin, values);
    }

    /** The first block's word and that of each block to be marked are there. */
    ghost predicate Reaches(nrWords: nat, first: nat, values: seq<nat>) {
      && first / 64 < nrWords
      && forall k :: 0 <= k < |values| && values[k] >= threshold ==> (first + k) / 64 < nrWords
    }

    method VisitFrom(first: nat, values: seq<nat>) returns (ok: bool)
      modifies this
      ensures |composed| == |old(composed)| && (ok <==> Reaches(|composed|, first, values))
      ensures ok ==> Collated(old(composed), composed, first, values, threshold)
    {
      hide Collated;
      var idx := first / 64;
      if idx >= |composed| {
        return false;
      }
      var buf := composed[idx];
      ghost var before := composed;
      assert composed[idx := buf] == composed;
      NoneMarked(before, first, threshold);
      for k := 0 to |values|
        invariant |composed| == |before| && first / 64 <= idx < |composed| && idx <= (first + k) / 64
        invariant Collated(before, composed[idx := buf], first, values[..k], threshold)
        invariant forall j :: idx < j < |composed| ==> composed[j] == before[j]
        invariant forall j :: 0 <= j < k && values[j] >= threshold ==> (first + j) / 64 < |composed|
      {
        var blk := first + k;
        assert values[..k + 1] == values[..k] + [values[k]];
        ghost var view := composed[idx := buf];
        if values[k] < threshold {
          SkipOne(before, view, first, values[..k], threshold, values[k]);
          continue;
        }
        var steps := blk / 64 - idx;
        if steps > 0 {
          composed := composed[idx := buf];
          idx := idx + steps;
          if idx >= |composed| {
            return false;
          }
          buf := composed[idx];
          assert composed[idx := buf] == view;
        }
        MarkOne(before, view, first, values[..k], threshold, values[k]);
        buf := Set(buf, blk % 64);
        assert composed[idx := buf] == view[idx := buf];
      }
      assert values[..|values|] == values;
      composed := composed[idx := buf];
      ok := true;
    }
  }

  lemma NoneMarked(words: seq<word>, first: nat, threshold: nat)
    ensures Collated(words, words, first, [], threshold)
  {
  }

  lemma SkipOne(before: seq<word>, now: seq<word>, first: nat, eras: seq<nat>, threshold: nat, era: nat)
    requires Collated(before, now, first, eras, threshold) && era < threshold
    ensures Collated(before, now, first, eras + [era], threshold)
  {
  }

  lemma MarkOne(before: seq<word>, now: seq<word>, first: nat, eras: seq<nat>, threshold: nat, era: nat)
    requires Collated(before, now, first, eras, threshold) && era >= threshold && (first + |eras|) / 64 < |before|
    ensures var b := first + |eras|;
            Collated(before, now[b / 64 := Set(now[b / 64], b % 64)], first, eras + [era], threshold)
  {
    var c := first + |eras|;
    var after := now[c / 64 := Set(now[c / 64], c % 64)];
    forall b: nat | b < 64 * |before|
      ensures Marked(after, b)
              <==> Marked(before, b) || (first <= b < first + |eras + [era]| && (eras + [era])[b - first] >= threshold)
    {
      assert b == c <==> b / 64 == c / 64 && b % 64 == c % 64;
    }
  }
}
