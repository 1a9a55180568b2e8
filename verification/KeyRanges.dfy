/** `KeyRange` and `split_key_ranges` of src/pdata/btree_error.rs. */
module KeyRanges {
  import opened Wrappers
  import opened Sequences

  /** The keys k with start <= k < end; a missing bound is open. */
  datatype KeyRange = KeyRange(start: Option<nat>, end: Option<nat>) {
    predicate Contains(k: nat) {
      (start.Some? ==> start.value <= k) && (end.Some? ==> k < end.value)
    }

    /** None if either part would be empty. */
    function Split(n: nat): Option<(KeyRange, KeyRange)> {
      if (start.Some? && n <= start.value) || (end.Some? && end.value <= n) then None
      else Some((KeyRange(start, Some(n)), KeyRange(Some(n), end)))
    }
  }

  /** The ranges of the remaining children, given the range left to share out among them. */
  function SplitRest(kr: KeyRange, keys: seq<nat>): (r: Option<seq<KeyRange>>)
    ensures r.Some? ==> |r.value| == |keys| + 1
    decreases |keys|
  {
    if keys == [] then Some([kr])
    else
      match kr.Split(keys[0])
      case None => None
      case Some((first, rest)) =>
        match SplitRest(rest, keys[1..])
        case None => None
        case Some(krs) => Some([first] + krs)
  }

  /** One range per child.  The first key, not the range's own start, gives the lower bound. */
  function SplitKeyRanges(kr: KeyRange, keys: seq<nat>): (r: Option<seq<KeyRange>>)
    ensures r.Some? ==> |r.value| == |keys|
  {
    if keys == [] then None else SplitRest(KeyRange(Some(keys[0]), kr.end), keys[1..])
  }

  /** `split_key_ranges`: the loop peels one range off at each key after the first. */
  method SplitRanges(kr: KeyRange, keys: seq<nat>) returns (r: Option<seq<KeyRange>>)
    ensures r == SplitKeyRanges(kr, keys)
  {
    if keys == [] {
      return None;
    }
    var krs, rest := [], KeyRange(Some(keys[0]), kr.end);
    assert SplitRest(rest, keys[1..]).Some? ==> krs + SplitRest(rest, keys[1..]).value == SplitRest(rest, keys[1..]).value;
    for i := 1 to |keys|
      invariant match SplitRest(rest, keys[i..])
                case None => SplitKeyRanges(kr, keys) == None
                case Some(more) => SplitKeyRanges(kr, keys) == Some(krs + more)
    {
      assert keys[i..][1..] == keys[i + 1..];
      match rest.Split(keys[i]) {
        case None =>
          return None;
        case Some((first, next)) =>
          assert SplitRest(next, keys[i + 1..]).Some? ==>
              krs + ([first] + SplitRest(next, keys[i + 1..]).value) == krs + [first] + SplitRest(next, keys[i + 1..]).value;
          krs, rest := krs + [first], next;
      }
    }
    return Some(krs + [rest]);
  }

  lemma AscendingCons(k: nat, keys: seq<nat>)
    requires keys != []
    ensures Ascending([k] + keys) <==> k < keys[0] && Ascending(keys)
  {
    var ks := [k] + keys;
    assert ks[0] == k && ks[1] == keys[0];
    assert forall i :: 0 <= i < |keys| ==> ks[i + 1] == keys[i];
  }

  /** The keys can be shared out exactly when they ascend and all but the first lie below the range's end. */
  lemma {:induction false} SplitRestWhen(kr: KeyRange, keys: seq<nat>)
    requires kr.start.Some?
    ensures SplitRest(kr, keys).Some? <==>
            Ascending([kr.start.value] + keys) && forall k :: k in keys && kr.end.Some? ==> k < kr.end.value
    decreases |keys|
  {
    if keys != [] {
      AscendingCons(kr.start.value, keys);
      assert keys == [keys[0]] + keys[1..];
      if kr.Split(keys[0]).Some? {
        SplitRestWhen(KeyRange(Some(keys[0]), kr.end), keys[1..]);
        assert SplitRest(kr, keys).Some? <==> SplitRest(KeyRange(Some(keys[0]), kr.end), keys[1..]).Some?;
        assert forall k :: k in keys <==> k == keys[0] || k in keys[1..];
      } else {
        assert keys[0] in keys;
      }
    }
  }

  /** Child i's range holds exactly the keys from its own key up to the next one, or up to the range's end. */
  lemma {:induction false} SplitRestCovers(kr: KeyRange, keys: seq<nat>, i: nat, k: nat)
    requires kr.start.Some? && SplitRest(kr, keys).Some? && i <= |keys|
    ensures var ks := [kr.start.value] + keys;
            SplitRest(kr, keys).value[i].Contains(k) <==>
            ks[i] <= k && if i < |keys| then k < ks[i + 1] else kr.end.Some? ==> k < kr.end.value
    decreases |keys|
  {
    if i > 0 {
      SplitRestCovers(KeyRange(Some(keys[0]), kr.end), keys[1..], i - 1, k);
      assert [keys[0]] + keys[1..] == keys;
    }
  }
}
