/** Sequences: of sequences, without repeats, and in order. */
module Sequences {
  function Flatten<T>(blocks: seq<seq<T>>): seq<T> {
    if blocks == [] then [] else Flatten(blocks[..|blocks| - 1]) + blocks[|blocks| - 1]
  }

  lemma {:induction false} FlattenPush<T>(blocks: seq<seq<T>>, block: seq<T>)
    ensures Flatten(blocks + [block]) == Flatten(blocks) + block
  {
    assert (blocks + [block])[..|blocks|] == blocks;
  }

  lemma {:induction false} FlattenPrefix<T>(blocks: seq<seq<T>>, n: nat)
    requires n < |blocks|
    ensures Flatten(blocks[..n + 1]) == Flatten(blocks[..n]) + blocks[n]
    ensures Flatten(blocks[..n + 1]) <= Flatten(blocks)
    decreases |blocks|
  {
    assert blocks[..n + 1][..n] == blocks[..n];
    if n + 1 < |blocks| {
      FlattenPrefix(blocks[..|blocks| - 1], n);
      assert blocks[..|blocks| - 1][..n + 1] == blocks[..n + 1];
    } else {
      assert blocks[..n + 1] == blocks;
    }
  }

  /** n copies of v. */
  function Fill<T>(v: T, n: nat): (vs: seq<T>)
    ensures |vs| == n && forall i :: 0 <= i < n ==> vs[i] == v
  {
    seq(n, i => v)
  }

  ghost predicate NoRepeats(bs: seq<nat>) {
    forall i, j :: 0 <= i < j < |bs| ==> bs[i] != bs[j]
  }

  function Members(bs: seq<nat>): set<nat> {
    set b | b in bs
  }

  predicate Ascending(ks: seq<nat>) {
    forall i, j :: 0 <= i < j < |ks| ==> ks[i] < ks[j]
  }

  datatype Found = Hit(i: nat) | Miss(i: nat)

  /** A slice's `binary_search`: the index of the key, or where it would go. */
  method BinarySearch(keys: seq<nat>, key: nat) returns (r: Found)
    requires Ascending(keys)
    ensures r.i <= |keys| && (forall j :: 0 <= j < r.i ==> keys[j] < key)
    ensures r.Hit? ==> r.i < |keys| && keys[r.i] == key
    ensures r.Miss? ==> forall j :: r.i <= j < |keys| ==> key < keys[j]
  {
    var lo, hi := 0, |keys|;
    while lo < hi
      invariant lo <= hi <= |keys|
      invariant forall j :: 0 <= j < lo ==> keys[j] < key
      invariant forall j :: hi <= j < |keys| ==> key < keys[j]
    {
      var mid := lo + (hi - lo) / 2;
      if keys[mid] == key {
        return Hit(mid);
      } else if keys[mid] < key {
        lo := mid + 1;
      } else {
        hi := mid;
      }
    }
    return Miss(lo);
  }

  ghost predicate SortedBy<T>(list: seq<T>, key: T -> nat) {
    forall i, j :: 0 <= i < j < |list| ==> key(list[i]) <= key(list[j])
  }

  /** A slice's `sort_by` on a key. */
  method SortBy<T(==)>(list: seq<T>, key: T -> nat) returns (r: seq<T>)
    ensures multiset(r) == multiset(list) && SortedBy(r, key)
  {
    r := [];
    for i := 0 to |list|
      invariant multiset(r) == multiset(list[..i]) && SortedBy(r, key)
    {
      var j := |r|;
      while j > 0 && key(r[j - 1]) > key(list[i])
        invariant 0 <= j <= |r| && forall k :: j <= k < |r| ==> key(list[i]) < key(r[k])
      {
        j := j - 1;
      }
      assert list[..i + 1] == list[..i] + [list[i]];
      Inserted(r, j, list[i]);
      InsertedSorted(r, key, j, list[i]);
      r := r[..j] + [list[i]] + r[j..];
    }
    assert list[..|list|] == list;
  }

  lemma {:induction false} Inserted<T>(list: seq<T>, j: nat, t: T)
    requires j <= |list|
    ensures multiset(list[..j] + [t] + list[j..]) == multiset(list) + multiset{t}
  {
    assert list == list[..j] + list[j..];
  }

  lemma {:induction false} InsertedSorted<T>(list: seq<T>, key: T -> nat, j: nat, t: T)
    requires SortedBy(list, key) && j <= |list| && (forall k :: j <= k < |list| ==> key(t) < key(list[k]))
    requires j > 0 ==> key(list[j - 1]) <= key(t)
    ensures SortedBy(list[..j] + [t] + list[j..], key)
  {
    var r := list[..j] + [t] + list[j..];
    assert forall k :: 0 <= k < j ==> r[k] == list[k] && key(r[k]) <= key(t);
    assert r[j] == t;
    assert forall k :: j < k < |r| ==> r[k] == list[k - 1];
  }
}
