/** The 64 bit words of on-disk bitsets, as their bits, lowest first. */
module BitWords {
  type word = w: seq<bool> | |w| == 64 witness seq(64, i => false)
  type index = k: nat | k < 64

  const ZERO: word := seq(64, i => false)
  const ALL_ONES: word := seq(64, i => true)

  predicate Bit(w: word, k: index) {
    w[k]
  }

  /** `w & !(1 << k)` */
  function Clear(w: word, k: index): word {
    w[k := false]
  }

  /** `w | (1 << k)` */
  function Set(w: word, k: index): word {
    w[k := true]
  }

  /** `w >> z` */
  function Shift(w: word, z: nat): word
    requires z <= 64
  {
    w[z..] + seq(z, i => false)
  }

  lemma ClearBit(w: word, i: index, k: index)
    ensures Bit(Clear(w, i), k) <==> k != i && Bit(w, k)
  {
  }

  lemma SetBit(w: word, i: index, k: index)
    ensures Bit(Set(w, i), k) <==> k == i || Bit(w, k)
  {
  }

  /** The position of the lowest bit that is set. */
  method TrailingZeros(w: word) returns (z: index)
    requires w != ZERO
    ensures w[z] && forall k :: 0 <= k < z ==> !w[k]
  {
    var i := 0;
    while i < 64 && !w[i]
      invariant 0 <= i <= 64 && forall k :: 0 <= k < i ==> !w[k]
    {
      i := i + 1;
    }
    assert i == 64 ==> w == ZERO;
    z := i;
  }

  /** The number of bits set below the lowest that is not. */
  method TrailingOnes(w: word) returns (o: index)
    requires w != ALL_ONES
    ensures !w[o] && forall k :: 0 <= k < o ==> w[k]
  {
    var i := 0;
    while i < 64 && w[i]
      invariant 0 <= i <= 64 && forall k :: 0 <= k < i ==> w[k]
    {
      i := i + 1;
    }
    assert i == 64 ==> w == ALL_ONES;
    o := i;
  }
}
