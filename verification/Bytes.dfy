/** Machine integers and their little endian bytes. */
module Bytes {
  type byte = x: int | 0 <= x < 256

  const TWO64: int := 0x1_0000_0000_0000_0000

  type u64 = x: int | 0 <= x < 0x1_0000_0000_0000_0000

  function Pow256(w: nat): (p: nat)
    ensures p > 0
  {
    if w == 0 then 1 else 256 * Pow256(w - 1)
  }

  /** The w lowest bytes of n, least significant first. */
  function ToLE(n: nat, w: nat): (bs: seq<byte>)
    ensures |bs| == w
  {
    if w == 0 then [] else [n % 256] + ToLE(n / 256, w - 1)
  }

  function FromLE(bs: seq<byte>): (n: nat)
    ensures n < Pow256(|bs|)
  {
    if bs == [] then 0 else bs[0] + 256 * FromLE(bs[1..])
  }

  lemma {:induction false} FromToLE(n: nat, w: nat)
    requires n < Pow256(w)
    ensures FromLE(ToLE(n, w)) == n
  {
    if w > 0 {
      assert ToLE(n, w)[1..] == ToLE(n / 256, w - 1);
      FromToLE(n / 256, w - 1);
    }
  }

  lemma {:induction false} ToFromLE(bs: seq<byte>)
    ensures ToLE(FromLE(bs), |bs|) == bs
  {
    if bs != [] {
      ToFromLE(bs[1..]);
      assert bs == [bs[0]] + bs[1..];
    }
  }

  lemma Powers()
    ensures Pow256(1) == 0x100 && Pow256(2) == 0x1_0000 && Pow256(4) == 0x1_0000_0000
    ensures Pow256(8) == 0x1_0000_0000_0000_0000
  {
    assert Pow256(3) == 0x100_0000;
    assert Pow256(5) == 0x100_0000_0000;
    assert Pow256(6) == 0x1_0000_0000_0000;
    assert Pow256(7) == 0x100_0000_0000_0000;
  }

  /** The bytes of a run of u64s. */
  function ToLE64(ns: seq<u64>): (bs: seq<byte>)
    ensures |bs| == 8 * |ns|
  {
    if ns == [] then [] else ToLE(ns[0], 8) + ToLE64(ns[1..])
  }

  /** The u64s in a run of bytes; a trailing fragment is ignored. */
  function FromLE64(bs: seq<byte>): (ns: seq<u64>)
    ensures |ns| == |bs| / 8
  {
    if |bs| < 8 then []
    else
      Powers();
      [FromLE(bs[..8])] + FromLE64(bs[8..])
  }

  lemma {:induction false} FromToLE64(ns: seq<u64>)
    ensures FromLE64(ToLE64(ns)) == ns
  {
    if ns != [] {
      Powers();
      FromToLE(ns[0], 8);
      assert ToLE64(ns)[..8] == ToLE(ns[0], 8) && ToLE64(ns)[8..] == ToLE64(ns[1..]);
      FromToLE64(ns[1..]);
    }
  }

  lemma {:induction false} ToFromLE64(bs: seq<byte>)
    requires |bs| % 8 == 0
    ensures ToLE64(FromLE64(bs)) == bs
  {
    if bs != [] {
      ToFromLE(bs[..8]);
      ToFromLE64(bs[8..]);
      assert FromLE64(bs)[1..] == FromLE64(bs[8..]);
      assert bs == bs[..8] + bs[8..];
    }
  }

  lemma {:induction false} ToLE64Concat(a: seq<u64>, b: seq<u64>)
    ensures ToLE64(a + b) == ToLE64(a) + ToLE64(b)
  {
    if a == [] {
      assert a + b == b;
    } else {
      assert (a + b)[1..] == a[1..] + b;
      ToLE64Concat(a[1..], b);
    }
  }

  /** The bytes past the end of a small number are zero. */
  lemma {:induction false} HighByteZero(n: nat, w: nat, k: nat)
    requires k < w && n < Pow256(k)
    ensures ToLE(n, w)[k] == 0
  {
    if k > 0 {
      HighByteZero(n / 256, w - 1, k - 1);
    }
  }
}
