/** Big-endian numbers. */
module Bytes {

  type byte = x: int | 0 <= x < 256

  function Pow256(n: nat): (p: int)
    ensures p >= 1
  {
    if n == 0 then 1 else 256 * Pow256(n - 1)
  }

  lemma {:induction false} Pow256Adds(a: nat, b: nat)
    ensures Pow256(a + b) == Pow256(a) * Pow256(b)
  {
    if b > 0 {
      Pow256Adds(a, b - 1);
      var x, y := Pow256(a), Pow256(b - 1);
      assert x * (256 * y) == 256 * (x * y);
    }
  }

  /** The n low-order bytes of v, most significant first. */
  function BigEndian(v: nat, n: nat): (bs: seq<byte>)
    ensures |bs| == n
  {
    if n == 0 then [] else BigEndian(v / 256, n - 1) + [v % 256]
  }

  /** The number that a sequence of bytes spells. */
  function Word(bs: seq<byte>): nat {
    if bs == [] then 0 else Word(bs[..|bs| - 1]) * 256 + bs[|bs| - 1]
  }

  lemma {:induction false} WordOfBigEndian(v: nat, n: nat)
    requires v < Pow256(n)
    ensures Word(BigEndian(v, n)) == v
  {
    if n > 0 {
      WordOfBigEndian(v / 256, n - 1);
      assert BigEndian(v, n)[..n - 1] == BigEndian(v / 256, n - 1);
    }
  }

  /** High and low parts are spelled separately. */
  lemma {:induction false} BigEndianSplits(hi: nat, lo: nat, n: nat, m: nat)
    requires lo < Pow256(m)
    ensures BigEndian(hi * Pow256(m) + lo, n + m) == BigEndian(hi, n) + BigEndian(lo, m)
  {
    if m == 0 {
      assert BigEndian(lo, 0) == [];
    } else {
      var v := hi * Pow256(m) + lo;
      SplitDigit(hi, lo, Pow256(m - 1));
      BigEndianSplits(hi, lo / 256, n, m - 1);
      assert BigEndian(v, n + m) == BigEndian(v / 256, n + m - 1) + [v % 256];
      assert BigEndian(lo, m) == BigEndian(lo / 256, m - 1) + [lo % 256];
    }
  }

  lemma SplitDigit(hi: nat, lo: nat, p: nat)
    ensures var v := hi * (256 * p) + lo;
            v >= 0 && v / 256 == hi * p + lo / 256 && v % 256 == lo % 256
  {
    var q := hi * p;
    assert hi * (256 * p) == 256 * q;
    assert (256 * q + lo) / 256 == q + lo / 256;
  }
}
