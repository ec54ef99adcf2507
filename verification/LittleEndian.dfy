/** Fixed-width little-endian numbers. */
module LittleEndian {
  import opened Prelude

  function Pow256(w: nat): (p: nat)
    ensures p > 0
  {
    if w == 0 then 1 else 256 * Pow256(w - 1)
  }

  /** The `w` low bytes of `n`, least significant first. */
  function LE(n: nat, w: nat): (bs: seq<byte>)
    ensures |bs| == w
  {
    if w == 0 then [] else [n % 256] + LE(n / 256, w - 1)
  }

  function FromLE(bs: seq<byte>): nat {
    if bs == [] then 0 else bs[0] + 256 * FromLE(bs[1..])
  }

  lemma {:induction false} FromLEBound(bs: seq<byte>)
    ensures FromLE(bs) < Pow256(|bs|)
  {
    if bs != [] { FromLEBound(bs[1..]); }
  }

  lemma {:induction false} ReadBack(n: nat, w: nat)
    requires n < Pow256(w)
    ensures FromLE(LE(n, w)) == n
  {
    if w > 0 {
      ReadBack(n / 256, w - 1);
      assert LE(n, w)[1..] == LE(n / 256, w - 1);
    }
  }

  lemma {:induction false} WriteBack(bs: seq<byte>)
    ensures LE(FromLE(bs), |bs|) == bs
  {
    if bs != [] {
      WriteBack(bs[1..]);
      assert FromLE(bs) / 256 == FromLE(bs[1..]);
    }
  }

  /** Byte `k` is digit `k` of the number to the base 256. */
  lemma {:induction false} LEByte(n: nat, w: nat, k: nat)
    requires k < w
    ensures LE(n, w)[k] == n / Pow256(k) % 256
  {
    if k > 0 {
      LEByte(n / 256, w - 1, k - 1);
      DivTwice(n, Pow256(k - 1));
    }
  }

  lemma DivTwice(n: nat, p: nat)
    requires p > 0
    ensures n / 256 / p == n / (256 * p)
  {
    var m := n / 256;
    var q, r := m / p, m % p;
    QuotientIs(n, 256 * p, q, 256 * r + n % 256) by {
      assert m == q * p + r;
      assert q * (256 * p) == 256 * (q * p);
    }
  }

  lemma QuotientIs(n: nat, d: nat, q: nat, r: nat)
    requires r < d && n == q * d + r
    ensures n / d == q
  {
    var t := n / d;
    assert n == t * d + n % d;
    Grows(t, q, d);
    Grows(q, t, d);
  }

  lemma Grows(a: int, b: int, d: nat)
    ensures a < b ==> (a + 1) * d <= b * d
  {}

  lemma OneByte(n: nat)
    requires n < 256
    ensures LE(n, 1) == [n]
  {}

  lemma Widths()
    ensures Pow256(4) == UINT32 && Pow256(8) == UINT64
  {
    assert Pow256(1) == 256 && Pow256(2) == 0x1_0000 && Pow256(3) == 0x100_0000;
    assert Pow256(5) == 0x100_0000_0000 && Pow256(6) == 0x1_0000_0000_0000 && Pow256(7) == 0x100_0000_0000_0000;
  }
}
