/** Little-endian words in byte sequences, as the structures lie in memory. */
module Bytes {

  type byte = b: int | 0 <= b < 256

  function Pow256(n: nat): (r: nat)
    ensures r > 0
  {
    if n == 0 then 1 else 256 * Pow256(n - 1)
  }

  lemma Powers()
    ensures Pow256(4) == 0x1_0000_0000 && Pow256(8) == 0x1_0000_0000_0000_0000
  {
    assert Pow256(4) == 0x1_0000_0000;
  }

  /** The n low bytes of v, lowest first. */
  function Le(v: nat, n: nat): (bs: seq<byte>)
    ensures |bs| == n
  {
    if n == 0 then [] else [v % 256] + Le(v / 256, n - 1)
  }

  function UnLe(bs: seq<byte>): (v: nat)
    ensures v < Pow256(|bs|)
  {
    if bs == [] then 0 else
      var rest := UnLe(bs[1..]);
      assert 256 * rest + 255 < 256 * (rest + 1) <= 256 * Pow256(|bs| - 1);
      bs[0] + 256 * rest
  }

  /** Lowest byte first. */
  lemma LowestFirst(a: byte, b: byte, c: byte, d: byte)
    ensures UnLe([a, b, c, d]) == a + 0x100 * b + 0x1_0000 * c + 0x100_0000 * d
  {
    assert [d][1..] == [] && UnLe([d]) == d;
    assert [c, d][1..] == [d] && UnLe([c, d]) == c + 0x100 * d;
    assert [b, c, d][1..] == [c, d] && UnLe([b, c, d]) == b + 0x100 * UnLe([c, d]);
    assert [a, b, c, d][1..] == [b, c, d];
  }

  /** A word read back is the word written, cut to its width. */
  lemma {:induction false} UnLeOfLe(v: nat, n: nat)
    ensures UnLe(Le(v, n)) == v % Pow256(n)
  {
    if n > 0 {
      UnLeOfLe(v / 256, n - 1);
      assert Le(v, n)[1..] == Le(v / 256, n - 1);
      ModSplit(v, Pow256(n - 1));
    }
  }

  lemma SmallMod(v: nat, m: nat)
    requires v < m
    ensures v % m == v
  {
    Quotient(v, m, 0, v);
  }

  /** A word that fits its width comes back. */
  lemma WordBack(v: nat, n: nat)
    requires v < Pow256(n)
    ensures UnLe(Le(v, n)) == v
  {
    UnLeOfLe(v, n);
    SmallMod(v, Pow256(n));
  }

  lemma ModSplit(v: nat, m: nat)
    requires m > 0
    ensures v % (256 * m) == v % 256 + 256 * ((v / 256) % m)
  {
    var q, r := v / 256, v % 256;
    var a, b := q / m, q % m;
    assert q == m * a + b;
    assert v == 256 * q + r;
    assert v == 256 * (m * a + b) + r;
    assert v == (256 * m) * a + (256 * b + r);
    assert 0 <= 256 * b + r < 256 * m;
    Quotient(v, 256 * m, a, 256 * b + r);
  }

  lemma Quotient(v: int, d: int, q: int, r: int)
    requires d > 0 && 0 <= r < d && v == d * q + r
    ensures v % d == r && v / d == q
  {
    var q', r' := v / d, v % d;
    assert v == d * q' + r';
    assert d * (q - q') == r' - r;
    SmallMultiple(d, q - q');
  }

  lemma SmallMultiple(d: int, k: int)
    requires d > 0 && -d < d * k < d
    ensures k == 0
  {
  }

  lemma {:induction false} LeOfUnLe(bs: seq<byte>)
    ensures Le(UnLe(bs), |bs|) == bs
  {
    if bs != [] {
      LeOfUnLe(bs[1..]);
      var rest := UnLe(bs[1..]);
      Quotient(bs[0] + 256 * rest, 256, rest, bs[0]);
    }
  }
}
