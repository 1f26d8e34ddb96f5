/** Bytes and the little-endian fixed-width integers that the wire structs are made of. */
module Bytes {

  newtype byte = x: int | 0 <= x < 256

  const UINT32: nat := 0x1_0000_0000
  const UINT16: nat := 0x1_0000

  ghost function Pow256(w: nat): (p: nat)
    ensures p > 0
  {
    if w == 0 then 1 else 256 * Pow256(w - 1)
  }

  lemma Pow256Widths()
    ensures Pow256(2) == UINT16 && Pow256(4) == UINT32
  {
    assert Pow256(1) == 256;
    assert Pow256(2) == 256 * Pow256(1);
    assert Pow256(3) == 256 * Pow256(2);
  }

  /** The `w` bytes a `w`-byte unsigned integer has in memory; higher bits of `n` are cut off. */
  function ToLE(n: nat, w: nat): (s: seq<byte>)
    ensures |s| == w
  {
    if w == 0 then [] else [(n % 256) as byte] + ToLE(n / 256, w - 1)
  }

  function FromLE(s: seq<byte>): (n: nat)
    ensures n < Pow256(|s|)
  {
    if s == [] then 0 else s[0] as nat + 256 * FromLE(s[1..])
  }

  lemma {:induction false} FromToLE(n: nat, w: nat)
    requires n < Pow256(w)
    ensures FromLE(ToLE(n, w)) == n
  {
    if w > 0 {
      FromToLE(n / 256, w - 1);
      assert ToLE(n, w)[1..] == ToLE(n / 256, w - 1);
    }
  }

  lemma {:induction false} ToFromLE(s: seq<byte>)
    ensures ToLE(FromLE(s), |s|) == s
  {
    if s != [] {
      ToFromLE(s[1..]);
      assert (s[0] as nat + 256 * FromLE(s[1..])) / 256 == FromLE(s[1..]);
    }
  }

  predicate AllZero(s: seq<byte>) {
    forall b | b in s :: b == 0
  }

  lemma AllZeroCons(x: byte, s: seq<byte>)
    ensures AllZero([x] + s) <==> x == 0 && AllZero(s)
  {
    assert x in [x] + s;
    assert forall b | b in s :: b in [x] + s;
  }

  lemma {:induction false} ZeroLE(s: seq<byte>)
    ensures FromLE(s) == 0 <==> AllZero(s)
  {
    if s != [] {
      ZeroLE(s[1..]);
      AllZeroCons(s[0], s[1..]);
      assert s == [s[0]] + s[1..];
    }
  }

  lemma UniqueRemainder(n: nat, m: nat, d: nat, r: nat)
    requires m > 0 && n == m * d + r && r < m
    ensures n % m == r && n / m == d
  {
    var e := d - n / m;
    assert m * e == n % m - r;
    assert e == 0 by {
      assert e >= 1 ==> m * e >= m;
      assert e <= -1 ==> m * (-e) >= m;
    }
  }

  lemma SplitRemainder(n: nat, p: nat)
    requires p > 0
    ensures n % (256 * p) == 256 * ((n / 256) % p) + n % 256
  {
    var q := n / 256;
    var d, m := q / p, q % p;
    assert q == p * d + m && n == 256 * q + n % 256;
    assert n == (256 * p) * d + (256 * m + n % 256);
    UniqueRemainder(n, 256 * p, d, 256 * m + n % 256);
  }

  lemma DivisibleSplit(n: nat, p: nat)
    requires p > 0
    ensures n % (256 * p) == 0 <==> n % 256 == 0 && (n / 256) % p == 0
  {
    SplitRemainder(n, p);
  }

  /** The first `k` bytes are zero exactly when 256^k divides the number. */
  lemma {:induction false} LowBytesZero(n: nat, w: nat, k: nat)
    requires k <= w
    ensures AllZero(ToLE(n, w)[..k]) <==> n % Pow256(k) == 0
  {
    if k > 0 {
      LowBytesZero(n / 256, w - 1, k - 1);
      var s := ToLE(n, w);
      assert s[..k] == [s[0]] + ToLE(n / 256, w - 1)[..k - 1];
      AllZeroCons(s[0], ToLE(n / 256, w - 1)[..k - 1]);
      DivisibleSplit(n, Pow256(k - 1));
    }
  }

  lemma CutParts(n: nat, p: nat)
    requires p > 0
    ensures var r := n % (256 * p); r % 256 == n % 256 && r / 256 == (n / 256) % p
  {
    SplitRemainder(n, p);
    UniqueRemainder(n % (256 * p), 256, (n / 256) % p, n % 256);
  }

  /** Writing a number in `w` bytes cuts off what does not fit. */
  lemma {:induction false} ToLECuts(n: nat, w: nat)
    ensures ToLE(n, w) == ToLE(n % Pow256(w), w)
  {
    if w > 0 {
      CutParts(n, Pow256(w - 1));
      ToLECuts(n / 256, w - 1);
    }
  }
}
