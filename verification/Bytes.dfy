/** Bytes, and numbers stored in a fixed number of bytes with the low byte first. */
module Bytes {
  type Byte = x: int | 0 <= x < 256

  function Pow256(width: nat): (p: int)
    ensures p > 0
  {
    if width == 0 then 1 else 256 * Pow256(width - 1)
  }

  function ToBytes(n: int, width: nat): (s: seq<Byte>)
    ensures |s| == width
    decreases width
  {
    if width == 0 then [] else [n % 256] + ToBytes(n / 256, width - 1)
  }

  function FromBytes(s: seq<Byte>): (n: int)
    ensures 0 <= n < Pow256(|s|)
  {
    if s == [] then 0 else s[0] + 256 * FromBytes(s[1..])
  }

  /** What fits comes back. */
  lemma {:induction false} BytesRoundTrip(n: int, width: nat)
    requires 0 <= n < Pow256(width)
    ensures FromBytes(ToBytes(n, width)) == n
    decreases width
  {
    if width > 0 {
      BytesRoundTrip(n / 256, width - 1);
      assert ToBytes(n, width)[1..] == ToBytes(n / 256, width - 1);
    }
  }

  /** Byte i is digit i of the number to the base 256; of a negative one as well, whose digits go on forever with 255:
      two's complement. */
  ghost predicate LowFirst(s: seq<Byte>, n: int) {
    forall i :: 0 <= i < |s| ==> s[i] == n / Pow256(i) % 256
  }

  lemma Quotient(n: int, d: int, q: int, r: int)
    requires n == d * q + r && 0 <= r < d
    ensures n / d == q
  {
    var p, t := n / d, n % d;
    assert n == d * p + t && 0 <= t < d;
    assert d * (p - q) == r - t;
    assert p - q >= 1 ==> d * (p - q) >= d;
    assert p - q <= -1 ==> d * (p - q) <= -d;
  }

  lemma DivideTwice(n: int, d: int)
    requires d > 0
    ensures n / 256 / d == n / (256 * d)
  {
    var a, r := n / 256, n % 256;
    var b, s := a / d, a % d;
    assert a == d * b + s;
    assert n == 256 * (d * b + s) + r == (256 * d) * b + (256 * s + r);
    Quotient(n, 256 * d, b, 256 * s + r);
  }

  lemma {:induction false} StoredLowFirst(n: int, width: nat)
    ensures LowFirst(ToBytes(n, width), n)
    decreases width
  {
    if width > 0 {
      StoredLowFirst(n / 256, width - 1);
      var s, rest := ToBytes(n, width), ToBytes(n / 256, width - 1);
      assert s == [n % 256] + rest && Pow256(0) == 1;
      forall i | 0 <= i < |s|
        ensures s[i] == n / Pow256(i) % 256
      {
        if i > 0 {
          assert s[i] == rest[i - 1] == n / 256 / Pow256(i - 1) % 256;
          DivideTwice(n, Pow256(i - 1));
        }
      }
    }
  }

  lemma Powers()
    ensures Pow256(2) == 0x1_0000 && Pow256(4) == 0x1_0000_0000 && Pow256(8) == 0x1_0000_0000_0000_0000
  {
    assert Pow256(2) == 256 * Pow256(1);
    assert Pow256(4) == 256 * Pow256(3) && Pow256(3) == 256 * Pow256(2);
    assert Pow256(6) == 256 * Pow256(5) && Pow256(5) == 256 * Pow256(4);
    assert Pow256(8) == 256 * Pow256(7) && Pow256(7) == 256 * Pow256(6);
  }

  /** A signed number in two's complement. */
  function ToSigned(n: int, width: nat): (s: seq<Byte>)
    ensures |s| == width
  {
    ToBytes(if n < 0 then n + Pow256(width) else n, width)
  }

  function FromSigned(s: seq<Byte>): (n: int) {
    var u := FromBytes(s);
    if 2 * u < Pow256(|s|) then u else u - Pow256(|s|)
  }

  lemma {:induction false} PowerDrops(n: int, width: nat)
    ensures ToBytes(n + Pow256(width), width) == ToBytes(n, width)
    decreases width
  {
    if width > 0 {
      var p := Pow256(width - 1);
      assert (n + 256 * p) % 256 == n % 256 && (n + 256 * p) / 256 == n / 256 + p;
      PowerDrops(n / 256, width - 1);
    }
  }

  /** A signed number is stored in two's complement, low byte first. */
  lemma SignedLowFirst(n: int, width: nat)
    ensures LowFirst(ToSigned(n, width), n)
  {
    hide ToBytes, LowFirst;
    PowerDrops(n, width);
    StoredLowFirst(n, width);
  }

  ghost predicate FitsSigned(n: int, width: nat) {
    -Pow256(width) <= 2 * n < Pow256(width)
  }

  lemma SignedRoundTrip(n: int, width: nat)
    requires FitsSigned(n, width)
    ensures FromSigned(ToSigned(n, width)) == n
  {
    BytesRoundTrip(if n < 0 then n + Pow256(width) else n, width);
  }
}
