/** Bytes as integers, and the two bit operations on them that the codecs need. */
module Bytes {

  type byte = n: int | 0 <= n < 256

  function Pow2(k: nat): (p: nat)
    ensures p > 0
  {
    if k == 0 then 1 else 2 * Pow2(k - 1)
  }

  /** Exclusive or of two k-bit numbers, lowest bit first. */
  function XorBits(a: nat, b: nat, k: nat): (r: nat)
    requires a < Pow2(k) && b < Pow2(k)
    ensures r < Pow2(k)
  {
    if k == 0 then 0
    else (if a % 2 == b % 2 then 0 else 1) + 2 * XorBits(a / 2, b / 2, k - 1)
  }

  lemma XorSplits(a: nat, b: nat, n: nat)
    requires a < Pow2(n) && b < Pow2(n) && n > 0
    ensures a / 2 < Pow2(n - 1) && b / 2 < Pow2(n - 1)
    ensures XorBits(a, b, n) / 2 == XorBits(a / 2, b / 2, n - 1) && XorBits(a, b, n) % 2 == (a % 2 + b % 2) % 2
  {
  }

  lemma {:induction false} XorBitsTwice(a: nat, b: nat, k: nat)
    requires a < Pow2(k) && b < Pow2(k)
    ensures XorBits(XorBits(a, b, k), b, k) == a
  {
    if k > 0 {
      XorSplits(a, b, k);
      XorSplits(XorBits(a, b, k), b, k);
      XorBitsTwice(a / 2, b / 2, k - 1);
      hide XorBits;
    }
  }

  lemma BytePow()
    ensures Pow2(8) == 256
  {
  }

  /** `a ^ b` on unsigned chars. */
  function Xor(a: byte, b: byte): byte {
    BytePow();
    XorBits(a, b, 8)
  }

  lemma XorTwice(a: byte, b: byte)
    ensures Xor(Xor(a, b), b) == a
  {
    BytePow();
    XorBitsTwice(a, b, 8);
  }

  // ----- the bits of a byte -----

  /** x has exactly those bits of a inverted that are set in b. */
  predicate Inverts(x: byte, a: byte, b: byte) {
    forall k :: 0 <= k < 8 ==> x / Pow2(k) % 2 == (a / Pow2(k) % 2 + b / Pow2(k) % 2) % 2
  }

  /** Exclusive or is the one byte that inverts the bits of a that are set in b. */
  lemma XorIff(x: byte, a: byte, b: byte)
    ensures x == Xor(a, b) <==> Inverts(x, a, b)
  {
    BytePow();
    XorInverts(a, b);
    if Inverts(x, a, b) {
      forall k | 0 <= k < 8 ensures Bit(x, k) == Bit(Xor(a, b), k) {
        BitIs(x, k);
        BitIs(Xor(a, b), k);
      }
      hide Bit, Xor;
      SameBits(x, Xor(a, b), 8);
    }
  }

  /** The k-th bit, counted from the lowest. */
  function Bit(v: nat, k: nat): (b: nat)
    ensures b < 2
  {
    if k == 0 then v % 2 else Bit(v / 2, k - 1)
  }

  lemma {:induction false} BitIs(v: nat, k: nat)
    ensures Bit(v, k) == v / Pow2(k) % 2
  {
    if k == 0 {
      assert Pow2(0) == 1;
    } else {
      BitIs(v / 2, k - 1);
      HigherBit(v, k);
      hide Pow2;
    }
  }

  lemma {:induction false} XorBitAt(a: nat, b: nat, n: nat, k: nat)
    requires a < Pow2(n) && b < Pow2(n) && k < n
    ensures Bit(XorBits(a, b, n), k) == (Bit(a, k) + Bit(b, k)) % 2
  {
    if k > 0 {
      XorBitAt(a / 2, b / 2, n - 1, k - 1);
    }
  }

  /** One more bit at the low end. */
  lemma XorNext(a: nat, b: nat, n: nat, r: nat)
    requires a / 2 < Pow2(n) && b / 2 < Pow2(n) && XorBits(a / 2, b / 2, n) == r
    ensures a < Pow2(n + 1) && b < Pow2(n + 1) && XorBits(a, b, n + 1) == (a % 2 + b % 2) % 2 + 2 * r
  {
  }

  lemma XorInverts(a: byte, b: byte)
    ensures Inverts(Xor(a, b), a, b)
  {
    BytePow();
    forall k | 0 <= k < 8
      ensures Xor(a, b) / Pow2(k) % 2 == (a / Pow2(k) % 2 + b / Pow2(k) % 2) % 2
    {
      XorBitAt(a, b, 8, k);
      BitIs(Xor(a, b), k);
      BitIs(a, k);
      BitIs(b, k);
      hide *;
    }
  }

  lemma {:induction false} SameBits(x: nat, y: nat, n: nat)
    requires x < Pow2(n) && y < Pow2(n)
    requires forall k :: 0 <= k < n ==> Bit(x, k) == Bit(y, k)
    ensures x == y
  {
    if n > 0 {
      assert Bit(x, 0) == Bit(y, 0);
      forall k | 0 <= k < n - 1 ensures Bit(x / 2, k) == Bit(y / 2, k) {
        assert Bit(x, k + 1) == Bit(y, k + 1);
      }
      SameBits(x / 2, y / 2, n - 1);
    }
  }

  lemma HigherBit(v: nat, k: nat)
    requires k > 0
    ensures v / Pow2(k) == v / 2 / Pow2(k - 1)
  {
    var p := Pow2(k - 1);
    var q, r := v / 2 / p, v / 2 % p;
    Divided(v / 2, p);
    Distribute(q, p);
    Quotient(v, 2 * p, q, 2 * r + v % 2);
  }

  lemma Divided(v: nat, d: nat)
    requires d > 0
    ensures v == v / d * d + v % d && 0 <= v % d < d
  {
  }

  lemma Distribute(q: nat, p: nat)
    ensures q * (2 * p) == 2 * (q * p)
  {
  }

  lemma Quotient(v: nat, d: nat, q: nat, r: nat)
    requires v == q * d + r && r < d
    ensures v / d == q
  {
    Divided(v, d);
    var k := v / d - q;
    Multiple(k, d);
    assert k * d == v / d * d - q * d;
  }

  lemma Multiple(k: int, d: nat)
    ensures (k >= 1 ==> k * d >= d) && (k <= -1 ==> k * d + d <= 0)
  {
  }

  /** The k low-order bytes of n, most significant first (network byte order). */
  function BigEndian(n: nat, k: nat): (s: seq<byte>)
    ensures |s| == k
  {
    if k == 0 then [] else BigEndian(n / 256, k - 1) + [n % 256]
  }

  function FromBigEndian(s: seq<byte>): nat {
    if s == [] then 0 else 256 * FromBigEndian(s[..|s| - 1]) + s[|s| - 1]
  }

  function Pow256(k: nat): (p: nat)
    ensures p > 0
  {
    if k == 0 then 1 else 256 * Pow256(k - 1)
  }

  lemma {:induction false} BigEndianRoundTrip(n: nat, k: nat)
    requires n < Pow256(k)
    ensures FromBigEndian(BigEndian(n, k)) == n
  {
    if k > 0 {
      BigEndianRoundTrip(n / 256, k - 1);
      assert BigEndian(n, k)[..k - 1] == BigEndian(n / 256, k - 1);
    }
  }

  /** Network byte order, byte by byte. */
  lemma BigEndianMeaning(n: nat)
    ensures BigEndian(n, 2) == [n / 256 % 256, n % 256]
    ensures BigEndian(n, 4) == [n / 0x100_0000 % 256, n / 0x1_0000 % 256, n / 256 % 256, n % 256]
  {
    var a, b, c := n / 256, n / 0x1_0000, n / 0x100_0000;
    assert a / 256 == b && b / 256 == c;
    assert BigEndian(c, 1) == [] + [c % 256];
    assert BigEndian(b, 2) == BigEndian(c, 1) + [b % 256];
    assert BigEndian(a, 3) == BigEndian(b, 2) + [a % 256];
    assert BigEndian(a, 1) == [] + [a % 256];
  }

  lemma FromBigEndianMeaning(a: byte, b: byte, c: byte, d: byte)
    ensures FromBigEndian([a, b]) == 256 * a + b
    ensures FromBigEndian([a, b, c, d]) == 0x100_0000 * a + 0x1_0000 * b + 256 * c + d
  {
    assert [a, b, c, d][..3] == [a, b, c] && [a, b, c][..2] == [a, b] && [a, b][..1] == [a] && [a][..0] == [];
    assert FromBigEndian([a]) == a;
    assert FromBigEndian([a, b]) == 256 * a + b;
    assert FromBigEndian([a, b, c]) == 256 * FromBigEndian([a, b]) + c;
  }
}
