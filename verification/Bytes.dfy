/** Octets, big-endian numbers and their XOR. */
module Bytes {
  import opened Words

  function Octet(n: nat): u8 { n % 256 }

  function Pow256(k: nat): (p: nat)
    ensures p > 0
  {
    if k == 0 then 1 else 256 * Pow256(k - 1)
  }

  /** The number a big-endian octet string denotes. */
  function Value(b: seq<u8>): nat {
    if b == [] then 0 else 256 * Value(b[..|b| - 1]) + b[|b| - 1]
  }

  /** The k low octets of n, most significant first (a store that drops the high part). */
  function BigEndian(n: nat, k: nat): (b: seq<u8>)
    ensures |b| == k
  {
    if k == 0 then [] else BigEndian(n / 256, k - 1) + [Octet(n)]
  }

  lemma {:induction false} ValueBound(b: seq<u8>)
    ensures Value(b) < Pow256(|b|)
  {
    if b != [] {
      ValueBound(b[..|b| - 1]);
    }
  }

  /** Printing a number that fits and reading it back gives the number. */
  lemma {:induction false} ValueOfBigEndian(n: nat, k: nat)
    requires n < Pow256(k)
    ensures Value(BigEndian(n, k)) == n
  {
    if k > 0 {
      ValueOfBigEndian(n / 256, k - 1);
      assert BigEndian(n, k)[..k - 1] == BigEndian(n / 256, k - 1);
    }
  }

  lemma LastDigit(x: nat, a: u8, y: nat, b: u8)
    requires 256 * x + a == 256 * y + b
    ensures x == y && a == b
  {
  }

  /** Reading is injective on strings of one length. */
  lemma {:induction false} ValueInjective(a: seq<u8>, b: seq<u8>)
    requires |a| == |b| && Value(a) == Value(b)
    ensures a == b
  {
    if a != [] {
      var m := |a| - 1;
      LastDigit(Value(a[..m]), a[m], Value(b[..m]), b[m]);
      ValueInjective(a[..m], b[..m]);
      assert a == a[..m] + [a[m]] && b == b[..m] + [b[m]];
    }
  }

  lemma AppendDigit(a: seq<u8>, d: u8)
    ensures Value(a + [d]) == 256 * Value(a) + d
  {
    assert (a + [d])[..|a|] == a;
  }

  lemma Horner(v: nat, p: nat, w: nat, d: nat)
    ensures 256 * (v * p + w) + d == v * (256 * p) + (256 * w + d)
  {}

  /** A string followed by another weighs its value by the length of the tail. */
  lemma {:induction false} ValueOfConcat(a: seq<u8>, b: seq<u8>)
    ensures Value(a + b) == Value(a) * Pow256(|b|) + Value(b)
  {
    hide Value, Pow256;
    if b == [] {
      assert a + b == a;
      Nothing();
    } else {
      var c, d := b[..|b| - 1], b[|b| - 1];
      ValueOfConcat(a, c);
      assert b == c + [d] && a + b == (a + c) + [d];
      AppendDigit(a + c, d);
      AppendDigit(c, d);
      Power(|b|);
      Horner(Value(a), Pow256(|c|), Value(c), d);
    }
  }

  lemma Nothing()
    ensures Value([]) == 0 && Pow256(0) == 1
  {}

  lemma Power(k: nat)
    requires k > 0
    ensures Pow256(k) == 256 * Pow256(k - 1)
  {}

  function Pow2(k: nat): nat { if k == 0 then 1 else 2 * Pow2(k - 1) }

  /** Bitwise exclusive or of k-bit numbers. */
  function XorBits(a: nat, b: nat, k: nat): (r: nat)
    requires a < Pow2(k) && b < Pow2(k)
    ensures r < Pow2(k)
  {
    if k == 0 then 0 else 2 * XorBits(a / 2, b / 2, k - 1) + (a + b) % 2
  }

  lemma LowBit(q: nat, a: nat, b: nat)
    ensures var r := 2 * q + (a + b) % 2; r / 2 == q && (r + b) % 2 == a % 2
  {}

  lemma XorBitsStep(a: nat, b: nat, k: nat)
    requires k > 0 && a < Pow2(k) && b < Pow2(k)
    ensures a / 2 < Pow2(k - 1) && b / 2 < Pow2(k - 1)
    ensures XorBits(a, b, k) == 2 * XorBits(a / 2, b / 2, k - 1) + (a + b) % 2
  {}

  /** Undoing one bit: r is q with the bit a + b below it. */
  lemma InverseStep(r: nat, q: nat, a: nat, b: nat)
    requires r == 2 * q + (a + b) % 2
    ensures r / 2 == q && 2 * (a / 2) + (r + b) % 2 == a
  {
    LowBit(q, a, b);
  }

  lemma {:induction false} XorBitsInverse(a: nat, b: nat, k: nat)
    requires a < Pow2(k) && b < Pow2(k)
    ensures XorBits(XorBits(a, b, k), b, k) == a
  {
    if k > 0 {
      hide XorBits, Pow2;
      var (r, q) := (XorBits(a, b, k), XorBits(a / 2, b / 2, k - 1));
      XorBitsStep(a, b, k);
      XorBitsInverse(a / 2, b / 2, k - 1);
      XorBitsStep(r, b, k);
      InverseStep(r, q, a, b);
    } else {
      assert a == 0;
    }
  }

  lemma {:induction false} XorBitsSymmetric(a: nat, b: nat, k: nat)
    requires a < Pow2(k) && b < Pow2(k)
    ensures XorBits(a, b, k) == XorBits(b, a, k)
  {
    if k > 0 {
      XorBitsSymmetric(a / 2, b / 2, k - 1);
    }
  }

  lemma {:induction false} XorBitsZero(a: nat, k: nat)
    requires a < Pow2(k)
    ensures XorBits(a, 0, k) == a
  {
    if k > 0 {
      XorBitsZero(a / 2, k - 1);
    }
  }

  lemma Pow2Of8()
    ensures Pow2(8) == 256
  {
    assert Pow2(4) == 16;
    assert Pow2(6) == 64;
  }

  function Xor8(a: u8, b: u8): u8 {
    Pow2Of8();
    XorBits(a, b, 8)
  }

  lemma Xor8Laws(a: u8, k: u8)
    ensures Xor8(Xor8(a, k), k) == a && Xor8(a, k) == Xor8(k, a) && Xor8(a, 0) == a
  {
    hide XorBits;
    Pow2Of8();
    XorBitsInverse(a, k, 8);
    XorBitsSymmetric(a, k, 8);
    XorBitsZero(a, 8);
  }

  function Xor(a: seq<u8>, b: seq<u8>): (r: seq<u8>)
    requires |a| == |b|
    ensures |r| == |a| && forall i :: 0 <= i < |a| ==> r[i] == Xor8(a[i], b[i])
  {
    seq(|a|, i requires 0 <= i < |a| => Xor8(a[i], b[i]))
  }

  lemma XorCancels(a: seq<u8>, k: seq<u8>)
    requires |a| == |k|
    ensures Xor(Xor(a, k), k) == a
  {
    hide Xor8;
    forall i | 0 <= i < |a| ensures Xor(Xor(a, k), k)[i] == a[i] { Xor8Laws(a[i], k[i]); }
  }

  /** XORing a text with its encryption gives the key stream. */
  lemma XorRecovers(a: seq<u8>, k: seq<u8>)
    requires |a| == |k|
    ensures Xor(Xor(a, k), a) == k
  {
    hide Xor8;
    forall i | 0 <= i < |a| ensures Xor(Xor(a, k), a)[i] == k[i] {
      Xor8Laws(a[i], k[i]);
      Xor8Laws(k[i], a[i]);
    }
  }

  lemma XorInjective(k: seq<u8>, a: seq<u8>, b: seq<u8>)
    requires |a| == |b| == |k| && Xor(k, a) == Xor(k, b)
    ensures a == b
  {
    hide Xor8;
    forall i | 0 <= i < |a| ensures a[i] == b[i] {
      assert Xor(k, a)[i] == Xor(k, b)[i];
      Xor8Laws(a[i], k[i]);
      Xor8Laws(b[i], k[i]);
    }
  }
}
