/** AES counter mode as core/rtp/srtp.go uses it: IV layout, key stream and key derivation. */
module CounterMode {
  import opened Words
  import opened Bytes

  type Block = b: seq<u8> | |b| == 16 witness seq(16, _ => 0)
  type Digest = b: seq<u8> | |b| == 20 witness seq(20, _ => 0)
  type Salt = b: seq<u8> | |b| == 14 witness seq(14, _ => 0)

  /** AES and HMAC-SHA1 are any two functions of these types. */
  datatype Crypto = Crypto(aes: (seq<u8>, Block) -> Block, hmac: (seq<u8>, seq<u8>) -> Digest)

  const ZERO4: seq<u8> := [0, 0, 0, 0]
  const ZERO2: seq<u8> := [0, 0]

  /** Salt, XORed with the SSRC in octets 4 to 7 and the 48-bit packet index in octets 8 to 13. */
  function IV(salt: Salt, ssrc: u32, index: nat): (iv: Block)
    ensures iv[14..] == ZERO2
  {
    Xor(salt, ZERO4 + BigEndian(ssrc, 4) + BigEndian(index, 6)) + ZERO2
  }

  /** The 128-bit big-endian counter, j blocks into the stream. */
  function CounterBlock(iv: Block, j: nat): Block {
    BigEndian((Value(iv) + j) % Pow256(16), 16)
  }

  function StreamByte(c: Crypto, key: seq<u8>, iv: Block, p: nat): u8 {
    c.aes(key, CounterBlock(iv, p / 16))[p % 16]
  }

  function KeyStream(c: Crypto, key: seq<u8>, iv: Block, len: nat): (ks: seq<u8>)
    ensures |ks| == len
  {
    seq(len, p requires 0 <= p < len => StreamByte(c, key, iv, p))
  }

  /** deriveIV: the salt padded to 16 octets, XORed octet by octet with the SSRC and then the index. */
  method DeriveIV(salt: Salt, ssrc: u32, index: u64) returns (iv: seq<u8>)
    ensures iv == IV(salt, ssrc, index)
  {
    hide Octet, Xor8, IV, BigEndian;
    iv := salt + ZERO2;
    iv := iv[4 := Xor8(iv[4], Octet(ssrc / 0x1000000))];
    iv := iv[5 := Xor8(iv[5], Octet(ssrc / 0x10000))];
    iv := iv[6 := Xor8(iv[6], Octet(ssrc / 0x100))];
    iv := iv[7 := Xor8(iv[7], Octet(ssrc))];
    BigEndian4(ssrc);
    assert iv[4..8] == Xor(salt[4..8], BigEndian(ssrc, 4));
    IVParts(salt, ssrc, index);
    iv := XorIndex(iv, index);
  }

  lemma IVParts(salt: Salt, ssrc: u32, index: nat)
    ensures IV(salt, ssrc, index)
         == salt[..4] + Xor(salt[4..8], BigEndian(ssrc, 4)) + Xor(salt[8..], BigEndian(index, 6)) + ZERO2
  {
    hide Octet, Xor8, BigEndian;
    forall i | 0 <= i < 4 ensures Xor8(salt[i], 0) == salt[i] { Xor8Laws(salt[i], 0); }
  }

  method XorIndex(buf: Block, index: u64) returns (iv: seq<u8>)
    ensures iv == buf[..8] + Xor(buf[8..14], BigEndian(index, 6)) + buf[14..]
  {
    hide Octet, Xor8;
    iv := buf;
    iv := iv[8 := Xor8(iv[8], Octet(index / 0x100_0000_0000))];
    iv := iv[9 := Xor8(iv[9], Octet(index / 0x1_0000_0000))];
    iv := iv[10 := Xor8(iv[10], Octet(index / 0x100_0000))];
    iv := iv[11 := Xor8(iv[11], Octet(index / 0x1_0000))];
    iv := iv[12 := Xor8(iv[12], Octet(index / 0x100))];
    iv := iv[13 := Xor8(iv[13], Octet(index))];
    BigEndian6(index);
  }

  lemma BigEndian4(n: nat)
    ensures BigEndian(n, 4) == [Octet(n / 0x1000000), Octet(n / 0x10000), Octet(n / 0x100), Octet(n)]
  {
    hide Octet, BigEndian;
    Shifts(n);
    BigEndianStep(n, 4);
    BigEndianStep(n / 0x100, 3);
    BigEndianStep(n / 0x10000, 2);
    BigEndianStep(n / 0x1000000, 1);
    BigEndianNone(n / 0x1000000 / 0x100);
  }

  lemma BigEndian6(n: nat)
    ensures BigEndian(n, 6) == [Octet(n / 0x100_0000_0000), Octet(n / 0x1_0000_0000),
                                Octet(n / 0x100_0000), Octet(n / 0x1_0000), Octet(n / 0x100), Octet(n)]
  {
    hide Octet, BigEndian;
    Shifts(n);
    BigEndianStep(n, 6);
    BigEndianStep(n / 0x100, 5);
    BigEndian4(n / 0x10000);
  }

  /** Shifting down octet by octet is shifting down at once. */
  lemma Shifts(n: nat)
    ensures n / 0x100 / 0x100 == n / 0x10000
    ensures n / 0x10000 / 0x100 == n / 0x1000000
    ensures n / 0x10000 / 0x10000 == n / 0x1_0000_0000
    ensures n / 0x10000 / 0x1000000 == n / 0x100_0000_0000
  {}

  lemma BigEndianNone(n: nat)
    ensures BigEndian(n, 0) == []
  {}

  lemma BigEndianStep(n: nat, k: nat)
    requires k > 0
    ensures BigEndian(n, k) == BigEndian(n / 256, k - 1) + [Octet(n)]
  {}

  // ---- no counter block is used twice ----

  lemma Powers()
    ensures Pow256(2) == TWO16 && Pow256(4) == TWO32 && Pow256(6) == TWO48
    ensures Pow256(16) == Pow256(14) * TWO16
  {
    assert Pow256(4) == 256 * (256 * Pow256(2));
    assert Pow256(6) == 256 * (256 * Pow256(4));
    assert Pow256(16) == 256 * (256 * Pow256(14));
  }

  lemma SmallRemainder(v: nat, m: nat)
    requires v < m
    ensures v % m == v
  {}

  /** The two low octets of an IV are zero, so up to 2^16 blocks count without a carry. */
  lemma CounterValue(salt: Salt, ssrc: u32, index: nat, j: u16)
    ensures Value(CounterBlock(IV(salt, ssrc, index), j)) == Value(IV(salt, ssrc, index)[..14]) * TWO16 + j
  {
    hide IV, BigEndian, Pow256, Value;
    var iv := IV(salt, ssrc, index);
    Powers();
    assert iv == iv[..14] + ZERO2;
    ValueOfConcat(iv[..14], ZERO2);
    ValueOfZero2();
    ValueBound(iv[..14]);
    SmallRemainder(Value(iv) + j, Pow256(16));
    ValueOfBigEndian(Value(iv) + j, 16);
  }

  lemma ValueOfZero2()
    ensures Value(ZERO2) == 0
  {
    assert ZERO2[..1] == [0];
  }

  /** Two counter blocks coincide only for the same SSRC, packet index and block number. */
  lemma CounterBlocksDistinct(salt: Salt, s: u32, t: u32, m: nat, n: nat, j: u16, k: u16)
    requires m < TWO48 && n < TWO48
    ensures CounterBlock(IV(salt, s, m), j) == CounterBlock(IV(salt, t, n), k) <==> s == t && m == n && j == k
  {
    hide IV, CounterBlock;
    if CounterBlock(IV(salt, s, m), j) == CounterBlock(IV(salt, t, n), k) {
      CounterValue(salt, s, m, j);
      CounterValue(salt, t, n, k);
      var a, b := IV(salt, s, m)[..14], IV(salt, t, n)[..14];
      assert Value(a) == Value(b) && j == k;
      ValueInjective(a, b);
      SaltedInjective(salt, s, t, m, n);
    }
  }

  lemma SaltedInjective(salt: Salt, s: u32, t: u32, m: nat, n: nat)
    requires m < TWO48 && n < TWO48 && IV(salt, s, m)[..14] == IV(salt, t, n)[..14]
    ensures s == t && m == n
  {
    hide Xor8, Octet, BigEndian;
    var fm := ZERO4 + BigEndian(s, 4) + BigEndian(m, 6);
    var fn := ZERO4 + BigEndian(t, 4) + BigEndian(n, 6);
    assert IV(salt, s, m)[..14] == Xor(salt, fm) && IV(salt, t, n)[..14] == Xor(salt, fn);
    XorInjective(salt, fm, fn);
    assert BigEndian(s, 4) == fm[4..8] && BigEndian(t, 4) == fn[4..8];
    assert BigEndian(m, 6) == fm[8..] && BigEndian(n, 6) == fn[8..];
    Powers();
    ValueOfBigEndian(s, 4);
    ValueOfBigEndian(t, 4);
    ValueOfBigEndian(m, 6);
    ValueOfBigEndian(n, 6);
  }

  /** A block cipher: no two blocks are enciphered alike. */
  ghost predicate Enciphers(c: Crypto, key: seq<u8>) {
    forall x: Block, y: Block :: c.aes(key, x) == c.aes(key, y) ==> x == y
  }

  function Min(a: int, b: int): int { if b < a then b else a }

  lemma Place(b: nat, q: nat)
    requires q < 16
    ensures (16 * b + q) / 16 == b && (16 * b + q) % 16 == q
  {}

  /** Block b of a key stream is the encipherment of counter block b, the last one cut to the length. */
  lemma BlockOfStream(c: Crypto, key: seq<u8>, iv: Block, len: nat, b: nat)
    requires 16 * b < len
    ensures var n := Min(16, len - 16 * b);
      KeyStream(c, key, iv, len)[16 * b..16 * b + n] == c.aes(key, CounterBlock(iv, b))[..n]
  {
    hide CounterBlock;
    var n := Min(16, len - 16 * b);
    var ks := KeyStream(c, key, iv, len);
    forall q | 0 <= q < n ensures ks[16 * b..16 * b + n][q] == c.aes(key, CounterBlock(iv, b))[q] {
      Place(b, q);
    }
  }

  /** With a block cipher, two full blocks of key streams coincide only for the same SSRC, packet index and place. */
  lemma StreamBlocksDistinct(c: Crypto, key: seq<u8>, salt: Salt, s: u32, t: u32, m: nat, n: nat, len: nat, len': nat,
                             a: u16, b: u16)
    requires Enciphers(c, key) && m < TWO48 && n < TWO48 && 16 * a + 16 <= len && 16 * b + 16 <= len'
    ensures var (x, y) := (KeyStream(c, key, IV(salt, s, m), len), KeyStream(c, key, IV(salt, t, n), len'));
      x[16 * a..16 * a + 16] == y[16 * b..16 * b + 16] <==> s == t && m == n && a == b
  {
    hide IV, CounterBlock, KeyStream;
    BlockOfStream(c, key, IV(salt, s, m), len, a);
    BlockOfStream(c, key, IV(salt, t, n), len', b);
    CounterBlocksDistinct(salt, s, t, m, n, a, b);
  }

  /** With a block cipher, key streams of at least one block are equal only for the same SSRC and packet index. */
  lemma StreamsDistinct(c: Crypto, key: seq<u8>, salt: Salt, s: u32, t: u32, m: nat, n: nat, len: nat)
    requires Enciphers(c, key) && m < TWO48 && n < TWO48 && len >= 16
    ensures KeyStream(c, key, IV(salt, s, m), len) == KeyStream(c, key, IV(salt, t, n), len) <==> s == t && m == n
  {
    hide IV, KeyStream;
    StreamBlocksDistinct(c, key, salt, s, t, m, n, len, len, 0, 0);
  }

  // ---- the layout as a number ----

  lemma Zeros()
    ensures Value(ZERO4) == 0 && Value(ZERO2) == 0
  {
    assert ZERO4[..3] == [0, 0, 0] && [0, 0, 0][..2] == [0, 0] && [0, 0][..1] == [0] && ZERO2[..1] == [0];
  }

  /** Section 4.1.1 of RFC 3711: without its salt an IV is the number SSRC * 2^64 + index * 2^16. */
  lemma IVValue(salt: Salt, ssrc: u32, index: nat)
    requires index < TWO48
    ensures Value(Xor(IV(salt, ssrc, index), salt + ZERO2)) == ssrc * TWO64 + index * TWO16
  {
    hide Xor8, Value, BigEndian, Pow256;
    var (s, n) := (BigEndian(ssrc, 4), BigEndian(index, 6));
    var f := ZERO4 + s + n;
    XorRecovers(salt, f);
    Xor8Laws(0, 0);
    assert Xor(IV(salt, ssrc, index), salt + ZERO2) == f + ZERO2;
    Powers();
    Zeros();
    ValueOfConcat(f, ZERO2);
    ValueOfConcat(ZERO4 + s, n);
    ValueOfConcat(ZERO4, s);
    ValueOfBigEndian(ssrc, 4);
    ValueOfBigEndian(index, 6);
  }

  // ---- key derivation ----

  /** The AES input of segment i for one key label; the segment number is truncated to 16 bits. */
  function KdfInput(salt: Salt, keyLabel: u8, i: nat): Block {
    salt[..7] + [Xor8(salt[7], keyLabel)] + salt[8..] + BigEndian(i, 2)
  }

  function KdfBytes(c: Crypto, masterKey: seq<u8>, salt: Salt, keyLabel: u8, segments: nat): (r: seq<u8>)
    ensures |r| == 16 * segments
  {
    if segments == 0 then []
    else KdfBytes(c, masterKey, salt, keyLabel, segments - 1)
         + c.aes(masterKey, KdfInput(salt, keyLabel, segments - 1))
  }

  function Kdf(c: Crypto, masterKey: seq<u8>, salt: Salt, keyLabel: u8, length: nat): (r: seq<u8>)
    ensures |r| == length
  {
    KdfBytes(c, masterKey, salt, keyLabel, (length + 15) / 16)[..length]
  }

  /** deriveKey: one AES call per 16-octet segment, the segment number XORed into the last two octets. */
  method DeriveKey(c: Crypto, masterKey: seq<u8>, salt: Salt, keyLabel: u8, length: nat) returns (key: seq<u8>)
    ensures key == Kdf(c, masterKey, salt, keyLabel, length)
  {
    hide Xor8, Octet, BigEndian, KdfInput;
    var x := salt + ZERO2;
    x := x[7 := Xor8(x[7], keyLabel)];
    var segments := (length + 15) / 16;
    var out := new u8[segments * 16];
    for i := 0 to segments
      invariant out[..i * 16] == KdfBytes(c, masterKey, salt, keyLabel, i)
    {
      var ctr := BigEndian(i, 2);
      var iv := x[14 := Xor8(x[14], ctr[0])][15 := Xor8(x[15], ctr[1])];
      KdfLayout(salt, keyLabel, i);
      var enc := c.aes(masterKey, iv);
      var at := i * 16;
      forall j | 0 <= j < 16 { out[at + j] := enc[j]; }
      assert forall j :: 0 <= j < 16 ==> out[at + j] == enc[j];
      assert out[at..at + 16] == enc;
      assert out[..at + 16] == out[..at] + out[at..at + 16];
    }
    key := out[..length];
  }

  lemma KdfLayout(salt: Salt, keyLabel: u8, i: nat)
    ensures var x := (salt + ZERO2)[7 := Xor8(salt[7], keyLabel)]; var ctr := BigEndian(i, 2);
      x[14 := Xor8(x[14], ctr[0])][15 := Xor8(x[15], ctr[1])] == KdfInput(salt, keyLabel, i)
  {
    hide Xor8, Octet;
    var ctr := BigEndian(i, 2);
    Xor8Laws(0, ctr[0]);
    Xor8Laws(ctr[0], 0);
    Xor8Laws(0, ctr[1]);
    Xor8Laws(ctr[1], 0);
  }

  /** Section 4.3.1 of RFC 3711 with rate zero: salt XOR label * 2^48, and the segment number below it. */
  lemma KdfInputIsXor(salt: Salt, keyLabel: u8, i: nat)
    ensures KdfInput(salt, keyLabel, i)
         == Xor(salt + ZERO2, ZERO4 + [0, 0, 0, keyLabel] + [0, 0, 0, 0, 0, 0] + BigEndian(i, 2))
  {
    hide Xor8, BigEndian;
    var mask := ZERO4 + [0, 0, 0, keyLabel] + [0, 0, 0, 0, 0, 0] + BigEndian(i, 2);
    var (x, y) := (KdfInput(salt, keyLabel, i), Xor(salt + ZERO2, mask));
    forall p | 0 <= p < 16 ensures x[p] == y[p] {
      Xor8Laws((salt + ZERO2)[p], mask[p]);
      Xor8Laws(mask[p], (salt + ZERO2)[p]);
    }
  }

  lemma {:induction false} KdfSegmentOf(c: Crypto, masterKey: seq<u8>, salt: Salt, keyLabel: u8, segments: nat, i: nat)
    requires i < segments
    ensures KdfBytes(c, masterKey, salt, keyLabel, segments)[16 * i..16 * i + 16]
         == c.aes(masterKey, KdfInput(salt, keyLabel, i))
  {
    hide KdfInput;
    if i < segments - 1 {
      KdfSegmentOf(c, masterKey, salt, keyLabel, segments - 1, i);
    }
  }

  /** Segment i of a derived key is the encipherment of its own input, the last one cut to the length. */
  lemma KdfSegment(c: Crypto, masterKey: seq<u8>, salt: Salt, keyLabel: u8, length: nat, i: nat)
    requires 16 * i < length
    ensures var n := Min(16, length - 16 * i);
      Kdf(c, masterKey, salt, keyLabel, length)[16 * i..16 * i + n]
      == c.aes(masterKey, KdfInput(salt, keyLabel, i))[..n]
  {
    hide KdfInput, KdfBytes;
    var (n, segments) := (Min(16, length - 16 * i), (length + 15) / 16);
    var all := KdfBytes(c, masterKey, salt, keyLabel, segments);
    KdfSegmentOf(c, masterKey, salt, keyLabel, segments, i);
    assert all[..length][16 * i..16 * i + n] == all[16 * i..16 * i + 16][..n];
  }

  /** No two (label, segment) pairs share an AES input, so the session keys come from disjoint calls. */
  lemma KdfInputsDistinct(salt: Salt, a: u8, b: u8, i: u16, j: u16)
    requires KdfInput(salt, a, i) == KdfInput(salt, b, j)
    ensures a == b && i == j
  {
    var p, q := KdfInput(salt, a, i), KdfInput(salt, b, j);
    assert p[7] == Xor8(salt[7], a) && q[7] == Xor8(salt[7], b);
    XorInjective([salt[7]], [a], [b]);
    assert p[14..] == BigEndian(i, 2) && q[14..] == BigEndian(j, 2);
    Powers();
    ValueOfBigEndian(i, 2);
    ValueOfBigEndian(j, 2);
  }
}
