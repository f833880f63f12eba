/**
 MD5 as sections 3.1 to 3.5 of RFC 1321 describe it, over byte strings, driven by its tables,
 and HMAC as section 2 of RFC 2104 describes it.
 */
module Md5Spec {
  import opened Md5Words

  /** The registers A, B, C, D. */
  datatype Regs = Regs(a: Word, b: Word, c: Word, d: Word)

  const INITIAL := Regs(0x67452301, 0xefcdab89, 0x98badcfe, 0x10325476)

  const TABLE: seq<seq<Word>> := [
    [0xd76aa478, 0xe8c7b756, 0x242070db, 0xc1bdceee,
     0xf57c0faf, 0x4787c62a, 0xa8304613, 0xfd469501],
    [0x698098d8, 0x8b44f7af, 0xffff5bb1, 0x895cd7be,
     0x6b901122, 0xfd987193, 0xa679438e, 0x49b40821],
    [0xf61e2562, 0xc040b340, 0x265e5a51, 0xe9b6c7aa,
     0xd62f105d, 0x02441453, 0xd8a1e681, 0xe7d3fbc8],
    [0x21e1cde6, 0xc33707d6, 0xf4d50d87, 0x455a14ed,
     0xa9e3e905, 0xfcefa3f8, 0x676f02d9, 0x8d2a4c8a],
    [0xfffa3942, 0x8771f681, 0x6d9d6122, 0xfde5380c,
     0xa4beea44, 0x4bdecfa9, 0xf6bb4b60, 0xbebfbc70],
    [0x289b7ec6, 0xeaa127fa, 0xd4ef3085, 0x04881d05,
     0xd9d4d039, 0xe6db99e5, 0x1fa27cf8, 0xc4ac5665],
    [0xf4292244, 0x432aff97, 0xab9423a7, 0xfc93a039,
     0x655b59c3, 0x8f0ccc92, 0xffeff47d, 0x85845dd1],
    [0x6fa87e4f, 0xfe2ce6e0, 0xa3014314, 0x4e0811a1,
     0xf7537e82, 0xbd3af235, 0x2ad7d2bb, 0xeb86d391]
  ]

  /** floor(2^32 * |sin(i + 1)|), i in radians. */
  function Sine(i: nat): Word
    requires i < 64
  {
    TABLE[i / 8][i % 8]
  }

  function F(x: Word, y: Word, z: Word): Word { (x & y) | (!x & z) }
  function G(x: Word, y: Word, z: Word): Word { (x & z) | (y & !z) }
  function H(x: Word, y: Word, z: Word): Word { x ^ y ^ z }
  function I(x: Word, y: Word, z: Word): Word { y ^ (x | !z) }

  /**
   The four functions as section 3.4 describes them: F and G choose between two words bit by bit, H is the
   parity, and I is y with the bits of `x or not z` turned over.
   */
  lemma AuxChooses(x: Word, y: Word, z: Word)
    ensures F(x, y, z) & x == y & x && F(x, y, z) & !x == z & !x
    ensures G(x, y, z) & z == x & z && G(x, y, z) & !z == y & !z
    ensures H(x, y, z) ^ z ^ y == x
    ensures I(x, y, z) ^ y == x | !z
  {
    hide *;
    FChooses(x, y, z);
    GChooses(x, y, z);
    HParity(x, y, z);
    ITurns(x, y, z);
  }

  lemma FChooses(x: Word, y: Word, z: Word)
    ensures F(x, y, z) & x == y & x && F(x, y, z) & !x == z & !x
  {}

  lemma GChooses(x: Word, y: Word, z: Word)
    ensures G(x, y, z) & z == x & z && G(x, y, z) & !z == y & !z
  {}

  lemma HParity(x: Word, y: Word, z: Word)
    ensures H(x, y, z) ^ z ^ y == x
  {}

  lemma ITurns(x: Word, y: Word, z: Word)
    ensures I(x, y, z) ^ y == x | !z
  {}

  /** The auxiliary function of each of the four rounds. */
  function Aux(round: nat, x: Word, y: Word, z: Word): Word {
    if round == 0 then F(x, y, z)
    else if round == 1 then G(x, y, z)
    else if round == 2 then H(x, y, z)
    else I(x, y, z)
  }

  /** Which word of the block step i reads. */
  function WordIndex(i: nat): (k: nat)
    ensures k < 16
  {
    if i < 16 then i % 16
    else if i < 32 then (5 * i + 1) % 16
    else if i < 48 then (3 * i + 5) % 16
    else (7 * i) % 16
  }

  /** By how much step i rotates. */
  function Amount(i: nat): Count {
    [[7, 12, 17, 22], [5, 9, 14, 20], [4, 11, 16, 23], [6, 10, 15, 21]][i / 16 % 4][i % 4]
  }

  /** One step [ABCD k s i] followed by the change of roles to [DABC]. */
  function Step(x: seq<Word>, r: Regs, i: nat): Regs
    requires |x| == 16 && i < 64
  {
    var sum := Plus(Plus(Plus(r.a, Aux(i / 16, r.b, r.c, r.d)), x[WordIndex(i)]), Sine(i));
    Regs(r.d, Plus(r.b, Rotate(sum, Amount(i))), r.b, r.c)
  }

  function Steps(x: seq<Word>, r: Regs, n: nat): Regs
    requires |x| == 16 && n <= 64
  {
    if n == 0 then r else Step(x, Steps(x, r, n - 1), n - 1)
  }

  function Compress(r: Regs, x: seq<Word>): Regs
    requires |x| == 16
  {
    var s := Steps(x, r, 64);
    Regs(Plus(s.a, r.a), Plus(s.b, r.b), Plus(s.c, r.c), Plus(s.d, r.d))
  }

  // ---------------------------------------------------------------- padding

  function ZeroCount(n: nat): nat { (119 - n % 64) % 64 }

  /** Section 3.1: the padding is the shortest that leaves eight bytes of the last block free. */
  lemma ZeroCountLeast(n: nat, z: nat)
    ensures (n + 1 + ZeroCount(n)) % 64 == 56
    ensures (n + 1 + z) % 64 == 56 ==> ZeroCount(n) <= z
  {
    var q := n / 64;
    assert n == 64 * q + n % 64;
    if n % 64 < 56 {
      assert n + 1 + ZeroCount(n) == 64 * q + 56;
    } else {
      assert n + 1 + ZeroCount(n) == 64 * (q + 1) + 56;
    }
    var w := n % 64 + 1 + z;
    assert (n + 1 + z) % 64 == w % 64 by { assert n + 1 + z == 64 * q + w; }
  }

  /** The bit length as 64 bits, low-order byte first. */
  function LengthBytes(n: nat): (r: seq<Byte>)
    ensures |r| == 8
  {
    seq(8, k requires 0 <= k < 8 => DigitOf(8 * n, k))
  }

  /** The eight bytes are worth the length in bits. */
  lemma LengthWorth(n: nat)
    requires 8 * n < Pow256(8)
    ensures Worth(LengthBytes(n)) == 8 * n
  {
    DigitsWorth(8 * n, LengthBytes(n));
  }

  function Padded(m: seq<Byte>): seq<Byte> {
    m + [0x80] + seq(ZeroCount(|m|), _ => 0) + LengthBytes(|m|)
  }

  function BlockAt(p: seq<Byte>, q: nat): (x: seq<Word>)
    ensures |x| == 16
  {
    seq(16, k requires 0 <= k < 16 => WordAt(p, 16 * q + k))
  }

  function Blocks(p: seq<Byte>, q: nat): Regs {
    if q == 0 then INITIAL else Compress(Blocks(p, q - 1), BlockAt(p, q - 1))
  }

  function Words(r: Regs): seq<Word> { [r.a, r.b, r.c, r.d] }

  function HashWords(m: seq<Byte>): (r: seq<Word>)
    ensures |r| == 4
  {
    Words(Blocks(Padded(m), |Padded(m)| / 64))
  }

  function Md5(m: seq<Byte>): (r: seq<Byte>)
    ensures |r| == 16
  {
    Bytes(HashWords(m))
  }

  // ---------------------------------------------------------------- HMAC

  /** A key that is longer than a block is hashed first; then it is padded with zeros to a block. */
  function BlockKey(key: seq<Byte>): (r: seq<Byte>)
    ensures |r| == 64
  {
    var k := if |key| > 64 then Md5(key) else key;
    k + seq(64 - |k|, _ => 0)
  }

  function XorAll(s: seq<Byte>, p: Byte): (r: seq<Byte>)
    ensures |r| == |s|
  {
    seq(|s|, j requires 0 <= j < |s| => XorByte(s[j], p))
  }

  function Hmac(key: seq<Byte>, text: seq<Byte>): seq<Byte> {
    Md5(XorAll(BlockKey(key), 0x5c) + Md5(XorAll(BlockKey(key), 0x36) + text))
  }

  /** Section 2 of RFC 2104: a long key counts as its hash, a short one is filled up and combined byte by byte. */
  lemma HmacOfSection2(key: seq<Byte>, text: seq<Byte>)
    ensures |key| > 64 ==> Hmac(key, text) == Hmac(Md5(key), text)
    ensures |key| <= 64 ==>
              var k := key + seq(64 - |key|, _ => 0);
              var inner := seq(64, j requires 0 <= j < 64 => XorByte(k[j], 0x36));
              var outer := seq(64, j requires 0 <= j < 64 => XorByte(k[j], 0x5c));
              Hmac(key, text) == Md5(outer + Md5(inner + text))
  {
    hide Md5, XorByte;
    if |key| <= 64 {
      var k := key + seq(64 - |key|, _ => 0);
      assert BlockKey(key) == k;
      assert XorAll(k, 0x36) == seq(64, j requires 0 <= j < 64 => XorByte(k[j], 0x36));
      assert XorAll(k, 0x5c) == seq(64, j requires 0 <= j < 64 => XorByte(k[j], 0x5c));
    } else {
      assert BlockKey(key) == BlockKey(Md5(key));
    }
  }
}
