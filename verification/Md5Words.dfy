/** A small number as a byte. */
module ByteNumbers {
  lemma ByteWorth(v: nat)
    requires v < 256
    ensures (v as bv8) as nat == v
  {
    var b := v as bv8;
    var w := b as int;
    assert w as bv8 == b && 0 <= w < 256;
    assert (w - v) % 256 == 0;
  }
}

/**
 32-bit words, bytes and the JavaScript arrays the hash code works on.
 A word is a `bv32`, whose `+` is addition modulo 2^32.
 */
module Md5Words {
  import opened ByteNumbers

  type Byte = bv8
  type Word = bv32
  type Count = n: bv6 | n <= 32

  /** A slot of a JavaScript array: never assigned, or a number. */
  datatype Cell = Hole | Slot(word: Word)

  /** Reading a slot as an operand of a bit operation: holes and missing slots count as zero. */
  function At(x: seq<Cell>, k: nat): Word {
    if k < |x| && x[k].Slot? then x[k].word else 0
  }

  /** `x[k] = w`: the array grows with holes when k lies beyond its end. */
  function Put(x: seq<Cell>, k: nat, w: Word): (r: seq<Cell>)
    ensures |r| == if k < |x| then |x| else k + 1
    ensures forall j: nat :: At(r, j) == if j == k then w else At(x, j)
  {
    if k < |x| then x[k := Slot(w)] else x + seq(k - |x|, _ => Hole) + [Slot(w)]
  }

  // ---------------------------------------------------------------- bytes and words

  function Pack(b0: Byte, b1: Byte, b2: Byte, b3: Byte): Word {
    (b0 as Word) | ((b1 as Word) << 8) | ((b2 as Word) << 16) | ((b3 as Word) << 24)
  }

  /** Byte j of a byte string that is followed by zeros. */
  function ByteAt(m: seq<Byte>, j: nat): Byte {
    if j < |m| then m[j] else 0
  }

  /** Word k of a byte string that is followed by zeros, low-order byte first. */
  function WordAt(m: seq<Byte>, k: nat): Word {
    Pack(ByteAt(m, 4 * k), ByteAt(m, 4 * k + 1), ByteAt(m, 4 * k + 2), ByteAt(m, 4 * k + 3))
  }

  lemma SameBytesSameWord(s: seq<Byte>, k: nat, t: seq<Byte>, l: nat)
    requires ByteAt(s, 4 * k) == ByteAt(t, 4 * l)
    requires ByteAt(s, 4 * k + 1) == ByteAt(t, 4 * l + 1)
    requires ByteAt(s, 4 * k + 2) == ByteAt(t, 4 * l + 2)
    requires ByteAt(s, 4 * k + 3) == ByteAt(t, 4 * l + 3)
    ensures WordAt(s, k) == WordAt(t, l)
  {
    hide Pack, ByteAt;
  }

  lemma ZeroWord(s: seq<Byte>, k: nat)
    requires |s| <= 4 * k
    ensures WordAt(s, k) == 0
  {}

  function LowByte(w: Word, j: nat): Byte
    requires j < 4
  {
    if j == 0 then (w & 0xff) as Byte
    else if j == 1 then ((w >> 8) & 0xff) as Byte
    else if j == 2 then ((w >> 16) & 0xff) as Byte
    else ((w >> 24) & 0xff) as Byte
  }

  /** Words as bytes, low-order byte first. */
  function Bytes(ws: seq<Word>): (r: seq<Byte>)
    ensures |r| == 4 * |ws|
    ensures forall j :: 0 <= j < |r| ==> r[j] == LowByte(ws[j / 4], j % 4)
  {
    seq(4 * |ws|, j requires 0 <= j < 4 * |ws| => LowByte(ws[j / 4], j % 4))
  }

  lemma PackLowBytes(w: Word)
    ensures Pack(LowByte(w, 0), LowByte(w, 1), LowByte(w, 2), LowByte(w, 3)) == w
  {}

  lemma LowBytesPack(b0: Byte, b1: Byte, b2: Byte, b3: Byte)
    ensures LowByte(Pack(b0, b1, b2, b3), 0) == b0
    ensures LowByte(Pack(b0, b1, b2, b3), 1) == b1
    ensures LowByte(Pack(b0, b1, b2, b3), 2) == b2
    ensures LowByte(Pack(b0, b1, b2, b3), 3) == b3
  {}

  /** The bytes of a packed word in place, and the bytes read out of any word, in terms of shifts alone. */
  lemma PackInPlace(b0: Byte, b1: Byte, b2: Byte, b3: Byte)
    ensures var w := Pack(b0, b1, b2, b3);
            && w & 0xff == b0 as Word && (w >> 8) & 0xff == b1 as Word
            && (w >> 16) & 0xff == b2 as Word && w >> 24 == b3 as Word
  {}

  lemma LowByteInPlace(w: Word)
    ensures LowByte(w, 0) as Word == w & 0xff && LowByte(w, 1) as Word == (w >> 8) & 0xff
    ensures LowByte(w, 2) as Word == (w >> 16) & 0xff && LowByte(w, 3) as Word == w >> 24
  {}

  /** `b << (8 * j)`. */
  function ShiftedByte(j: nat, b: Byte): Word
    requires j < 4
  {
    if j == 0 then b as Word
    else if j == 1 then (b as Word) << 8
    else if j == 2 then (b as Word) << 16
    else (b as Word) << 24
  }

  lemma ShiftedBytePacks(j: nat, b: Byte)
    requires j < 4
    ensures ShiftedByte(j, b)
         == Pack(if j == 0 then b else 0, if j == 1 then b else 0, if j == 2 then b else 0, if j == 3 then b else 0)
  {}

  lemma OrPack(a0: Byte, a1: Byte, a2: Byte, a3: Byte, b0: Byte, b1: Byte, b2: Byte, b3: Byte)
    ensures Or(Pack(a0, a1, a2, a3), Pack(b0, b1, b2, b3)) == Pack(a0 | b0, a1 | b1, a2 | b2, a3 | b3)
  {
    calc {
      Or(Pack(a0, a1, a2, a3), Pack(b0, b1, b2, b3));
      { hide Or; }
      Or(((a0 as Word) | ((a1 as Word) << 8) | ((a2 as Word) << 16) | ((a3 as Word) << 24)),
         ((b0 as Word) | ((b1 as Word) << 8) | ((b2 as Word) << 16) | ((b3 as Word) << 24)));
      { hide Pack; }
      ((a0 as Word) | ((a1 as Word) << 8) | ((a2 as Word) << 16) | ((a3 as Word) << 24))
      | ((b0 as Word) | ((b1 as Word) << 8) | ((b2 as Word) << 16) | ((b3 as Word) << 24));
      { hide *; }
      ((a0 | b0) as Word) | (((a1 | b1) as Word) << 8) | (((a2 | b2) as Word) << 16) | (((a3 | b3) as Word) << 24);
      Pack(a0 | b0, a1 | b1, a2 | b2, a3 | b3);
    }
  }

  function Xor(x: Word, y: Word): Word { x ^ y }
  function XorByte(x: Byte, y: Byte): Byte { x ^ y }

  lemma XorPack(a0: Byte, a1: Byte, a2: Byte, a3: Byte, b0: Byte, b1: Byte, b2: Byte, b3: Byte)
    ensures Xor(Pack(a0, a1, a2, a3), Pack(b0, b1, b2, b3))
         == Pack(XorByte(a0, b0), XorByte(a1, b1), XorByte(a2, b2), XorByte(a3, b3))
  {
    calc {
      Xor(Pack(a0, a1, a2, a3), Pack(b0, b1, b2, b3));
      { hide Xor; }
      Xor(((a0 as Word) | ((a1 as Word) << 8) | ((a2 as Word) << 16) | ((a3 as Word) << 24)),
         ((b0 as Word) | ((b1 as Word) << 8) | ((b2 as Word) << 16) | ((b3 as Word) << 24)));
      { hide Pack; }
      ((a0 as Word) | ((a1 as Word) << 8) | ((a2 as Word) << 16) | ((a3 as Word) << 24))
      ^ ((b0 as Word) | ((b1 as Word) << 8) | ((b2 as Word) << 16) | ((b3 as Word) << 24));
      { hide *; }
      ((a0 ^ b0) as Word) | (((a1 ^ b1) as Word) << 8) | (((a2 ^ b2) as Word) << 16) | (((a3 ^ b3) as Word) << 24);
      Pack(a0 ^ b0, a1 ^ b1, a2 ^ b2, a3 ^ b3);
      { hide Pack; }
      Pack(XorByte(a0, b0), XorByte(a1, b1), XorByte(a2, b2), XorByte(a3, b3));
    }
  }

  lemma OrZero(a: Byte)
    ensures a | 0 == a && 0 | a == a
  {}

  /** Byte j is or-ed into a word in which byte j is still zero. */
  lemma OrByteFills(b0: Byte, b1: Byte, b2: Byte, b3: Byte, j: nat, b: Byte)
    requires j < 4
    requires (j == 0 ==> b0 == 0) && (j == 1 ==> b1 == 0) && (j == 2 ==> b2 == 0) && (j == 3 ==> b3 == 0)
    ensures Or(Pack(b0, b1, b2, b3), ShiftedByte(j, b))
         == Pack(if j == 0 then b else b0, if j == 1 then b else b1, if j == 2 then b else b2, if j == 3 then b else b3)
  {
    hide *;
    ShiftedBytePacks(j, b);
    OrPack(b0, b1, b2, b3, if j == 0 then b else 0, if j == 1 then b else 0,
           if j == 2 then b else 0, if j == 3 then b else 0);
    OrZero(b0); OrZero(b1); OrZero(b2); OrZero(b3); OrZero(b);
  }

  /** Digit k of n in base 256. */
  function DigitOf(n: nat, k: nat): Byte {
    if k == 0 then (n % 256) as Byte else DigitOf(n / 256, k - 1)
  }

  function Pow256(k: nat): nat { if k == 0 then 1 else 256 * Pow256(k - 1) }

  /** What a string of bytes is worth, low-order byte first. */
  function Worth(s: seq<Byte>): nat {
    if s == [] then 0 else (s[0] as nat) + 256 * Worth(s[1..])
  }

  /** The digits of a number are worth the number: k of them all of it when it is below 256^k. */
  lemma {:induction false} DigitsWorth(n: nat, s: seq<Byte>)
    requires n < Pow256(|s|) && forall i :: 0 <= i < |s| ==> s[i] == DigitOf(n, i)
    ensures Worth(s) == n
    decreases |s|
  {
    if s != [] {
      FirstDigit(n);
      assert Pow256(|s|) == 256 * Pow256(|s| - 1);
      hide DigitOf, Pow256;
      forall i | 0 <= i < |s| - 1 ensures s[1..][i] == DigitOf(n / 256, i) {
        NextDigit(n, i);
        assert s[i + 1] == DigitOf(n, i + 1);
      }
      DigitsWorth(n / 256, s[1..]);
    }
  }

  lemma FirstDigit(n: nat)
    ensures DigitOf(n, 0) as nat == n % 256
  {
    assert DigitOf(n, 0) == (n % 256) as Byte;
    hide DigitOf;
    ByteWorth(n % 256);
  }

  lemma NextDigit(n: nat, i: nat)
    ensures DigitOf(n, i + 1) == DigitOf(n / 256, i)
  {}

  /** A 32-bit number as a word has four bytes that are worth the number. */
  lemma ToWordWorth(n: nat)
    requires n < 0x1_0000_0000
    ensures Worth(Bytes([ToWord(n)])) == n
  {
    var s := [DigitOf(n, 0), DigitOf(n, 1), DigitOf(n, 2), DigitOf(n, 3)];
    LowBytesPack(s[0], s[1], s[2], s[3]);
    hide LowByte, DigitOf, Pack;
    assert Bytes([ToWord(n)]) == s;
    assert Pow256(4) == 0x1_0000_0000 by {
      assert Pow256(2) == 256 * Pow256(1) && Pow256(3) == 256 * Pow256(2);
    }
    DigitsWorth(n, s);
  }

  /** The low 32 bits of a number. */
  function ToWord(n: nat): Word {
    Pack(DigitOf(n, 0), DigitOf(n, 1), DigitOf(n, 2), DigitOf(n, 3))
  }

  // ---------------------------------------------------------------- addition

  function Plus(x: Word, y: Word): Word { x + y }
  function Or(x: Word, y: Word): Word { x | y }
  function Low16(x: Word): Word { x & 0xffff }
  function High16(x: Word): Word { x & 0xffff_0000 }
  function Shl16(x: Word): Word { x << 16 }
  predicate Negative(x: Word) { x & 0x8000_0000 != 0 }

  /** The sign-propagating `>> 16`. */
  function Sar16(x: Word): Word {
    if Negative(x) then (x >> 16) | 0xffff_0000 else x >> 16
  }

  function SafeAdd(x: Word, y: Word): Word {
    var lsw := Plus(Low16(x), Low16(y));
    var msw := Plus(Plus(Sar16(x), Sar16(y)), Sar16(lsw));
    Or(Shl16(msw), Low16(lsw))
  }

  /** Nothing but the addition of words. */
  lemma PlusIs(x: Word, y: Word)
    ensures Plus(x, y) == x + y
  {}

  /** Exclusive or undoes itself, and zero does not count. */
  lemma XorUndone(x: Word, y: Word, a: Byte, b: Byte)
    ensures Xor(Xor(x, y), y) == x && Xor(x, 0) == x
    ensures XorByte(XorByte(a, b), b) == a && XorByte(a, 0) == a
  {}

  lemma PlusAssoc(a: Word, b: Word, c: Word)
    ensures Plus(Plus(a, b), c) == Plus(a, Plus(b, c))
  {
    calc {
      Plus(Plus(a, b), c);
      Plus(a, b) + c;
      (a + b) + c;
      a + (b + c);
      a + Plus(b, c);
      Plus(a, Plus(b, c));
    }
  }

  lemma PlusCommutes(a: Word, b: Word)
    ensures Plus(a, b) == Plus(b, a)
  {}

  lemma PlusSwap(a: Word, b: Word, c: Word, d: Word)
    ensures Plus(Plus(a, b), Plus(c, d)) == Plus(Plus(a, c), Plus(b, d))
  {
    hide Plus;
    PlusAssoc(a, b, Plus(c, d));
    PlusAssoc(b, c, d);
    PlusCommutes(b, c);
    PlusAssoc(c, b, d);
    PlusAssoc(a, c, Plus(b, d));
  }

  lemma Shl16Plus(a: Word, b: Word)
    ensures Shl16(Plus(a, b)) == Plus(Shl16(a), Shl16(b))
  {
    calc {
      Shl16(Plus(a, b));
      { hide Shl16; }
      Shl16(a + b);
      { hide Plus; }
      (a + b) << 16;
      { hide *; }
      (a << 16) + (b << 16);
      { hide Shl16; }
      Plus(a << 16, b << 16);
      { hide Plus; }
      Plus(Shl16(a), Shl16(b));
    }
  }

  lemma OrIsPlus(a: Word, b: Word)
    ensures Or(Shl16(a), Low16(b)) == Plus(Shl16(a), Low16(b))
  {
    calc {
      Or(Shl16(a), Low16(b));
      { hide Or; }
      Or(a << 16, b & 0xffff);
      { hide Shl16, Low16; }
      (a << 16) | (b & 0xffff);
      { hide *; }
      (a << 16) + (b & 0xffff);
      { hide Shl16, Low16; }
      Plus(a << 16, b & 0xffff);
      { hide Plus; }
      Plus(Shl16(a), Low16(b));
    }
  }

  lemma SplitHalves(x: Word)
    ensures Plus(High16(x), Low16(x)) == x
  {}

  lemma ShrShl(x: Word)
    ensures Shl16(x >> 16) == High16(x)
  {}

  lemma ShrOnesShl(x: Word)
    ensures Shl16((x >> 16) | 0xffff_0000) == High16(x)
  {}

  lemma SarThenShl(x: Word)
    ensures Shl16(Sar16(x)) == High16(x)
  {
    hide Shl16, High16, Negative;
    ShrShl(x);
    ShrOnesShl(x);
  }

  /** Adding 16-bit halves with a sign-propagating carry is addition modulo 2^32. */
  lemma SafeAddIsPlus(x: Word, y: Word)
    ensures SafeAdd(x, y) == Plus(x, y)
  {
    hide Plus, Or, Low16, High16, Shl16, Sar16;
    var lsw := Plus(Low16(x), Low16(y));
    calc {
      SafeAdd(x, y);
      { OrIsPlus(Plus(Plus(Sar16(x), Sar16(y)), Sar16(lsw)), lsw); }
      Plus(Shl16(Plus(Plus(Sar16(x), Sar16(y)), Sar16(lsw))), Low16(lsw));
      { Shl16Plus(Plus(Sar16(x), Sar16(y)), Sar16(lsw)); Shl16Plus(Sar16(x), Sar16(y)); }
      Plus(Plus(Plus(Shl16(Sar16(x)), Shl16(Sar16(y))), Shl16(Sar16(lsw))), Low16(lsw));
      { SarThenShl(x); SarThenShl(y); SarThenShl(lsw); }
      Plus(Plus(Plus(High16(x), High16(y)), High16(lsw)), Low16(lsw));
      { PlusAssoc(Plus(High16(x), High16(y)), High16(lsw), Low16(lsw)); SplitHalves(lsw); }
      Plus(Plus(High16(x), High16(y)), Plus(Low16(x), Low16(y)));
      { PlusSwap(High16(x), High16(y), Low16(x), Low16(y)); SplitHalves(x); SplitHalves(y); }
      Plus(x, y);
    }
  }

  // ---------------------------------------------------------------- rotation

  function BitRotateLeft(num: Word, cnt: Count): Word {
    (num << cnt) | (num >> (32 - cnt))
  }

  function RotateOne(x: Word): Word {
    (x << 1) | (x >> 31)
  }

  /** The other bits move up by one, the highest comes in as the lowest. */
  lemma RotateOneMoves(x: Word)
    ensures RotateOne(x) >> 1 == x & 0x7fff_ffff && RotateOne(x) & 1 == x >> 31
  {}

  /** Circular shift, one position at a time. */
  function Rotate(x: Word, s: Count): Word {
    if s == 0 then x else RotateOne(Rotate(x, s - 1))
  }

  lemma RotateOneMore(x: Word, s: Count)
    requires s != 0
    ensures RotateOne(BitRotateLeft(x, s - 1)) == BitRotateLeft(x, s)
  {}

  lemma {:induction false} BitRotateLeftIsRotate(x: Word, s: Count)
    ensures BitRotateLeft(x, s) == Rotate(x, s)
    decreases s
  {
    if s == 0 {
      assert (x << 0) | (x >> 32) == x;
    } else {
      hide BitRotateLeft, RotateOne;
      BitRotateLeftIsRotate(x, s - 1);
      RotateOneMore(x, s);
    }
  }
}
