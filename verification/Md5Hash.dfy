/** Padding in place, packing and unpacking, and the hash and HMAC built from them. */
module Md5Hash {
  import opened Md5Words
  import opened Md5Spec
  import opened Md5Rounds

  /** The array holds exactly the words of m, the last one filled up with zero bytes. */
  ghost predicate Holds(x: seq<Cell>, m: seq<Byte>) {
    && |x| == (|m| + 3) / 4
    && forall k: nat :: At(x, k) == WordAt(m, k)
  }

  // ---------------------------------------------------------------- padding in place

  function BlockCount(n: nat): nat { (8 * n + 64) / 512 + 1 }

  lemma PaddedLength(m: seq<Byte>)
    ensures |Padded(m)| == 64 * BlockCount(|m|)
    ensures |m| + 9 <= |Padded(m)|
  {
    var q, r := |m| / 64, |m| % 64;
    assert |m| == 64 * q + r;
    assert (8 * |m| + 64) / 512 == (|m| + 8) / 64;
    if r < 56 {
      assert (|m| + 8) / 64 == q;
    } else {
      assert (|m| + 8) / 64 == q + 1;
    }
  }

  lemma HighDigitsZero(n: nat)
    requires n < 0x8000_0000
    ensures DigitOf(n, 4) == DigitOf(n, 5) == DigitOf(n, 6) == DigitOf(n, 7) == 0
  {
    var a := n / 256 / 256 / 256 / 256;
    assert a == 0;
    assert DigitOf(n, 4) == DigitOf(n / 256, 3) == DigitOf(n / 256 / 256, 2)
        == DigitOf(n / 256 / 256 / 256, 1) == DigitOf(a, 0);
    assert DigitOf(n, 5) == DigitOf(n / 256, 4) == DigitOf(n / 256 / 256, 3)
        == DigitOf(n / 256 / 256 / 256, 2) == DigitOf(a, 1);
    assert DigitOf(n, 6) == DigitOf(n / 256, 5) == DigitOf(n / 256 / 256, 4)
        == DigitOf(n / 256 / 256 / 256, 3) == DigitOf(a, 2);
    assert DigitOf(n, 7) == DigitOf(n / 256, 6) == DigitOf(n / 256 / 256, 5)
        == DigitOf(n / 256 / 256 / 256, 4) == DigitOf(a, 3);
    assert DigitOf(0, 0) == DigitOf(0, 1) == DigitOf(0, 2) == DigitOf(0, 3) == 0;
  }

  lemma PackZero()
    ensures Pack(0, 0, 0, 0) == 0
  {}

  /** Byte j of the padded message, region by region. */
  lemma PaddedByte(m: seq<Byte>, j: nat)
    ensures ByteAt(Padded(m), j)
         == if j < |m| then m[j]
            else if j == |m| then 0x80
            else if j < |Padded(m)| - 8 then 0
            else if j < |Padded(m)| then DigitOf(8 * |m|, j - (|Padded(m)| - 8))
            else 0
  {
    PaddedLength(m);
  }

  function PadInPlace(x: seq<Cell>, len: nat): seq<Cell> {
    var x1 := Put(x, len / 32, Or(At(x, len / 32), ShiftedByte(len % 32 / 8, 0x80)));
    Put(x1, (len + 64) / 512 * 16 + 14, ToWord(len))
  }

  lemma WordOfLength(m: seq<Byte>, k: nat)
    requires 8 * |m| < 0x8000_0000 && 4 * k + 8 >= |Padded(m)|
    ensures WordAt(Padded(m), k) == if 4 * k + 8 == |Padded(m)| then ToWord(8 * |m|) else 0
  {
    hide Pack, DigitOf;
    PaddedLength(m);
    HighDigitsZero(8 * |m|);
    PackZero();
    PaddedByte(m, 4 * k);
    PaddedByte(m, 4 * k + 1);
    PaddedByte(m, 4 * k + 2);
    PaddedByte(m, 4 * k + 3);
  }

  lemma WordOfBody(m: seq<Byte>, k: nat)
    requires 4 * k + 8 < |Padded(m)|
    ensures WordAt(Padded(m), k)
         == if k == |m| / 4 then Or(WordAt(m, k), ShiftedByte(|m| % 4, 0x80)) else WordAt(m, k)
  {
    hide Pack, Or, ShiftedByte, DigitOf;
    PaddedLength(m);
    PaddedByte(m, 4 * k);
    PaddedByte(m, 4 * k + 1);
    PaddedByte(m, 4 * k + 2);
    PaddedByte(m, 4 * k + 3);
    if k == |m| / 4 {
      OrByteFills(ByteAt(m, 4 * k), ByteAt(m, 4 * k + 1), ByteAt(m, 4 * k + 2), ByteAt(m, 4 * k + 3), |m| % 4, 0x80);
    }
  }

  lemma AtPadInPlace(x: seq<Cell>, len: nat, k: nat)
    ensures At(PadInPlace(x, len), k)
         == if k == (len + 64) / 512 * 16 + 14 then ToWord(len)
            else if k == len / 32 then Or(At(x, len / 32), ShiftedByte(len % 32 / 8, 0x80))
            else At(x, k)
    ensures |x| <= (len + 64) / 512 * 16 + 14 && len / 32 < (len + 64) / 512 * 16 + 14
            ==> |PadInPlace(x, len)| == (len + 64) / 512 * 16 + 15
  {
    hide Or, ShiftedByte, At, ToWord;
  }

  /** The byte after the message comes before the two words of the length. */
  lemma PadSlots(n: nat)
    ensures 8 * n / 32 == n / 4 && 8 * n % 32 / 8 == n % 4
    ensures (8 * n + 64) / 512 * 16 + 14 == 16 * BlockCount(n) - 2
    ensures (n + 3) / 4 <= 16 * BlockCount(n) - 2 && n / 4 < 16 * BlockCount(n) - 2
  {}

  /** The two assignments of the padding never meet, and with missing slots read as zero they pad. */
  lemma PadInPlacePads(x: seq<Cell>, m: seq<Byte>, k: nat)
    requires Holds(x, m) && 8 * |m| < 0x8000_0000
    ensures At(PadInPlace(x, 8 * |m|), k) == WordAt(Padded(m), k)
    ensures |PadInPlace(x, 8 * |m|)| == 16 * BlockCount(|m|) - 1
  {
    hide Or, ShiftedByte, At, WordAt, Padded, ToWord, PadInPlace, BlockCount;
    PaddedLength(m);
    PadSlots(|m|);
    AtPadInPlace(x, 8 * |m|, k);
    if 4 * k + 8 < |Padded(m)| {
      WordOfBody(m, k);
    } else {
      WordOfLength(m, k);
      ZeroWord(m, k);
    }
  }

  // ---------------------------------------------------------------- the hash of an array

  /** One turn of the loop over the blocks. */
  method HashBlock(x: seq<Cell>, i: nat, a0: Word, b0: Word, c0: Word, d0: Word)
    returns (a: Word, b: Word, c: Word, d: Word)
    ensures Regs(a, b, c, d) == Compress(Regs(a0, b0, c0, d0), CellBlock(x, i))
  {
    hide Steps, Plus, SafeAdd;
    ghost var r0 := Regs(a0, b0, c0, d0);
    StepsNone(CellBlock(x, i), r0);
    a, b, c, d := FirstRound(x, i, a0, b0, c0, d0, r0);
    a, b, c, d := SecondRound(x, i, a, b, c, d, r0);
    a, b, c, d := ThirdRound(x, i, a, b, c, d, r0);
    a, b, c, d := FourthRound(x, i, a, b, c, d, r0);
    SafeAddIsPlus(a, a0);
    SafeAddIsPlus(b, b0);
    SafeAddIsPlus(c, c0);
    SafeAddIsPlus(d, d0);
    a, b, c, d := SafeAdd(a, a0), SafeAdd(b, b0), SafeAdd(c, c0), SafeAdd(d, d0);
  }

  method BinlMd5(x0: seq<Cell>, len: nat, ghost m: seq<Byte>) returns (r: seq<Word>)
    requires len == 8 * |m| < 0x8000_0000 && Holds(x0, m)
    ensures r == HashWords(m)
  {
    hide Compress, INITIAL, At, WordAt, PadInPlace, Padded;
    var x := PadInPlace(x0, len);
    ghost var p := Padded(m);
    PaddedLength(m);
    forall k: nat ensures At(x, k) == WordAt(p, k) { PadInPlacePads(x0, m, k); }
    PadInPlacePads(x0, m, 0);
    InitialRegisters();
    var a, b, c, d := 1732584193, -271733879, -1732584194, 271733878;
    var i := 0;
    while i < |x|
      invariant i % 16 == 0 && i / 16 <= BlockCount(|m|)
      invariant Regs(a, b, c, d) == Blocks(p, i / 16)
      decreases |x| + 16 - i
    {
      assert CellBlock(x, i) == BlockAt(p, i / 16);
      a, b, c, d := HashBlock(x, i, a, b, c, d);
      i := i + 16;
      assert i / 16 - 1 == (i - 16) / 16;
    }
    return [a, b, c, d];
  }

  lemma InitialRegisters()
    ensures INITIAL == Regs(1732584193, -271733879, -1732584194, 271733878)
  {}

  lemma StepsNone(x: seq<Word>, r: Regs)
    requires |x| == 16
    ensures Steps(x, r, 0) == r
  {}

  // ---------------------------------------------------------------- strings and arrays

  lemma WordOfMore(s: seq<Byte>, b: Byte, k: nat)
    ensures WordAt(s + [b], k)
         == if k == |s| / 4 then Or(WordAt(s, k), ShiftedByte(|s| % 4, b)) else WordAt(s, k)
  {
    hide Pack, Or, ShiftedByte;
    if k == |s| / 4 {
      OrByteFills(ByteAt(s, 4 * k), ByteAt(s, 4 * k + 1), ByteAt(s, 4 * k + 2), ByteAt(s, 4 * k + 3), |s| % 4, b);
    }
  }

  lemma AtHoles(n: nat, k: nat)
    ensures At(seq(n, _ => Hole), k) == 0
  {}

  /** One turn of the packing loop: the byte at bit position i is or-ed into its word. */
  method PackByte(cells: seq<Cell>, input: seq<Byte>, i: nat) returns (output: seq<Cell>)
    requires i % 8 == 0 && i < 8 * |input| && |cells| == Slots(|input|, i / 8)
    requires forall k: nat :: At(cells, k) == WordAt(input[..i / 8], k)
    ensures |output| == Slots(|input|, i / 8 + 1)
    ensures forall k: nat :: At(output, k) == WordAt(input[..i / 8 + 1], k)
  {
    hide At, WordAt, Slots, Pack, Or, ShiftedByte;
    var j := i / 8;
    ByteSlot(i);
    SlotsGrow(|input|, j);
    assert input[..j + 1] == input[..j] + [input[j]];
    output := Put(cells, i / 32, Or(At(cells, i / 32), ShiftedByte(i % 32 / 8, input[i / 8])));
    forall k: nat ensures At(output, k) == WordAt(input[..j + 1], k) {
      WordOfMore(input[..j], input[j], k);
    }
  }

  method Rstr2Binl(input: seq<Byte>) returns (output: seq<Cell>)
    ensures Holds(output, input)
  {
    hide At, WordAt, Slots;
    output := seq(|input| / 4, _ => Hole);
    forall k: nat ensures At(output, k) == 0 { AtHoles(|input| / 4, k); }
    for i := 0 to |output|
      invariant |output| == |input| / 4
      invariant forall k: nat :: At(output, k) == 0
    {
      output := Put(output, i, 0);
    }
    forall k: nat ensures WordAt(input[..0], k) == 0 { ZeroWord(input[..0], k); }
    SlotsGrow(|input|, 0);
    var i := 0;
    while i < 8 * |input|
      invariant i % 8 == 0 && i <= 8 * |input|
      invariant |output| == Slots(|input|, i / 8)
      invariant forall k: nat :: At(output, k) == WordAt(input[..i / 8], k)
    {
      output := PackByte(output, input, i);
      i := i + 8;
    }
    SlotsGrow(|input|, |input|);
    assert input[..|input|] == input;
  }

  /** The length of the array when n of the bytes are in: a quarter of them is there from the start. */
  function Slots(total: nat, n: nat): nat {
    if total / 4 >= (n + 3) / 4 then total / 4 else (n + 3) / 4
  }

  lemma SlotsGrow(total: nat, n: nat)
    ensures Slots(total, 0) == total / 4 && Slots(total, total) == (total + 3) / 4
    ensures n < total ==> Slots(total, n + 1) == if n / 4 < Slots(total, n) then Slots(total, n) else n / 4 + 1
  {}

  lemma ByteSlot(i: nat)
    requires i % 8 == 0
    ensures i / 32 == i / 8 / 4 && i % 32 / 8 == i / 8 % 4
  {}

  method Binl2Rstr(input: seq<Cell>) returns (output: seq<Byte>)
    ensures |output| == 4 * |input|
    ensures forall j :: 0 <= j < |output| ==> output[j] == LowByte(At(input, j / 4), j % 4)
  {
    output := [];
    var i := 0;
    while i < 32 * |input|
      invariant i == 8 * |output| <= 32 * |input|
      invariant forall j :: 0 <= j < |output| ==> output[j] == LowByte(At(input, j / 4), j % 4)
    {
      output := output + [LowByte(At(input, i / 32), i % 32 / 8)];
      i := i + 8;
    }
  }

  function Cells(ws: seq<Word>): (r: seq<Cell>)
    ensures |r| == |ws|
    ensures forall k: nat :: At(r, k) == if k < |ws| then ws[k] else 0
  {
    seq(|ws|, k requires 0 <= k < |ws| => Slot(ws[k]))
  }

  lemma BytesOfWord(ws: seq<Word>, k: nat)
    requires k < |ws|
    ensures ByteAt(Bytes(ws), 4 * k) == LowByte(ws[k], 0)
    ensures ByteAt(Bytes(ws), 4 * k + 1) == LowByte(ws[k], 1)
    ensures ByteAt(Bytes(ws), 4 * k + 2) == LowByte(ws[k], 2)
    ensures ByteAt(Bytes(ws), 4 * k + 3) == LowByte(ws[k], 3)
  {
    hide LowByte;
  }

  lemma BytesHeld(ws: seq<Word>)
    ensures Holds(Cells(ws), Bytes(ws))
  {
    hide Pack, LowByte, ByteAt, Bytes;
    forall k: nat ensures At(Cells(ws), k) == WordAt(Bytes(ws), k) {
      if k < |ws| {
        BytesOfWord(ws, k);
        PackLowBytes(ws[k]);
      } else {
        ZeroWord(Bytes(ws), k);
      }
    }
  }

  /** Unpacking a packed string gives the string back, filled up with zeros to a whole word. */
  method PackUnpack(s: seq<Byte>) returns (r: seq<Byte>)
    ensures |r| == 4 * ((|s| + 3) / 4)
    ensures forall j :: 0 <= j < |r| ==> r[j] == ByteAt(s, j)
  {
    var x := Rstr2Binl(s);
    r := Binl2Rstr(x);
    hide Pack, LowByte;
    forall j | 0 <= j < |r| ensures r[j] == ByteAt(s, j) {
      var k := j / 4;
      LowBytesPack(ByteAt(s, 4 * k), ByteAt(s, 4 * k + 1), ByteAt(s, 4 * k + 2), ByteAt(s, 4 * k + 3));
    }
  }

  method RstrMd5(s: seq<Byte>) returns (r: seq<Byte>)
    requires 8 * |s| < 0x8000_0000
    ensures r == Md5(s)
  {
    var x := Rstr2Binl(s);
    var h := BinlMd5(x, |s| * 8, s);
    r := Binl2Rstr(Cells(h));
    hide LowByte;
    assert r == Bytes(h);
  }

  // ---------------------------------------------------------------- HMAC

  /** Sixteen words of a block key, each combined with the pad word. */
  lemma XorWords(key: seq<Byte>, p: Byte, k: nat)
    requires |key| == 64 && k < 16
    ensures WordAt(XorAll(key, p), k) == Xor(WordAt(key, k), Pack(p, p, p, p))
  {
    hide Pack, Xor, XorByte;
    XorPack(key[4 * k], key[4 * k + 1], key[4 * k + 2], key[4 * k + 3], p, p, p, p);
  }

  /** Packing distributes over concatenation when the first part is a whole number of words. */
  lemma HoldsConcat(x: seq<Cell>, y: seq<Cell>, s: seq<Byte>, t: seq<Byte>)
    requires Holds(x, s) && Holds(y, t) && |s| % 4 == 0
    ensures Holds(x + y, s + t)
  {
    hide WordAt;
    forall k: nat ensures At(x + y, k) == WordAt(s + t, k) {
      if k < |x| {
        assert At(x, k) == WordAt(s, k);
        SameBytesSameWord(s + t, k, s, k);
      } else {
        assert At(y, k - |x|) == WordAt(t, k - |x|);
        assert 4 * |x| == |s|;
        SameBytesSameWord(s + t, k, t, k - |x|);
      }
    }
  }

  lemma PadWords()
    ensures Pack(0x36, 0x36, 0x36, 0x36) == 0x36363636
    ensures Pack(0x5c, 0x5c, 0x5c, 0x5c) == 0x5c5c5c5c
  {}

  /** The words of a key, short or hashed, as the code keeps them: missing words count as zero. */
  lemma BlockKeyWords(bkey: seq<Cell>, k0: seq<Byte>, k: nat)
    requires Holds(bkey, k0) && |k0| <= 64
    ensures At(bkey, k) == WordAt(k0 + seq(64 - |k0|, _ => 0), k)
  {
    hide WordAt;
    assert At(bkey, k) == WordAt(k0, k);
    SameBytesSameWord(k0 + seq(64 - |k0|, _ => 0), k, k0, k);
  }

  method KeyWords(key: seq<Byte>) returns (bkey: seq<Cell>)
    requires 8 * |key| < 0x8000_0000
    ensures forall k: nat :: At(bkey, k) == WordAt(BlockKey(key), k)
  {
    hide WordAt, At, HashWords;
    bkey := Rstr2Binl(key);
    ghost var k0 := key;
    if |bkey| > 16 {
      var h := BinlMd5(bkey, |key| * 8, key);
      bkey := Cells(h);
      BytesHeld(h);
      k0 := Md5(key);
    }
    forall k: nat ensures At(bkey, k) == WordAt(BlockKey(key), k) {
      BlockKeyWords(bkey, k0, k);
    }
  }

  /** The two padded keys, sixteen words each. */
  method PadKey(bkey: seq<Cell>, ghost bk: seq<Byte>) returns (ipad: seq<Cell>, opad: seq<Cell>)
    requires |bk| == 64 && forall k: nat :: At(bkey, k) == WordAt(bk, k)
    ensures Holds(ipad, XorAll(bk, 0x36)) && Holds(opad, XorAll(bk, 0x5c))
  {
    hide Pack, Xor, WordAt, At, XorAll;
    ipad := seq(16, _ => Hole);
    opad := seq(16, _ => Hole);
    PadWords();
    for i := 0 to 16
      invariant |ipad| == |opad| == 16
      invariant forall k: nat :: k < i ==> At(ipad, k) == WordAt(XorAll(bk, 0x36), k)
      invariant forall k: nat :: k < i ==> At(opad, k) == WordAt(XorAll(bk, 0x5c), k)
    {
      XorWords(bk, 0x36, i);
      XorWords(bk, 0x5c, i);
      ipad := Put(ipad, i, Xor(At(bkey, i), 0x36363636));
      opad := Put(opad, i, Xor(At(bkey, i), 0x5c5c5c5c));
    }
    forall k: nat
      ensures At(ipad, k) == WordAt(XorAll(bk, 0x36), k)
      ensures At(opad, k) == WordAt(XorAll(bk, 0x5c), k)
    {
      if k >= 16 {
        ZeroWord(XorAll(bk, 0x36), k);
        ZeroWord(XorAll(bk, 0x5c), k);
        AtBeyond(ipad, k);
        AtBeyond(opad, k);
      }
    }
  }

  lemma AtBeyond(x: seq<Cell>, k: nat)
    requires |x| <= k
    ensures At(x, k) == 0
  {}

  method RstrHmacMd5(key: seq<Byte>, data: seq<Byte>) returns (r: seq<Byte>)
    requires 8 * |key| < 0x8000_0000 && 512 + 8 * |data| < 0x8000_0000
    ensures r == Hmac(key, data)
  {
    hide Holds, LowByte, HashWords, At, XorAll, BlockKey;
    ghost var bk := BlockKey(key);
    var bkey := KeyWords(key);
    var ipad, opad := PadKey(bkey, bk);
    var x := Rstr2Binl(data);
    HoldsConcat(ipad, x, XorAll(bk, 0x36), data);
    var hash := BinlMd5(ipad + x, 512 + |data| * 8, XorAll(bk, 0x36) + data);
    BytesHeld(hash);
    HoldsConcat(opad, Cells(hash), XorAll(bk, 0x5c), Bytes(hash));
    var outer := BinlMd5(opad + Cells(hash), 512 + 128, XorAll(bk, 0x5c) + Bytes(hash));
    r := Binl2Rstr(Cells(outer));
    assert r == Bytes(outer);
  }
}
