/** The hash code: unrolled rounds, in-place padding and packing loops, and what they compute. */
module Md5Rounds {
  import opened Md5Words
  import opened Md5Spec

  function Md5Cmn(q: Word, a: Word, b: Word, x: Word, s: Count, t: Word): Word {
    SafeAdd(BitRotateLeft(SafeAdd(SafeAdd(a, q), SafeAdd(x, t)), s), b)
  }
  function Md5Ff(a: Word, b: Word, c: Word, d: Word, x: Word, s: Count, t: Word): Word {
    Md5Cmn((b & c) | (!b & d), a, b, x, s, t)
  }
  function Md5Gg(a: Word, b: Word, c: Word, d: Word, x: Word, s: Count, t: Word): Word {
    Md5Cmn((b & d) | (c & !d), a, b, x, s, t)
  }
  function Md5Hh(a: Word, b: Word, c: Word, d: Word, x: Word, s: Count, t: Word): Word {
    Md5Cmn(b ^ c ^ d, a, b, x, s, t)
  }
  function Md5Ii(a: Word, b: Word, c: Word, d: Word, x: Word, s: Count, t: Word): Word {
    Md5Cmn(c ^ (b | !d), a, b, x, s, t)
  }

  function Op(round: nat, a: Word, b: Word, c: Word, d: Word, x: Word, s: Count, t: Word): Word {
    if round == 0 then Md5Ff(a, b, c, d, x, s, t)
    else if round == 1 then Md5Gg(a, b, c, d, x, s, t)
    else if round == 2 then Md5Hh(a, b, c, d, x, s, t)
    else Md5Ii(a, b, c, d, x, s, t)
  }

  lemma CmnIsStep(q: Word, a: Word, b: Word, x: Word, s: Count, t: Word)
    ensures Md5Cmn(q, a, b, x, s, t) == Plus(b, Rotate(Plus(Plus(Plus(a, q), x), t), s))
  {
    hide Plus, SafeAdd, BitRotateLeft, Rotate;
    SafeAddIsPlus(a, q);
    SafeAddIsPlus(x, t);
    SafeAddIsPlus(Plus(a, q), Plus(x, t));
    PlusAssoc(Plus(a, q), x, t);
    var sum := Plus(Plus(a, q), Plus(x, t));
    BitRotateLeftIsRotate(sum, s);
    SafeAddIsPlus(Rotate(sum, s), b);
    PlusCommutes(b, Rotate(sum, s));
  }

  lemma FfIsCmn(a: Word, b: Word, c: Word, d: Word, x: Word, s: Count, t: Word)
    ensures Md5Ff(a, b, c, d, x, s, t) == Md5Cmn(F(b, c, d), a, b, x, s, t)
  {
    hide Md5Cmn;
  }

  lemma GgIsCmn(a: Word, b: Word, c: Word, d: Word, x: Word, s: Count, t: Word)
    ensures Md5Gg(a, b, c, d, x, s, t) == Md5Cmn(G(b, c, d), a, b, x, s, t)
  {
    hide Md5Cmn;
  }

  lemma HhIsCmn(a: Word, b: Word, c: Word, d: Word, x: Word, s: Count, t: Word)
    ensures Md5Hh(a, b, c, d, x, s, t) == Md5Cmn(H(b, c, d), a, b, x, s, t)
  {
    hide Md5Cmn;
  }

  lemma IiIsCmn(a: Word, b: Word, c: Word, d: Word, x: Word, s: Count, t: Word)
    ensures Md5Ii(a, b, c, d, x, s, t) == Md5Cmn(I(b, c, d), a, b, x, s, t)
  {
    hide Md5Cmn;
  }

  lemma OpIsCmn(round: nat, a: Word, b: Word, c: Word, d: Word, x: Word, s: Count, t: Word)
    ensures Op(round, a, b, c, d, x, s, t) == Md5Cmn(Aux(round, b, c, d), a, b, x, s, t)
  {
    hide Md5Cmn, F, G, H, I, Md5Ff, Md5Gg, Md5Hh, Md5Ii;
    FfIsCmn(a, b, c, d, x, s, t);
    GgIsCmn(a, b, c, d, x, s, t);
    HhIsCmn(a, b, c, d, x, s, t);
    IiIsCmn(a, b, c, d, x, s, t);
  }

  lemma OpIsAux(round: nat, a: Word, b: Word, c: Word, d: Word, x: Word, s: Count, t: Word)
    ensures Op(round, a, b, c, d, x, s, t) == Plus(b, Rotate(Plus(Plus(Plus(a, Aux(round, b, c, d)), x), t), s))
  {
    hide *;
    OpIsCmn(round, a, b, c, d, x, s, t);
    CmnIsStep(Aux(round, b, c, d), a, b, x, s, t);
  }

  /** One line of the unrolled rounds is one table-driven step. */
  lemma LineIsStep(x: seq<Word>, r0: Regs, j: nat, a: Word, b: Word, c: Word, d: Word)
    requires |x| == 16 && j < 64 && Steps(x, r0, j) == Regs(a, b, c, d)
    ensures Steps(x, r0, j + 1)
         == Regs(d, Op(j / 16, a, b, c, d, x[WordIndex(j)], Amount(j), Sine(j)), b, c)
  {
    hide Plus, Rotate, Aux, Op, Amount, WordIndex, Sine;
    OpIsAux(j / 16, a, b, c, d, x[WordIndex(j)], Amount(j), Sine(j));
  }

  /** Four lines bring the registers back to their roles. */
  lemma FourLines(x: seq<Word>, r0: Regs, j: nat, a: Word, b: Word, c: Word, d: Word)
    requires |x| == 16 && j <= 60 && Steps(x, r0, j) == Regs(a, b, c, d)
    ensures var a1 := Op(j / 16, a, b, c, d, x[WordIndex(j)], Amount(j), Sine(j));
            var d1 := Op((j + 1) / 16, d, a1, b, c, x[WordIndex(j + 1)], Amount(j + 1), Sine(j + 1));
            var c1 := Op((j + 2) / 16, c, d1, a1, b, x[WordIndex(j + 2)], Amount(j + 2), Sine(j + 2));
            var b1 := Op((j + 3) / 16, b, c1, d1, a1, x[WordIndex(j + 3)], Amount(j + 3), Sine(j + 3));
            Steps(x, r0, j + 4) == Regs(a1, b1, c1, d1)
  {
    hide Op, Steps, Amount, WordIndex, Sine;
    var a1 := Op(j / 16, a, b, c, d, x[WordIndex(j)], Amount(j), Sine(j));
    var d1 := Op((j + 1) / 16, d, a1, b, c, x[WordIndex(j + 1)], Amount(j + 1), Sine(j + 1));
    var c1 := Op((j + 2) / 16, c, d1, a1, b, x[WordIndex(j + 2)], Amount(j + 2), Sine(j + 2));
    LineIsStep(x, r0, j, a, b, c, d);
    LineIsStep(x, r0, j + 1, d, a1, b, c);
    LineIsStep(x, r0, j + 2, c, d1, a1, b);
    LineIsStep(x, r0, j + 3, b, c1, d1, a1);
  }

  function CellBlock(x: seq<Cell>, i: nat): (r: seq<Word>)
    ensures |r| == 16
  {
    seq(16, k requires 0 <= k < 16 => At(x, i + k))
  }

  /** The constants written in lines 1 to 16 are the ones of the tables. */
  lemma FirstRoundTables()
    ensures Sine(0) == -680876936 && Sine(1) == -389564586 && Sine(2) == 606105819 && Sine(3) == -1044525330
    ensures WordIndex(0) == 0 && WordIndex(1) == 1 && WordIndex(2) == 2 && WordIndex(3) == 3
    ensures Amount(0) == 7 && Amount(1) == 12 && Amount(2) == 17 && Amount(3) == 22
    ensures Sine(4) == -176418897 && Sine(5) == 1200080426 && Sine(6) == -1473231341 && Sine(7) == -45705983
    ensures WordIndex(4) == 4 && WordIndex(5) == 5 && WordIndex(6) == 6 && WordIndex(7) == 7
    ensures Amount(4) == 7 && Amount(5) == 12 && Amount(6) == 17 && Amount(7) == 22
    ensures Sine(8) == 1770035416 && Sine(9) == -1958414417 && Sine(10) == -42063 && Sine(11) == -1990404162
    ensures WordIndex(8) == 8 && WordIndex(9) == 9 && WordIndex(10) == 10 && WordIndex(11) == 11
    ensures Amount(8) == 7 && Amount(9) == 12 && Amount(10) == 17 && Amount(11) == 22
    ensures Sine(12) == 1804603682 && Sine(13) == -40341101 && Sine(14) == -1502002290 && Sine(15) == 1236535329
    ensures WordIndex(12) == 12 && WordIndex(13) == 13 && WordIndex(14) == 14 && WordIndex(15) == 15
    ensures Amount(12) == 7 && Amount(13) == 12 && Amount(14) == 17 && Amount(15) == 22
  {}

  /** The constants written in lines 17 to 32 are the ones of the tables. */
  lemma SecondRoundTables()
    ensures Sine(16) == -165796510 && Sine(17) == -1069501632 && Sine(18) == 643717713 && Sine(19) == -373897302
    ensures WordIndex(16) == 1 && WordIndex(17) == 6 && WordIndex(18) == 11 && WordIndex(19) == 0
    ensures Amount(16) == 5 && Amount(17) == 9 && Amount(18) == 14 && Amount(19) == 20
    ensures Sine(20) == -701558691 && Sine(21) == 38016083 && Sine(22) == -660478335 && Sine(23) == -405537848
    ensures WordIndex(20) == 5 && WordIndex(21) == 10 && WordIndex(22) == 15 && WordIndex(23) == 4
    ensures Amount(20) == 5 && Amount(21) == 9 && Amount(22) == 14 && Amount(23) == 20
    ensures Sine(24) == 568446438 && Sine(25) == -1019803690 && Sine(26) == -187363961 && Sine(27) == 1163531501
    ensures WordIndex(24) == 9 && WordIndex(25) == 14 && WordIndex(26) == 3 && WordIndex(27) == 8
    ensures Amount(24) == 5 && Amount(25) == 9 && Amount(26) == 14 && Amount(27) == 20
    ensures Sine(28) == -1444681467 && Sine(29) == -51403784 && Sine(30) == 1735328473 && Sine(31) == -1926607734
    ensures WordIndex(28) == 13 && WordIndex(29) == 2 && WordIndex(30) == 7 && WordIndex(31) == 12
    ensures Amount(28) == 5 && Amount(29) == 9 && Amount(30) == 14 && Amount(31) == 20
  {}

  /** The constants written in lines 33 to 48 are the ones of the tables. */
  lemma ThirdRoundTables()
    ensures Sine(32) == -378558 && Sine(33) == -2022574463 && Sine(34) == 1839030562 && Sine(35) == -35309556
    ensures WordIndex(32) == 5 && WordIndex(33) == 8 && WordIndex(34) == 11 && WordIndex(35) == 14
    ensures Amount(32) == 4 && Amount(33) == 11 && Amount(34) == 16 && Amount(35) == 23
    ensures Sine(36) == -1530992060 && Sine(37) == 1272893353 && Sine(38) == -155497632 && Sine(39) == -1094730640
    ensures WordIndex(36) == 1 && WordIndex(37) == 4 && WordIndex(38) == 7 && WordIndex(39) == 10
    ensures Amount(36) == 4 && Amount(37) == 11 && Amount(38) == 16 && Amount(39) == 23
    ensures Sine(40) == 681279174 && Sine(41) == -358537222 && Sine(42) == -722521979 && Sine(43) == 76029189
    ensures WordIndex(40) == 13 && WordIndex(41) == 0 && WordIndex(42) == 3 && WordIndex(43) == 6
    ensures Amount(40) == 4 && Amount(41) == 11 && Amount(42) == 16 && Amount(43) == 23
    ensures Sine(44) == -640364487 && Sine(45) == -421815835 && Sine(46) == 530742520 && Sine(47) == -995338651
    ensures WordIndex(44) == 9 && WordIndex(45) == 12 && WordIndex(46) == 15 && WordIndex(47) == 2
    ensures Amount(44) == 4 && Amount(45) == 11 && Amount(46) == 16 && Amount(47) == 23
  {}

  /** The constants written in lines 49 to 64 are the ones of the tables. */
  lemma FourthRoundTables()
    ensures Sine(48) == -198630844 && Sine(49) == 1126891415 && Sine(50) == -1416354905 && Sine(51) == -57434055
    ensures WordIndex(48) == 0 && WordIndex(49) == 7 && WordIndex(50) == 14 && WordIndex(51) == 5
    ensures Amount(48) == 6 && Amount(49) == 10 && Amount(50) == 15 && Amount(51) == 21
    ensures Sine(52) == 1700485571 && Sine(53) == -1894986606 && Sine(54) == -1051523 && Sine(55) == -2054922799
    ensures WordIndex(52) == 12 && WordIndex(53) == 3 && WordIndex(54) == 10 && WordIndex(55) == 1
    ensures Amount(52) == 6 && Amount(53) == 10 && Amount(54) == 15 && Amount(55) == 21
    ensures Sine(56) == 1873313359 && Sine(57) == -30611744 && Sine(58) == -1560198380 && Sine(59) == 1309151649
    ensures WordIndex(56) == 8 && WordIndex(57) == 15 && WordIndex(58) == 6 && WordIndex(59) == 13
    ensures Amount(56) == 6 && Amount(57) == 10 && Amount(58) == 15 && Amount(59) == 21
    ensures Sine(60) == -145523070 && Sine(61) == -1120210379 && Sine(62) == 718787259 && Sine(63) == -343485551
    ensures WordIndex(60) == 4 && WordIndex(61) == 11 && WordIndex(62) == 2 && WordIndex(63) == 9
    ensures Amount(60) == 6 && Amount(61) == 10 && Amount(62) == 15 && Amount(63) == 21
  {}

  /** Lines 1 to 8 of the unrolled rounds, for the block that starts at slot i. */
  method FirstHalf(x: seq<Cell>, i: nat, a0: Word, b0: Word, c0: Word, d0: Word, ghost r0: Regs)
    returns (a: Word, b: Word, c: Word, d: Word)
    requires Steps(CellBlock(x, i), r0, 0) == Regs(a0, b0, c0, d0)
    ensures Steps(CellBlock(x, i), r0, 8) == Regs(a, b, c, d)
  {
    hide At, Steps, Md5Ff, Md5Gg, Md5Hh, Md5Ii;
    hide Sine, WordIndex, Amount;
    FirstRoundTables();
    ghost var blk := CellBlock(x, i);
    a, b, c, d := a0, b0, c0, d0;
    FourLines(blk, r0, 0, a, b, c, d);
    a := Md5Ff(a, b, c, d, At(x, i), 7, -680876936);
    d := Md5Ff(d, a, b, c, At(x, i + 1), 12, -389564586);
    c := Md5Ff(c, d, a, b, At(x, i + 2), 17, 606105819);
    b := Md5Ff(b, c, d, a, At(x, i + 3), 22, -1044525330);
    FourLines(blk, r0, 4, a, b, c, d);
    a := Md5Ff(a, b, c, d, At(x, i + 4), 7, -176418897);
    d := Md5Ff(d, a, b, c, At(x, i + 5), 12, 1200080426);
    c := Md5Ff(c, d, a, b, At(x, i + 6), 17, -1473231341);
    b := Md5Ff(b, c, d, a, At(x, i + 7), 22, -45705983);
  }

  /** Lines 9 to 16 of the unrolled rounds, for the block that starts at slot i. */
  method SecondHalf(x: seq<Cell>, i: nat, a0: Word, b0: Word, c0: Word, d0: Word, ghost r0: Regs)
    returns (a: Word, b: Word, c: Word, d: Word)
    requires Steps(CellBlock(x, i), r0, 8) == Regs(a0, b0, c0, d0)
    ensures Steps(CellBlock(x, i), r0, 16) == Regs(a, b, c, d)
  {
    hide At, Steps, Md5Ff, Md5Gg, Md5Hh, Md5Ii;
    hide Sine, WordIndex, Amount;
    FirstRoundTables();
    ghost var blk := CellBlock(x, i);
    a, b, c, d := a0, b0, c0, d0;
    FourLines(blk, r0, 8, a, b, c, d);
    a := Md5Ff(a, b, c, d, At(x, i + 8), 7, 1770035416);
    d := Md5Ff(d, a, b, c, At(x, i + 9), 12, -1958414417);
    c := Md5Ff(c, d, a, b, At(x, i + 10), 17, -42063);
    b := Md5Ff(b, c, d, a, At(x, i + 11), 22, -1990404162);
    FourLines(blk, r0, 12, a, b, c, d);
    a := Md5Ff(a, b, c, d, At(x, i + 12), 7, 1804603682);
    d := Md5Ff(d, a, b, c, At(x, i + 13), 12, -40341101);
    c := Md5Ff(c, d, a, b, At(x, i + 14), 17, -1502002290);
    b := Md5Ff(b, c, d, a, At(x, i + 15), 22, 1236535329);
  }

  /** Lines 1 to 16 of the unrolled rounds, for the block that starts at slot i. */
  method FirstRound(x: seq<Cell>, i: nat, a0: Word, b0: Word, c0: Word, d0: Word, ghost r0: Regs)
    returns (a: Word, b: Word, c: Word, d: Word)
    requires Steps(CellBlock(x, i), r0, 0) == Regs(a0, b0, c0, d0)
    ensures Steps(CellBlock(x, i), r0, 16) == Regs(a, b, c, d)
  {
    hide Steps, CellBlock;
    a, b, c, d := FirstHalf(x, i, a0, b0, c0, d0, r0);
    a, b, c, d := SecondHalf(x, i, a, b, c, d, r0);
  }

  /** Lines 17 to 32 of the unrolled rounds, for the block that starts at slot i. */
  method SecondRound(x: seq<Cell>, i: nat, a0: Word, b0: Word, c0: Word, d0: Word, ghost r0: Regs)
    returns (a: Word, b: Word, c: Word, d: Word)
    requires Steps(CellBlock(x, i), r0, 16) == Regs(a0, b0, c0, d0)
    ensures Steps(CellBlock(x, i), r0, 32) == Regs(a, b, c, d)
  {
    hide At, Steps, Md5Ff, Md5Gg, Md5Hh, Md5Ii;
    hide Sine, WordIndex, Amount;
    SecondRoundTables();
    ghost var blk := CellBlock(x, i);
    a, b, c, d := a0, b0, c0, d0;
    FourLines(blk, r0, 16, a, b, c, d);
    a := Md5Gg(a, b, c, d, At(x, i + 1), 5, -165796510);
    d := Md5Gg(d, a, b, c, At(x, i + 6), 9, -1069501632);
    c := Md5Gg(c, d, a, b, At(x, i + 11), 14, 643717713);
    b := Md5Gg(b, c, d, a, At(x, i), 20, -373897302);
    FourLines(blk, r0, 20, a, b, c, d);
    a := Md5Gg(a, b, c, d, At(x, i + 5), 5, -701558691);
    d := Md5Gg(d, a, b, c, At(x, i + 10), 9, 38016083);
    c := Md5Gg(c, d, a, b, At(x, i + 15), 14, -660478335);
    b := Md5Gg(b, c, d, a, At(x, i + 4), 20, -405537848);
    FourLines(blk, r0, 24, a, b, c, d);
    a := Md5Gg(a, b, c, d, At(x, i + 9), 5, 568446438);
    d := Md5Gg(d, a, b, c, At(x, i + 14), 9, -1019803690);
    c := Md5Gg(c, d, a, b, At(x, i + 3), 14, -187363961);
    b := Md5Gg(b, c, d, a, At(x, i + 8), 20, 1163531501);
    FourLines(blk, r0, 28, a, b, c, d);
    a := Md5Gg(a, b, c, d, At(x, i + 13), 5, -1444681467);
    d := Md5Gg(d, a, b, c, At(x, i + 2), 9, -51403784);
    c := Md5Gg(c, d, a, b, At(x, i + 7), 14, 1735328473);
    b := Md5Gg(b, c, d, a, At(x, i + 12), 20, -1926607734);
  }

  /** Lines 33 to 48 of the unrolled rounds, for the block that starts at slot i. */
  method ThirdRound(x: seq<Cell>, i: nat, a0: Word, b0: Word, c0: Word, d0: Word, ghost r0: Regs)
    returns (a: Word, b: Word, c: Word, d: Word)
    requires Steps(CellBlock(x, i), r0, 32) == Regs(a0, b0, c0, d0)
    ensures Steps(CellBlock(x, i), r0, 48) == Regs(a, b, c, d)
  {
    hide At, Steps, Md5Ff, Md5Gg, Md5Hh, Md5Ii;
    hide Sine, WordIndex, Amount;
    ThirdRoundTables();
    ghost var blk := CellBlock(x, i);
    a, b, c, d := a0, b0, c0, d0;
    FourLines(blk, r0, 32, a, b, c, d);
    a := Md5Hh(a, b, c, d, At(x, i + 5), 4, -378558);
    d := Md5Hh(d, a, b, c, At(x, i + 8), 11, -2022574463);
    c := Md5Hh(c, d, a, b, At(x, i + 11), 16, 1839030562);
    b := Md5Hh(b, c, d, a, At(x, i + 14), 23, -35309556);
    FourLines(blk, r0, 36, a, b, c, d);
    a := Md5Hh(a, b, c, d, At(x, i + 1), 4, -1530992060);
    d := Md5Hh(d, a, b, c, At(x, i + 4), 11, 1272893353);
    c := Md5Hh(c, d, a, b, At(x, i + 7), 16, -155497632);
    b := Md5Hh(b, c, d, a, At(x, i + 10), 23, -1094730640);
    FourLines(blk, r0, 40, a, b, c, d);
    a := Md5Hh(a, b, c, d, At(x, i + 13), 4, 681279174);
    d := Md5Hh(d, a, b, c, At(x, i), 11, -358537222);
    c := Md5Hh(c, d, a, b, At(x, i + 3), 16, -722521979);
    b := Md5Hh(b, c, d, a, At(x, i + 6), 23, 76029189);
    FourLines(blk, r0, 44, a, b, c, d);
    a := Md5Hh(a, b, c, d, At(x, i + 9), 4, -640364487);
    d := Md5Hh(d, a, b, c, At(x, i + 12), 11, -421815835);
    c := Md5Hh(c, d, a, b, At(x, i + 15), 16, 530742520);
    b := Md5Hh(b, c, d, a, At(x, i + 2), 23, -995338651);
  }

  /** Lines 49 to 64 of the unrolled rounds, for the block that starts at slot i. */
  method FourthRound(x: seq<Cell>, i: nat, a0: Word, b0: Word, c0: Word, d0: Word, ghost r0: Regs)
    returns (a: Word, b: Word, c: Word, d: Word)
    requires Steps(CellBlock(x, i), r0, 48) == Regs(a0, b0, c0, d0)
    ensures Steps(CellBlock(x, i), r0, 64) == Regs(a, b, c, d)
  {
    hide At, Steps, Md5Ff, Md5Gg, Md5Hh, Md5Ii;
    hide Sine, WordIndex, Amount;
    FourthRoundTables();
    ghost var blk := CellBlock(x, i);
    a, b, c, d := a0, b0, c0, d0;
    FourLines(blk, r0, 48, a, b, c, d);
    a := Md5Ii(a, b, c, d, At(x, i), 6, -198630844);
    d := Md5Ii(d, a, b, c, At(x, i + 7), 10, 1126891415);
    c := Md5Ii(c, d, a, b, At(x, i + 14), 15, -1416354905);
    b := Md5Ii(b, c, d, a, At(x, i + 5), 21, -57434055);
    FourLines(blk, r0, 52, a, b, c, d);
    a := Md5Ii(a, b, c, d, At(x, i + 12), 6, 1700485571);
    d := Md5Ii(d, a, b, c, At(x, i + 3), 10, -1894986606);
    c := Md5Ii(c, d, a, b, At(x, i + 10), 15, -1051523);
    b := Md5Ii(b, c, d, a, At(x, i + 1), 21, -2054922799);
    FourLines(blk, r0, 56, a, b, c, d);
    a := Md5Ii(a, b, c, d, At(x, i + 8), 6, 1873313359);
    d := Md5Ii(d, a, b, c, At(x, i + 15), 10, -30611744);
    c := Md5Ii(c, d, a, b, At(x, i + 6), 15, -1560198380);
    b := Md5Ii(b, c, d, a, At(x, i + 13), 21, 1309151649);
    FourLines(blk, r0, 60, a, b, c, d);
    a := Md5Ii(a, b, c, d, At(x, i + 4), 6, -145523070);
    d := Md5Ii(d, a, b, c, At(x, i + 11), 10, -1120210379);
    c := Md5Ii(c, d, a, b, At(x, i + 2), 15, 718787259);
    b := Md5Ii(b, c, d, a, At(x, i + 9), 21, -343485551);
  }
}
