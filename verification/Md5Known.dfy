/** A known answer: the hash of "abc", as section A.5 of RFC 1321 lists it. */
module Md5Known {
  import opened Md5Words
  import opened Md5Spec
  import opened Md5Rounds

  const ABC: seq<Byte> := [0x61, 0x62, 0x63]

  const BLOCK: seq<Word> := [0x80636261, 0, 0, 0, 0, 0, 0, 0, 0, 0, 0, 0, 0, 0, 24, 0]

  /** The registers after j steps. */
  predicate Known(j: nat, a: Word, b: Word, c: Word, d: Word) {
    j <= 64 && Steps(BLOCK, INITIAL, j) == Regs(a, b, c, d)
  }

  function New(round: nat, a: Word, b: Word, c: Word, d: Word, w: Word, t: Word, s: Count): Word {
    Plus(b, BitRotateLeft(Plus(Plus(Plus(a, Aux(round, b, c, d)), w), t), s))
  }

  lemma Next(j: nat, a: Word, b: Word, c: Word, d: Word, w: Word, t: Word, s: Count, e: Word)
    requires j < 64 && Known(j, a, b, c, d) && New(j / 16, a, b, c, d, w, t, s) == e
    requires BLOCK[WordIndex(j)] == w && Sine(j) == t && Amount(j) == s
    ensures Known(j + 1, d, e, b, c)
  {
    hide Plus, BitRotateLeft, Rotate, Aux, Sine, Amount, WordIndex;
    BitRotateLeftIsRotate(Plus(Plus(Plus(a, Aux(j / 16, b, c, d)), w), t), s);
  }

  lemma Steps0()
    ensures Known(0, 0x67452301, 0xefcdab89, 0x98badcfe, 0x10325476)
  {}

  lemma Values8()
    ensures New(0, 0x67452301, 0xefcdab89, 0x98badcfe, 0x10325476, 0x80636261, 0xd76aa478, 7) == 0xd6d117b4
    ensures New(0, 0x10325476, 0xd6d117b4, 0xefcdab89, 0x98badcfe, 0, 0xe8c7b756, 12) == 0x344a8432
    ensures New(0, 0x98badcfe, 0x344a8432, 0xd6d117b4, 0xefcdab89, 0, 0x242070db, 17) == 0x2f6fbd72
    ensures New(0, 0xefcdab89, 0x2f6fbd72, 0x344a8432, 0xd6d117b4, 0, 0xc1bdceee, 22) == 0x7ad956f2
    ensures New(0, 0xd6d117b4, 0x7ad956f2, 0x2f6fbd72, 0x344a8432, 0, 0xf57c0faf, 7) == 0xc73741ef
    ensures New(0, 0x344a8432, 0xc73741ef, 0x7ad956f2, 0x2f6fbd72, 0, 0x4787c62a, 12) == 0x8bac3051
    ensures New(0, 0x2f6fbd72, 0x8bac3051, 0xc73741ef, 0x7ad956f2, 0, 0xa8304613, 17) == 0x207dc67b
    ensures New(0, 0x7ad956f2, 0x207dc67b, 0x8bac3051, 0xc73741ef, 0, 0xfd469501, 22) == 0x928d99f6
  {}

  lemma Steps8()
    ensures Known(8, 0xc73741ef, 0x928d99f6, 0x207dc67b, 0x8bac3051)
  {
    hide Known, Steps, Sine, WordIndex, Amount, New;
    Values8();
    FirstRoundTables();
    Steps0();
    Next(0, 0x67452301, 0xefcdab89, 0x98badcfe, 0x10325476, 0x80636261, 0xd76aa478, 7, 0xd6d117b4);
    Next(1, 0x10325476, 0xd6d117b4, 0xefcdab89, 0x98badcfe, 0, 0xe8c7b756, 12, 0x344a8432);
    Next(2, 0x98badcfe, 0x344a8432, 0xd6d117b4, 0xefcdab89, 0, 0x242070db, 17, 0x2f6fbd72);
    Next(3, 0xefcdab89, 0x2f6fbd72, 0x344a8432, 0xd6d117b4, 0, 0xc1bdceee, 22, 0x7ad956f2);
    Next(4, 0xd6d117b4, 0x7ad956f2, 0x2f6fbd72, 0x344a8432, 0, 0xf57c0faf, 7, 0xc73741ef);
    Next(5, 0x344a8432, 0xc73741ef, 0x7ad956f2, 0x2f6fbd72, 0, 0x4787c62a, 12, 0x8bac3051);
    Next(6, 0x2f6fbd72, 0x8bac3051, 0xc73741ef, 0x7ad956f2, 0, 0xa8304613, 17, 0x207dc67b);
    Next(7, 0x7ad956f2, 0x207dc67b, 0x8bac3051, 0xc73741ef, 0, 0xfd469501, 22, 0x928d99f6);
  }

  lemma Values16()
    ensures New(0, 0xc73741ef, 0x928d99f6, 0x207dc67b, 0x8bac3051, 0, 0x698098d8, 7) == 0x854b3712
    ensures New(0, 0x8bac3051, 0x854b3712, 0x928d99f6, 0x207dc67b, 0, 0x8b44f7af, 12) == 0x74e2f284
    ensures New(0, 0x207dc67b, 0x74e2f284, 0x854b3712, 0x928d99f6, 0, 0xffff5bb1, 17) == 0x3020401c
    ensures New(0, 0x928d99f6, 0x3020401c, 0x74e2f284, 0x854b3712, 0, 0x895cd7be, 22) == 0x5ed49596
    ensures New(0, 0x854b3712, 0x5ed49596, 0x3020401c, 0x74e2f284, 0, 0x6b901122, 7) == 0xdda9b9a6
    ensures New(0, 0x74e2f284, 0xdda9b9a6, 0x5ed49596, 0x3020401c, 0, 0xfd987193, 12) == 0xa1051895
    ensures New(0, 0x3020401c, 0xa1051895, 0xdda9b9a6, 0x5ed49596, 0x00000018, 0xa679438e, 17) == 0xe396856b
    ensures New(0, 0x5ed49596, 0xe396856b, 0xa1051895, 0xdda9b9a6, 0, 0x49b40821, 22) == 0x72aff2e0
  {}

  lemma Steps16()
    ensures Known(16, 0xdda9b9a6, 0x72aff2e0, 0xe396856b, 0xa1051895)
  {
    hide Known, Steps, Sine, WordIndex, Amount, New;
    Values16();
    FirstRoundTables();
    Steps8();
    Next(8, 0xc73741ef, 0x928d99f6, 0x207dc67b, 0x8bac3051, 0, 0x698098d8, 7, 0x854b3712);
    Next(9, 0x8bac3051, 0x854b3712, 0x928d99f6, 0x207dc67b, 0, 0x8b44f7af, 12, 0x74e2f284);
    Next(10, 0x207dc67b, 0x74e2f284, 0x854b3712, 0x928d99f6, 0, 0xffff5bb1, 17, 0x3020401c);
    Next(11, 0x928d99f6, 0x3020401c, 0x74e2f284, 0x854b3712, 0, 0x895cd7be, 22, 0x5ed49596);
    Next(12, 0x854b3712, 0x5ed49596, 0x3020401c, 0x74e2f284, 0, 0x6b901122, 7, 0xdda9b9a6);
    Next(13, 0x74e2f284, 0xdda9b9a6, 0x5ed49596, 0x3020401c, 0, 0xfd987193, 12, 0xa1051895);
    Next(14, 0x3020401c, 0xa1051895, 0xdda9b9a6, 0x5ed49596, 0x00000018, 0xa679438e, 17, 0xe396856b);
    Next(15, 0x5ed49596, 0xe396856b, 0xa1051895, 0xdda9b9a6, 0, 0x49b40821, 22, 0x72aff2e0);
  }

  lemma Values24()
    ensures New(1, 0xdda9b9a6, 0x72aff2e0, 0xe396856b, 0xa1051895, 0, 0xf61e2562, 5) == 0x3e9e9126
    ensures New(1, 0xa1051895, 0x3e9e9126, 0x72aff2e0, 0xe396856b, 0, 0xc040b340, 9) == 0x4a1d804e
    ensures New(1, 0xe396856b, 0x4a1d804e, 0x3e9e9126, 0x72aff2e0, 0, 0x265e5a51, 14) == 0xe25e1652
    ensures New(1, 0x72aff2e0, 0xe25e1652, 0x4a1d804e, 0x3e9e9126, 0x80636261, 0xe9b6c7aa, 20) == 0xb5b204e4
    ensures New(1, 0x3e9e9126, 0xb5b204e4, 0xe25e1652, 0x4a1d804e, 0, 0xd62f105d, 5) == 0x59a8ffda
    ensures New(1, 0x4a1d804e, 0x59a8ffda, 0xb5b204e4, 0xe25e1652, 0, 0x02441453, 9) == 0x6d002f1e
    ensures New(1, 0xe25e1652, 0x6d002f1e, 0x59a8ffda, 0xb5b204e4, 0, 0xd8a1e681, 14) == 0xabfc7920
    ensures New(1, 0xb5b204e4, 0xabfc7920, 0x6d002f1e, 0x59a8ffda, 0, 0xe7d3fbc8, 20) == 0x47092c07
  {}

  lemma Steps24()
    ensures Known(24, 0x59a8ffda, 0x47092c07, 0xabfc7920, 0x6d002f1e)
  {
    hide Known, Steps, Sine, WordIndex, Amount, New;
    Values24();
    SecondRoundTables();
    Steps16();
    Next(16, 0xdda9b9a6, 0x72aff2e0, 0xe396856b, 0xa1051895, 0, 0xf61e2562, 5, 0x3e9e9126);
    Next(17, 0xa1051895, 0x3e9e9126, 0x72aff2e0, 0xe396856b, 0, 0xc040b340, 9, 0x4a1d804e);
    Next(18, 0xe396856b, 0x4a1d804e, 0x3e9e9126, 0x72aff2e0, 0, 0x265e5a51, 14, 0xe25e1652);
    Next(19, 0x72aff2e0, 0xe25e1652, 0x4a1d804e, 0x3e9e9126, 0x80636261, 0xe9b6c7aa, 20, 0xb5b204e4);
    Next(20, 0x3e9e9126, 0xb5b204e4, 0xe25e1652, 0x4a1d804e, 0, 0xd62f105d, 5, 0x59a8ffda);
    Next(21, 0x4a1d804e, 0x59a8ffda, 0xb5b204e4, 0xe25e1652, 0, 0x02441453, 9, 0x6d002f1e);
    Next(22, 0xe25e1652, 0x6d002f1e, 0x59a8ffda, 0xb5b204e4, 0, 0xd8a1e681, 14, 0xabfc7920);
    Next(23, 0xb5b204e4, 0xabfc7920, 0x6d002f1e, 0x59a8ffda, 0, 0xe7d3fbc8, 20, 0x47092c07);
  }

  lemma Values32()
    ensures New(1, 0x59a8ffda, 0x47092c07, 0xabfc7920, 0x6d002f1e, 0, 0x21e1cde6, 5) == 0xb7f268cf
    ensures New(1, 0x6d002f1e, 0xb7f268cf, 0x47092c07, 0xabfc7920, 0x00000018, 0xc33707d6, 9) == 0x09388eff
    ensures New(1, 0xabfc7920, 0x09388eff, 0xb7f268cf, 0x47092c07, 0, 0xf4d50d87, 14) == 0xfe1623b1
    ensures New(1, 0x47092c07, 0xfe1623b1, 0x09388eff, 0xb7f268cf, 0, 0x455a14ed, 20) == 0x786acb8f
    ensures New(1, 0xb7f268cf, 0x786acb8f, 0xfe1623b1, 0x09388eff, 0, 0xa9e3e905, 5) == 0x790a77fb
    ensures New(1, 0x09388eff, 0x790a77fb, 0x786acb8f, 0xfe1623b1, 0, 0xfcefa3f8, 9) == 0x9f47e4f8
    ensures New(1, 0xfe1623b1, 0x9f47e4f8, 0x790a77fb, 0x786acb8f, 0, 0x676f02d9, 14) == 0xa62884aa
    ensures New(1, 0x786acb8f, 0xa62884aa, 0x9f47e4f8, 0x790a77fb, 0, 0x8d2a4c8a, 20) == 0x726342d3
  {}

  lemma Steps32()
    ensures Known(32, 0x790a77fb, 0x726342d3, 0xa62884aa, 0x9f47e4f8)
  {
    hide Known, Steps, Sine, WordIndex, Amount, New;
    Values32();
    SecondRoundTables();
    Steps24();
    Next(24, 0x59a8ffda, 0x47092c07, 0xabfc7920, 0x6d002f1e, 0, 0x21e1cde6, 5, 0xb7f268cf);
    Next(25, 0x6d002f1e, 0xb7f268cf, 0x47092c07, 0xabfc7920, 0x00000018, 0xc33707d6, 9, 0x09388eff);
    Next(26, 0xabfc7920, 0x09388eff, 0xb7f268cf, 0x47092c07, 0, 0xf4d50d87, 14, 0xfe1623b1);
    Next(27, 0x47092c07, 0xfe1623b1, 0x09388eff, 0xb7f268cf, 0, 0x455a14ed, 20, 0x786acb8f);
    Next(28, 0xb7f268cf, 0x786acb8f, 0xfe1623b1, 0x09388eff, 0, 0xa9e3e905, 5, 0x790a77fb);
    Next(29, 0x09388eff, 0x790a77fb, 0x786acb8f, 0xfe1623b1, 0, 0xfcefa3f8, 9, 0x9f47e4f8);
    Next(30, 0xfe1623b1, 0x9f47e4f8, 0x790a77fb, 0x786acb8f, 0, 0x676f02d9, 14, 0xa62884aa);
    Next(31, 0x786acb8f, 0xa62884aa, 0x9f47e4f8, 0x790a77fb, 0, 0x8d2a4c8a, 20, 0x726342d3);
  }

  lemma Values40()
    ensures New(2, 0x790a77fb, 0x726342d3, 0xa62884aa, 0x9f47e4f8, 0, 0xfffa3942, 4) == 0xb3707ebf
    ensures New(2, 0x9f47e4f8, 0xb3707ebf, 0x726342d3, 0xa62884aa, 0, 0x8771f681, 11) == 0x60127b2e
    ensures New(2, 0xa62884aa, 0x60127b2e, 0xb3707ebf, 0x726342d3, 0, 0x6d9d6122, 16) == 0x8d212ff5
    ensures New(2, 0x726342d3, 0x8d212ff5, 0x60127b2e, 0xb3707ebf, 0x00000018, 0xfde5380c, 23) == 0x3b0875c7
    ensures New(2, 0xb3707ebf, 0x3b0875c7, 0x8d212ff5, 0x60127b2e, 0, 0xa4beea44, 4) == 0x21b117b9
    ensures New(2, 0x60127b2e, 0x21b117b9, 0x3b0875c7, 0x8d212ff5, 0, 0x4bdecfa9, 11) == 0x6e7429d5
    ensures New(2, 0x8d212ff5, 0x6e7429d5, 0x21b117b9, 0x3b0875c7, 0, 0xf6bb4b60, 16) == 0x3575227e
    ensures New(2, 0x3b0875c7, 0x3575227e, 0x6e7429d5, 0x21b117b9, 0, 0xbebfbc70, 23) == 0x5a2f5ea5
  {}

  lemma Steps40()
    ensures Known(40, 0x21b117b9, 0x5a2f5ea5, 0x3575227e, 0x6e7429d5)
  {
    hide Known, Steps, Sine, WordIndex, Amount, New;
    Values40();
    ThirdRoundTables();
    Steps32();
    Next(32, 0x790a77fb, 0x726342d3, 0xa62884aa, 0x9f47e4f8, 0, 0xfffa3942, 4, 0xb3707ebf);
    Next(33, 0x9f47e4f8, 0xb3707ebf, 0x726342d3, 0xa62884aa, 0, 0x8771f681, 11, 0x60127b2e);
    Next(34, 0xa62884aa, 0x60127b2e, 0xb3707ebf, 0x726342d3, 0, 0x6d9d6122, 16, 0x8d212ff5);
    Next(35, 0x726342d3, 0x8d212ff5, 0x60127b2e, 0xb3707ebf, 0x00000018, 0xfde5380c, 23, 0x3b0875c7);
    Next(36, 0xb3707ebf, 0x3b0875c7, 0x8d212ff5, 0x60127b2e, 0, 0xa4beea44, 4, 0x21b117b9);
    Next(37, 0x60127b2e, 0x21b117b9, 0x3b0875c7, 0x8d212ff5, 0, 0x4bdecfa9, 11, 0x6e7429d5);
    Next(38, 0x8d212ff5, 0x6e7429d5, 0x21b117b9, 0x3b0875c7, 0, 0xf6bb4b60, 16, 0x3575227e);
    Next(39, 0x3b0875c7, 0x3575227e, 0x6e7429d5, 0x21b117b9, 0, 0xbebfbc70, 23, 0x5a2f5ea5);
  }

  lemma Values48()
    ensures New(2, 0x21b117b9, 0x5a2f5ea5, 0x3575227e, 0x6e7429d5, 0, 0x289b7ec6, 4) == 0x11de1779
    ensures New(2, 0x6e7429d5, 0x11de1779, 0x5a2f5ea5, 0x3575227e, 0x80636261, 0xeaa127fa, 11) == 0xfadcaa38
    ensures New(2, 0x3575227e, 0xfadcaa38, 0x11de1779, 0x5a2f5ea5, 0, 0xd4ef3085, 16) == 0x31c465ca
    ensures New(2, 0x5a2f5ea5, 0x31c465ca, 0xfadcaa38, 0x11de1779, 0, 0x04881d05, 23) == 0x4c6124f4
    ensures New(2, 0x11de1779, 0x4c6124f4, 0x31c465ca, 0xfadcaa38, 0, 0xd9d4d039, 4) == 0x7f2e507b
    ensures New(2, 0xfadcaa38, 0x7f2e507b, 0x4c6124f4, 0x31c465ca, 0, 0xe6db99e5, 11) == 0x99d9679d
    ensures New(2, 0x31c465ca, 0x99d9679d, 0x7f2e507b, 0x4c6124f4, 0, 0x1fa27cf8, 16) == 0x8fae6399
    ensures New(2, 0x4c6124f4, 0x8fae6399, 0x99d9679d, 0x7f2e507b, 0, 0xc4ac5665, 23) == 0x7beb9700
  {}

  lemma Steps48()
    ensures Known(48, 0x7f2e507b, 0x7beb9700, 0x8fae6399, 0x99d9679d)
  {
    hide Known, Steps, Sine, WordIndex, Amount, New;
    Values48();
    ThirdRoundTables();
    Steps40();
    Next(40, 0x21b117b9, 0x5a2f5ea5, 0x3575227e, 0x6e7429d5, 0, 0x289b7ec6, 4, 0x11de1779);
    Next(41, 0x6e7429d5, 0x11de1779, 0x5a2f5ea5, 0x3575227e, 0x80636261, 0xeaa127fa, 11, 0xfadcaa38);
    Next(42, 0x3575227e, 0xfadcaa38, 0x11de1779, 0x5a2f5ea5, 0, 0xd4ef3085, 16, 0x31c465ca);
    Next(43, 0x5a2f5ea5, 0x31c465ca, 0xfadcaa38, 0x11de1779, 0, 0x04881d05, 23, 0x4c6124f4);
    Next(44, 0x11de1779, 0x4c6124f4, 0x31c465ca, 0xfadcaa38, 0, 0xd9d4d039, 4, 0x7f2e507b);
    Next(45, 0xfadcaa38, 0x7f2e507b, 0x4c6124f4, 0x31c465ca, 0, 0xe6db99e5, 11, 0x99d9679d);
    Next(46, 0x31c465ca, 0x99d9679d, 0x7f2e507b, 0x4c6124f4, 0, 0x1fa27cf8, 16, 0x8fae6399);
    Next(47, 0x4c6124f4, 0x8fae6399, 0x99d9679d, 0x7f2e507b, 0, 0xc4ac5665, 23, 0x7beb9700);
  }

  lemma Values56()
    ensures New(3, 0x7f2e507b, 0x7beb9700, 0x8fae6399, 0x99d9679d, 0x80636261, 0xf4292244, 6) == 0x7b201df8
    ensures New(3, 0x99d9679d, 0x7b201df8, 0x7beb9700, 0x8fae6399, 0, 0x432aff97, 10) == 0xf4e8e96e
    ensures New(3, 0x8fae6399, 0xf4e8e96e, 0x7b201df8, 0x7beb9700, 0x00000018, 0xab9423a7, 15) == 0xb298cefd
    ensures New(3, 0x7beb9700, 0xb298cefd, 0xf4e8e96e, 0x7b201df8, 0, 0xfc93a039, 21) == 0x8bf025c4
    ensures New(3, 0x7b201df8, 0x8bf025c4, 0xb298cefd, 0xf4e8e96e, 0, 0x655b59c3, 6) == 0x06cc5e8a
    ensures New(3, 0xf4e8e96e, 0x06cc5e8a, 0x8bf025c4, 0xb298cefd, 0, 0x8f0ccc92, 10) == 0x5b0d97aa
    ensures New(3, 0xb298cefd, 0x5b0d97aa, 0x06cc5e8a, 0x8bf025c4, 0, 0xffeff47d, 15) == 0x7d632dd0
    ensures New(3, 0x8bf025c4, 0x7d632dd0, 0x5b0d97aa, 0x06cc5e8a, 0, 0x85845dd1, 21) == 0x3bfa2c27
  {}

  lemma Steps56()
    ensures Known(56, 0x06cc5e8a, 0x3bfa2c27, 0x7d632dd0, 0x5b0d97aa)
  {
    hide Known, Steps, Sine, WordIndex, Amount, New;
    Values56();
    FourthRoundTables();
    Steps48();
    Next(48, 0x7f2e507b, 0x7beb9700, 0x8fae6399, 0x99d9679d, 0x80636261, 0xf4292244, 6, 0x7b201df8);
    Next(49, 0x99d9679d, 0x7b201df8, 0x7beb9700, 0x8fae6399, 0, 0x432aff97, 10, 0xf4e8e96e);
    Next(50, 0x8fae6399, 0xf4e8e96e, 0x7b201df8, 0x7beb9700, 0x00000018, 0xab9423a7, 15, 0xb298cefd);
    Next(51, 0x7beb9700, 0xb298cefd, 0xf4e8e96e, 0x7b201df8, 0, 0xfc93a039, 21, 0x8bf025c4);
    Next(52, 0x7b201df8, 0x8bf025c4, 0xb298cefd, 0xf4e8e96e, 0, 0x655b59c3, 6, 0x06cc5e8a);
    Next(53, 0xf4e8e96e, 0x06cc5e8a, 0x8bf025c4, 0xb298cefd, 0, 0x8f0ccc92, 10, 0x5b0d97aa);
    Next(54, 0xb298cefd, 0x5b0d97aa, 0x06cc5e8a, 0x8bf025c4, 0, 0xffeff47d, 15, 0x7d632dd0);
    Next(55, 0x8bf025c4, 0x7d632dd0, 0x5b0d97aa, 0x06cc5e8a, 0, 0x85845dd1, 21, 0x3bfa2c27);
  }

  lemma Values64()
    ensures New(3, 0x06cc5e8a, 0x3bfa2c27, 0x7d632dd0, 0x5b0d97aa, 0, 0x6fa87e4f, 6) == 0x7f81cc35
    ensures New(3, 0x5b0d97aa, 0x7f81cc35, 0x3bfa2c27, 0x7d632dd0, 0, 0xfe2ce6e0, 10) == 0x094454ab
    ensures New(3, 0x7d632dd0, 0x094454ab, 0x7f81cc35, 0x3bfa2c27, 0, 0xa3014314, 15) == 0x4f9dbe3f
    ensures New(3, 0x3bfa2c27, 0x4f9dbe3f, 0x094454ab, 0x7f81cc35, 0, 0x4e0811a1, 21) == 0x7327d604
    ensures New(3, 0x7f81cc35, 0x7327d604, 0x4f9dbe3f, 0x094454ab, 0, 0xf7537e82, 6) == 0x310ade8f
    ensures New(3, 0x094454ab, 0x310ade8f, 0x7327d604, 0x4f9dbe3f, 0, 0xbd3af235, 10) == 0x624d8cb2
    ensures New(3, 0x4f9dbe3f, 0x624d8cb2, 0x310ade8f, 0x7327d604, 0, 0x2ad7d2bb, 15) == 0xe484b9d8
    ensures New(3, 0x7327d604, 0xe484b9d8, 0x624d8cb2, 0x310ade8f, 0, 0xeb86d391, 21) == 0xc08226b3
  {}

  lemma Steps64()
    ensures Known(64, 0x310ade8f, 0xc08226b3, 0xe484b9d8, 0x624d8cb2)
  {
    hide Known, Steps, Sine, WordIndex, Amount, New;
    Values64();
    FourthRoundTables();
    Steps56();
    Next(56, 0x06cc5e8a, 0x3bfa2c27, 0x7d632dd0, 0x5b0d97aa, 0, 0x6fa87e4f, 6, 0x7f81cc35);
    Next(57, 0x5b0d97aa, 0x7f81cc35, 0x3bfa2c27, 0x7d632dd0, 0, 0xfe2ce6e0, 10, 0x094454ab);
    Next(58, 0x7d632dd0, 0x094454ab, 0x7f81cc35, 0x3bfa2c27, 0, 0xa3014314, 15, 0x4f9dbe3f);
    Next(59, 0x3bfa2c27, 0x4f9dbe3f, 0x094454ab, 0x7f81cc35, 0, 0x4e0811a1, 21, 0x7327d604);
    Next(60, 0x7f81cc35, 0x7327d604, 0x4f9dbe3f, 0x094454ab, 0, 0xf7537e82, 6, 0x310ade8f);
    Next(61, 0x094454ab, 0x310ade8f, 0x7327d604, 0x4f9dbe3f, 0, 0xbd3af235, 10, 0x624d8cb2);
    Next(62, 0x4f9dbe3f, 0x624d8cb2, 0x310ade8f, 0x7327d604, 0, 0x2ad7d2bb, 15, 0xe484b9d8);
    Next(63, 0x7327d604, 0xe484b9d8, 0x624d8cb2, 0x310ade8f, 0, 0xeb86d391, 21, 0xc08226b3);
  }

  lemma Compressed()
    ensures Compress(INITIAL, BLOCK) == Regs(0x98500190, 0xb04fd23c, 0x7d3f96d6, 0x727fe128)
  {
    hide Steps;
    Steps64();
  }

  lemma PaddedAbc()
    ensures |Padded(ABC)| == 64 && BlockAt(Padded(ABC), 0) == BLOCK
  {
    var p := Padded(ABC);
    assert ZeroCount(3) == 52 && LengthBytes(3) == [24, 0, 0, 0, 0, 0, 0, 0] by { LengthOfAbc(); }
    assert |p| == 64;
    forall j: nat ensures ByteAt(p, j) == if j == 0 then 0x61 else if j == 1 then 0x62 else if j == 2 then 0x63
                                          else if j == 3 then 0x80 else if j == 56 then 24 else 0
    {
    }
    assert Pack(0x61, 0x62, 0x63, 0x80) == 0x80636261 && Pack(24, 0, 0, 0) == 24 && Pack(0, 0, 0, 0) == 0;
    hide Padded, ByteAt, Pack;
    forall k | 0 <= k < 16 ensures WordAt(p, k) == BLOCK[k] {
      assert WordAt(p, k) == if k == 0 then 0x80636261 else if k == 14 then 24 else 0;
    }
  }

  lemma LengthOfAbc()
    ensures LengthBytes(3) == [24, 0, 0, 0, 0, 0, 0, 0]
  {
    assert DigitOf(24, 0) == 24 && DigitOf(0, 0) == 0;
    assert DigitOf(0, 1) == 0 && DigitOf(0, 2) == DigitOf(0, 1) && DigitOf(0, 3) == DigitOf(0, 2);
    assert DigitOf(0, 4) == DigitOf(0, 3) && DigitOf(0, 5) == DigitOf(0, 4) && DigitOf(0, 6) == DigitOf(0, 5);
    forall k | 0 < k < 8 ensures DigitOf(24, k) == DigitOf(0, k - 1) { NextDigit(24, k - 1); }
  }

  /** MD5("abc") is 900150983cd24fb0d6963f7d28e17f72. */
  lemma HashOfAbc()
    ensures Md5(ABC) == [0x90, 0x01, 0x50, 0x98, 0x3c, 0xd2, 0x4f, 0xb0,
                         0xd6, 0x96, 0x3f, 0x7d, 0x28, 0xe1, 0x7f, 0x72]
  {
    hide Steps, Compress, Padded, BlockAt;
    PaddedAbc();
    Compressed();
  }
}
