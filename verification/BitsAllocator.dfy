/** Packing seconds, worker and sequence into the 63 value bits of a Java long, with symbolic widths. */
module BitsAllocator {
  import opened Wrappers

  function Pow2(k: nat): (p: nat)
    ensures p > 0
  {
    if k == 0 then 1 else 2 * Pow2(k - 1)
  }

  // ---------------------------------------------------------------- Java longs

  const SIGN := 0x8000_0000_0000_0000
  const ALL := 0x1_0000_0000_0000_0000

  /** A mathematical integer cut to 64 bits, two's complement. */
  function Wrap(x: int): int { (x + SIGN) % ALL - SIGN }

  /** `x << k`: only the low six bits of the distance count. */
  function Shl(x: int, k: int): int { Wrap(x * Pow2(k % 64)) }

  /** `x >>> k`, which fills up with zeros. */
  function Shr(x: int, k: int): int { Wrap(x % ALL / Pow2(k % 64)) }

  /** `~x`. */
  function Not(x: int): int { -x - 1 }

  /** The bits that either number has. */
  function OrNat(x: nat, y: nat): nat {
    if x == 0 && y == 0 then 0
    else 2 * OrNat(x / 2, y / 2) + if x % 2 == 1 || y % 2 == 1 then 1 else 0
  }

  /** `x | y`. */
  function Or(x: int, y: int): int { Wrap(OrNat(x % ALL, y % ALL)) }

  /** The bits that both numbers have. */
  function AndNat(x: nat, y: nat): nat {
    if x == 0 || y == 0 then 0
    else 2 * AndNat(x / 2, y / 2) + if x % 2 == 1 && y % 2 == 1 then 1 else 0
  }

  /** `x & y`. */
  function And(x: int, y: int): int { Wrap(AndNat(x % ALL, y % ALL)) }

  // ---------------------------------------------------------------- the allocator

  /** A Java int. */
  type int32 = x: int | -0x8000_0000 <= x < 0x8000_0000

  /** A mathematical integer cut to 32 bits. */
  function Wrap32(x: int): int32 { (x + 0x8000_0000) % 0x1_0000_0000 - 0x8000_0000 }

  datatype Allocator = Allocator(timestampBits: int, workerIdBits: int, sequenceBits: int,
                                 maxDeltaSeconds: int, maxWorkerId: int, maxSequence: int,
                                 timestampShift: int, workerIdShift: int)

  /** The fields that the constructor computes from the widths. */
  function Build(timestampBits: int, workerIdBits: int, sequenceBits: int): Allocator {
    Allocator(timestampBits, workerIdBits, sequenceBits,
              Not(Shl(-1, timestampBits)), Not(Shl(-1, workerIdBits)), Not(Shl(-1, sequenceBits)),
              Wrap32(workerIdBits + sequenceBits), sequenceBits)
  }

  /** The constructor: with the sign bit the widths must add up to 64, as ints add. */
  function Create(timestampBits: int, workerIdBits: int, sequenceBits: int): Option<Allocator> {
    if Wrap32(1 + timestampBits + workerIdBits + sequenceBits) != 64 then None
    else Some(Build(timestampBits, workerIdBits, sequenceBits))
  }

  function Allocate(a: Allocator, deltaSeconds: int, workerId: int, sequence: int): int {
    Or(Or(Shl(deltaSeconds, a.timestampShift), Shl(workerId, a.workerIdShift)), sequence)
  }

  predicate InRange(a: Allocator, d: int, w: int, s: int) {
    0 <= d <= a.maxDeltaSeconds && 0 <= w <= a.maxWorkerId && 0 <= s <= a.maxSequence
  }

  datatype Fields = Fields(deltaSeconds: int, workerId: int, sequence: int)

  /** `parseUID`: each field is freed from its neighbours by shifting left and right. */
  function ParseUid(a: Allocator, uid: int): Fields {
    Fields(Shr(uid, a.workerIdBits + a.sequenceBits),
           Shr(Shl(uid, a.timestampBits + 1), 64 - a.workerIdBits),
           Shr(Shl(uid, 64 - a.sequenceBits), 64 - a.sequenceBits))
  }

  /** Parsing gives back the fields of every id. */
  ghost predicate Recovers(a: Allocator) {
    forall d: nat, w: nat, s: nat :: InRange(a, d, w, s) ==> ParseUid(a, Allocate(a, d, w, s)) == Fields(d, w, s)
  }

  // ---------------------------------------------------------------- multiples and powers

  lemma MulLe(x: nat, y: nat, p: nat)
    requires x <= y
    ensures x * p <= y * p
  {}

  /** A multiple below y * p leaves room for one more p. */
  lemma NextMultiple(x: nat, y: nat, p: nat)
    requires x < y
    ensures x * p + p <= y * p
  {
    MulLe(x + 1, y, p);
    assert (x + 1) * p == x * p + p;
  }

  lemma AtLeastOnce(x: int, p: nat)
    ensures x >= 1 ==> x * p >= p
    ensures x <= -1 ==> x * p <= -(p as int)
  {
    if x >= 1 { MulLe(1, x, p); }
    if x <= -1 { MulLe(1, -x, p); }
  }

  lemma DivMod(h: nat, l: nat, p: nat)
    requires l < p
    ensures (h * p + l) / p == h && (h * p + l) % p == l
  {
    var q, r := (h * p + l) / p, (h * p + l) % p;
    assert (q - h) * p == l - r;
    AtLeastOnce(q - h, p);
  }

  lemma Distribute(d: nat, p: nat, r: nat, q: nat)
    ensures (d * p + r) * q == d * (p * q) + r * q
  {
    assert d * p * q == d * (p * q);
    assert (d * p + r) * q == d * p * q + r * q;
  }

  lemma TwiceProduct(x: nat, y: nat)
    ensures 2 * (x * y) == 2 * x * y == x * (2 * y)
  {}

  /** Two pairs of a high and a low part compare as their sums do. */
  lemma LexOrder(h1: nat, l1: nat, h2: nat, l2: nat, p: nat)
    requires l1 < p && l2 < p
    ensures h1 * p + l1 < h2 * p + l2 <==> h1 < h2 || (h1 == h2 && l1 < l2)
  {
    if h1 < h2 { NextMultiple(h1, h2, p); }
    if h2 < h1 { NextMultiple(h2, h1, p); }
  }

  lemma Quotient(x: nat, p: nat)
    requires p > 0
    ensures 0 <= x / p <= x && 0 <= x % p < p && x == x / p * p + x % p
  {
    var q, r := x / p, x % p;
    assert x == q * p + r;
    MulLe(1, p, q);
  }

  lemma {:induction false} PowAdd(j: nat, k: nat)
    ensures Pow2(j + k) == Pow2(j) * Pow2(k)
    decreases j
  {
    if j > 0 {
      PowAdd(j - 1, k);
      assert Pow2(j + k) == 2 * Pow2(j - 1 + k) && Pow2(j) == 2 * Pow2(j - 1);
      hide Pow2;
      TwiceProduct(Pow2(j - 1), Pow2(k));
    } else {
      assert Pow2(0) == 1;
    }
  }

  lemma {:induction false} PowBelow(k: nat, n: nat)
    requires k <= n
    ensures Pow2(k) <= Pow2(n)
    decreases n
  {
    if k < n { PowBelow(k, n - 1); }
  }

  lemma PowPositive(k: nat)
    ensures 0 < Pow2(k)
  {}

  lemma PowTwo(k: nat)
    ensures k > 0 ==> Pow2(k) >= 2
    ensures Pow2(0) == 1
  {}

  lemma Pow63()
    ensures Pow2(63) == SIGN && Pow2(64) == ALL
  {
    assert Pow2(8) == 256 by {
      assert Pow2(4) == 16 == 2 * Pow2(3) && Pow2(6) == 2 * Pow2(5);
    }
    PowAdd(8, 8);
    assert Pow2(16) == 0x1_0000;
    PowAdd(16, 16);
    assert Pow2(32) == 0x1_0000_0000;
    PowAdd(32, 32);
    assert Pow2(64) == 2 * Pow2(63);
  }

  // ---------------------------------------------------------------- high and low bits

  function Up(x: nat, k: nat): nat { x * Pow2(k) }

  function High(x: nat, k: nat): nat {
    Quotient(x, Pow2(k));
    x / Pow2(k)
  }

  function Low(x: nat, k: nat): nat { x % Pow2(k) }

  /** A high part above k low bits. */
  function Join(hi: nat, lo: nat, k: nat): nat { Up(hi, k) + lo }

  lemma JoinZero(hi: nat, k: nat)
    ensures Join(hi, 0, k) == Up(hi, k)
  {}

  /** Two pairs with the same number of low bits: order and parts. */
  lemma JoinOrder(h1: nat, l1: nat, h2: nat, l2: nat, k: nat)
    requires l1 < Pow2(k) && l2 < Pow2(k)
    ensures Join(h1, l1, k) < Join(h2, l2, k) <==> h1 < h2 || (h1 == h2 && l1 < l2)
    ensures High(Join(h1, l1, k), k) == h1 && Low(Join(h1, l1, k), k) == l1
  {
    hide Pow2;
    LexOrder(h1, l1, h2, l2, Pow2(k));
    DivMod(h1, l1, Pow2(k));
  }

  /** Joining three parts, from either side. */
  lemma JoinTwice(d: nat, w: nat, s: nat, j: nat, k: nat)
    ensures Join(d, Join(w, s, k), j + k) == Join(Join(d, w, j), s, k)
  {
    PowAdd(j, k);
    hide Pow2;
    Distribute(d, Pow2(j), w, Pow2(k));
  }

  lemma JoinBound(hi: nat, lo: nat, m: nat, k: nat)
    requires hi < Pow2(m) && lo < Pow2(k)
    ensures Join(hi, lo, k) < Pow2(m + k)
  {
    PowAdd(m, k);
    hide Pow2;
    NextMultiple(hi, Pow2(m), Pow2(k));
  }

  lemma HighOrLow(x: nat, k: nat)
    ensures Join(High(x, k), Low(x, k), k) == x && Low(x, k) < Pow2(k) && High(x, k) <= x && Low(x, k) <= x
  {
    PowPositive(k);
    hide Pow2;
    Quotient(x, Pow2(k));
  }

  lemma LowHalves(x: nat, k: nat)
    requires k > 0
    ensures Low(x, k) == 2 * Low(x / 2, k - 1) + x % 2
  {
    HighOrLow(x / 2, k - 1);
    assert Pow2(k) == 2 * Pow2(k - 1);
    var h, l := High(x / 2, k - 1), Low(x / 2, k - 1);
    assert Up(h, k) == 2 * Up(h, k - 1) by { hide Pow2; TwiceProduct(h, Pow2(k - 1)); }
    assert x / 2 == Up(h, k - 1) + l && Join(h, 2 * l + x % 2, k) == Up(h, k) + 2 * l + x % 2;
    hide Pow2, High, Low, Up, Join;
    JoinOrder(h, 2 * l + x % 2, h, 2 * l + x % 2, k);
  }

  /** Disjoint bits: or-ing a number into the low bits that a shift left free is adding it. */
  lemma {:induction false} OrIsSum(hi: nat, lo: nat, k: nat)
    requires lo < Pow2(k)
    ensures OrNat(Up(hi, k), lo) == Join(hi, lo, k)
    decreases k
  {
    if k == 0 {
      assert Pow2(0) == 1 && hi * 1 == hi;
      OrZero(hi);
    } else {
      assert Pow2(k) == 2 * Pow2(k - 1);
      var x := Up(hi, k - 1);
      assert Up(hi, k) == 2 * x by { hide Pow2; TwiceProduct(hi, Pow2(k - 1)); }
      OrIsSum(hi, lo / 2, k - 1);
      hide Up, Pow2;
      assert OrNat(2 * x, lo) == 2 * OrNat(x, lo / 2) + lo % 2;
    }
  }

  lemma {:induction false} OrZero(x: nat)
    ensures OrNat(x, 0) == x
  {
    if x > 0 { OrZero(x / 2); }
  }

  /** Masking with 2^k - 1 keeps the low k bits. */
  lemma {:induction false} MaskIsLow(x: nat, k: nat)
    ensures AndNat(x, Pow2(k) - 1) == Low(x, k)
    decreases k
  {
    if k == 0 {
      assert Pow2(0) == 1;
    } else {
      hide AndNat, Low;
      assert Pow2(k) == 2 * Pow2(k - 1);
      hide Pow2;
      MaskIsLow(x / 2, k - 1);
      LowHalves(x, k);
      PowPositive(k - 1);
      MaskHalves(x, Pow2(k - 1));
    }
  }

  lemma MaskHalves(x: nat, p: nat)
    requires p > 0
    ensures AndNat(x, 2 * p - 1) == 2 * AndNat(x / 2, p - 1) + x % 2
  {
    assert (2 * p - 1) / 2 == p - 1 && (2 * p - 1) % 2 == 1;
  }

  // ---------------------------------------------------------------- operations on longs

  lemma WrapFits(x: int)
    requires -SIGN <= x < SIGN
    ensures Wrap(x) == x && (x >= 0 ==> x % ALL == x)
  {}

  lemma WrapRemainder(x: int)
    ensures Wrap(x) % ALL == x % ALL
  {
    var r := x % ALL;
    if r < SIGN {
      assert (x + SIGN) % ALL == r + SIGN;
    } else {
      assert (x + SIGN) % ALL == r - SIGN;
    }
    assert Wrap(x) == if r < SIGN then r else r - ALL;
  }

  lemma LowIsRemainder(x: nat)
    ensures Low(x, 64) == x % ALL
  {
    Pow63();
  }

  /** A distance below 64 counts in full. */
  lemma ShortShl(x: nat, k: nat)
    requires k < 64
    ensures Shl(x, k) == Wrap(Up(x, k))
  {
    assert k % 64 == k;
    hide Wrap, Pow2;
  }

  lemma ShortShr(x: int, k: nat)
    requires k < 64
    ensures Shr(x, k) == Wrap(High(x % ALL, k))
  {
    assert k % 64 == k;
    hide Wrap, Pow2;
  }

  /** A distance of 64 does not count at all. */
  lemma NoShift(x: int)
    ensures x >= 0 ==> Shl(x, 64) == Wrap(x)
    ensures Shr(x, 64) == Wrap(x % ALL)
  {
    PowTwo(0);
    assert x * 1 == x && x % ALL / 1 == x % ALL;
    hide Wrap, Pow2;
  }

  lemma MaxOf(k: nat)
    requires k <= 63
    ensures Not(Shl(-1, k)) == Pow2(k) - 1
  {
    hide Pow2, Wrap;
    Pow63();
    PowBelow(k, 63);
    PowPositive(k);
    assert k % 64 == k;
    WrapFits(-(Pow2(k) as int));
  }

  /** A field below 2^m, shifted by k with m + k at most 63, stays a non-negative long. */
  lemma Shifted(x: nat, m: nat, k: nat)
    requires x < Pow2(m) && m + k <= 63
    ensures Shl(x, k) == Up(x, k) < SIGN
  {
    hide Shl, Pow2, Wrap, Up, Join;
    Pow63();
    PowBelow(m + k, 63);
    ShortShl(x, k);
    PowPositive(k);
    JoinBound(x, 0, m, k);
    JoinZero(x, k);
    WrapFits(Up(x, k));
  }

  lemma OrSmall(x: nat, y: nat)
    requires x < SIGN && y < SIGN && OrNat(x, y) < SIGN
    ensures Or(x, y) == OrNat(x, y)
  {
    hide OrNat, Wrap;
    WrapFits(x);
    WrapFits(y);
    WrapFits(OrNat(x, y));
  }

  /** Non-negative longs with disjoint bits. */
  lemma OrOfLongs(hi: nat, lo: nat, k: nat)
    requires lo < Pow2(k) && Join(hi, lo, k) < SIGN
    ensures Or(Up(hi, k), lo) == Join(hi, lo, k)
  {
    hide Or, OrNat, Up, Pow2;
    OrIsSum(hi, lo, k);
    OrSmall(Up(hi, k), lo);
  }

  lemma ShrOfLong(x: int, k: nat)
    requires 0 <= x < SIGN && k < 64
    ensures Shr(x, k) == High(x, k) <= x
  {
    hide Pow2, Shr, Wrap, High;
    ShortShr(x, k);
    HighOrLow(x, k);
    WrapFits(x);
    WrapFits(High(x, k));
  }

  lemma MaskOfLong(x: int, k: nat)
    requires 0 <= x < SIGN && k <= 63
    ensures And(x, Pow2(k) - 1) == Low(x, k)
  {
    hide AndNat, Pow2, Wrap, Low, High, Join;
    Pow63();
    PowBelow(k, 63);
    PowPositive(k);
    MaskIsLow(x, k);
    HighOrLow(x, k);
    WrapFits(x);
    WrapFits(Pow2(k) - 1);
    WrapFits(Low(x, k));
  }

  /** A number whose low i bits end above k free ones. */
  lemma UpSplits(x: nat, i: nat, k: nat)
    ensures Up(x, k) == Join(High(x, i), Up(Low(x, i), k), i + k) && Up(Low(x, i), k) < Pow2(i + k)
  {
    hide Pow2, High, Low, Up, Join;
    var h, l := High(x, i), Low(x, i);
    HighOrLow(x, i);
    PowPositive(k);
    JoinZero(x, k);
    JoinTwice(h, l, 0, i, k);
    JoinZero(l, k);
    JoinBound(l, 0, i, k);
  }

  /** Shifting left by 64 - j drops all but the low j bits. */
  lemma ShiftOut(x: nat, j: nat, k: nat)
    requires j + k == 64 && k < 64
    ensures Shl(x, k) % ALL == Up(Low(x, j), k)
  {
    hide Pow2, High, Low, Up, Join, Shl, Wrap;
    ShortShl(x, k);
    UpSplits(x, j, k);
    LowIsRemainder(Up(x, k));
    var h, l := High(x, j), Up(Low(x, j), k);
    JoinOrder(h, l, h, l, 64);
    WrapRemainder(Up(x, k));
  }

  /** Shifting the low j bits up and down again, past the lowest i of them. */
  lemma ShiftOutAndIn(x: nat, i: nat, j: nat, k: nat)
    requires j + k == 64 && 0 < k && i + k < 64
    ensures Shr(Shl(x, k), i + k) == High(Low(x, j), i)
  {
    hide Pow2, High, Low, Up, Join, Shl, Shr, Wrap;
    ShiftOut(x, j, k);
    Pow63();
    PowBelow(j, 63);
    HighOrLow(x, j);
    ShortShr(Shl(x, k), i + k);
    var y := Low(x, j);
    UpSplits(y, i, k);
    HighOrLow(y, i);
    var h, l := High(y, i), Up(Low(y, i), k);
    JoinOrder(h, l, h, l, i + k);
    WrapFits(h);
  }

  // ---------------------------------------------------------------- what an id is

  /** In-range fields are exactly those that fit their widths. */
  lemma InRangeIff(tb: nat, wb: nat, sb: nat, d: int, w: int, s: int)
    requires tb + wb + sb == 63
    ensures InRange(Build(tb, wb, sb), d, w, s)
            <==> 0 <= d < Pow2(tb) && 0 <= w < Pow2(wb) && 0 <= s < Pow2(sb)
  {
    hide Not, Shl, Pow2;
    MaxOf(tb);
    MaxOf(wb);
    MaxOf(sb);
  }

  lemma Created(tb: nat, wb: nat, sb: nat)
    requires tb + wb + sb == 63
    ensures var a := Build(tb, wb, sb);
            && Create(tb, wb, sb) == Some(a)
            && a.timestampBits == tb && a.workerIdBits == wb && a.sequenceBits == sb
            && a.timestampShift == wb + sb && a.workerIdShift == sb
            && a.maxWorkerId == Pow2(wb) - 1 && a.maxSequence == Pow2(sb) - 1
  {
    hide Shl, Not, Pow2;
    MaxOf(wb);
    MaxOf(sb);
  }

  /** An id is the positional value of its three fields, and never negative. */
  lemma AllocateIsSum(tb: nat, wb: nat, sb: nat, d: nat, w: nat, s: nat)
    requires tb + wb + sb == 63 && InRange(Build(tb, wb, sb), d, w, s)
    ensures Allocate(Build(tb, wb, sb), d, w, s) == Join(d, Join(w, s, sb), wb + sb)
    ensures 0 <= Allocate(Build(tb, wb, sb), d, w, s) < SIGN
  {
    hide Or, Shl, Build, InRange, Pow2, Join, Up;
    InRangeIff(tb, wb, sb, d, w, s);
    Created(tb, wb, sb);
    Pow63();
    Shifted(d, tb, wb + sb);
    Shifted(w, wb, sb);
    JoinBound(w, s, wb, sb);
    JoinBound(d, w, tb, wb);
    JoinBound(d, Join(w, s, sb), tb, wb + sb);
    JoinBound(Join(d, w, wb), s, tb + wb, sb);
    JoinTwice(d, w, s, wb, sb);
    JoinTwice(d, w, 0, wb, sb);
    PowPositive(sb);
    JoinZero(w, sb);
    JoinZero(Join(d, w, wb), sb);
    JoinBound(w, 0, wb, sb);
    JoinBound(d, Join(w, 0, sb), tb, wb + sb);
    OrOfLongs(d, Up(w, sb), wb + sb);
    OrOfLongs(Join(d, w, wb), s, sb);
  }

  /** The high and low bits of an id. */
  lemma PartsOfId(tb: nat, wb: nat, sb: nat, d: nat, w: nat, s: nat)
    requires tb + wb + sb == 63 && InRange(Build(tb, wb, sb), d, w, s)
    ensures var id := Allocate(Build(tb, wb, sb), d, w, s);
            && 0 <= id < SIGN
            && High(id, wb + sb) == d
            && High(Low(id, wb + sb), sb) == Low(High(id, sb), wb) == w
            && Low(id, sb) == s
  {
    hide Allocate, Build, InRange, Join, High, Low, Pow2;
    InRangeIff(tb, wb, sb, d, w, s);
    Created(tb, wb, sb);
    AllocateIsSum(tb, wb, sb, d, w, s);
    JoinBound(w, s, wb, sb);
    JoinTwice(d, w, s, wb, sb);
    JoinOrder(d, Join(w, s, sb), d, Join(w, s, sb), wb + sb);
    JoinOrder(Join(d, w, wb), s, Join(d, w, wb), s, sb);
    JoinOrder(d, w, d, w, wb);
    JoinOrder(w, s, w, s, sb);
  }

  /** The fields come back by shifting and masking, so no two triples share an id. */
  lemma FieldsRecovered(tb: nat, wb: nat, sb: nat, d: nat, w: nat, s: nat)
    requires tb + wb + sb == 63 && InRange(Build(tb, wb, sb), d, w, s)
    ensures var a := Build(tb, wb, sb);
            var id := Allocate(a, d, w, s);
            && Shr(id, a.timestampShift) == d
            && And(Shr(id, a.workerIdShift), a.maxWorkerId) == w
            && And(id, a.maxSequence) == s
  {
    hide Allocate, Build, InRange, High, Low, Pow2, Shr, And, Shl, Not;
    var id := Allocate(Build(tb, wb, sb), d, w, s);
    PartsOfId(tb, wb, sb, d, w, s);
    Created(tb, wb, sb);
    ShrOfLong(id, wb + sb);
    ShrOfLong(id, sb);
    MaskOfLong(High(id, sb), wb);
    MaskOfLong(id, sb);
  }

  // ---------------------------------------------------------------- parsing an id

  /** Parsing gives the fields back when worker and sequence have at least one bit each. */
  lemma ParseRecovers(tb: nat, wb: nat, sb: nat, d: nat, w: nat, s: nat)
    requires tb + wb + sb == 63 && InRange(Build(tb, wb, sb), d, w, s)
    requires wb > 0 && sb > 0
    ensures var a := Build(tb, wb, sb); ParseUid(a, Allocate(a, d, w, s)) == Fields(d, w, s)
  {
    hide Allocate, Build, InRange, High, Low, Shr, Shl, Pow2;
    var id := Allocate(Build(tb, wb, sb), d, w, s);
    PartsOfId(tb, wb, sb, d, w, s);
    Created(tb, wb, sb);
    ShrOfLong(id, wb + sb);
    ShiftOutAndIn(id, 0, sb, 64 - sb);
    ShiftOutAndIn(id, sb, wb + sb, tb + 1);
    HighNone(Low(id, sb));
  }

  lemma HighNone(x: nat)
    ensures High(x, 0) == x
  {
    PowTwo(0);
  }

  /** Distances count modulo 64, and so do the widths, as long as what is left of them still fits. */
  lemma WidthsModulo64(tb: int, wb: int, sb: int)
    ensures var a, r := Build(tb, wb, sb), Build(tb % 64, wb % 64, sb % 64);
            && (forall d, w, s :: InRange(a, d, w, s) == InRange(r, d, w, s))
            && (forall d, w, s :: Allocate(a, d, w, s) == Allocate(r, d, w, s))
            && (forall uid :: ParseUid(a, uid) == ParseUid(r, uid))
  {
    hide InRange, Allocate, ParseUid, Build;
    SameRange(tb, wb, sb);
    SameIds(tb, wb, sb);
    SameParsing(tb, wb, sb);
  }

  lemma SameRange(tb: int, wb: int, sb: int)
    ensures forall d, w, s :: InRange(Build(tb, wb, sb), d, w, s) == InRange(Build(tb % 64, wb % 64, sb % 64), d, w, s)
  {
    hide Shl, Not, Wrap32;
    SameDistance(tb, tb % 64);
    SameDistance(wb, wb % 64);
    SameDistance(sb, sb % 64);
  }

  lemma SameIds(tb: int, wb: int, sb: int)
    ensures var a, r := Build(tb, wb, sb), Build(tb % 64, wb % 64, sb % 64);
            forall d, w, s :: Allocate(a, d, w, s) == Allocate(r, d, w, s)
  {
    hide Shl, Or, Not, Wrap32;
    Residue32(wb + sb);
    Residue32(wb % 64 + sb % 64);
    SameDistance(Wrap32(wb + sb), Wrap32(wb % 64 + sb % 64));
    SameDistance(sb, sb % 64);
  }

  lemma SameParsing(tb: int, wb: int, sb: int)
    ensures forall uid :: ParseUid(Build(tb, wb, sb), uid) == ParseUid(Build(tb % 64, wb % 64, sb % 64), uid)
  {
    hide Shl, Shr, Not, Wrap32;
    SameDistance(wb + sb, wb % 64 + sb % 64);
    SameDistance(tb + 1, tb % 64 + 1);
    SameDistance(64 - wb, 64 - wb % 64);
    SameDistance(64 - sb, 64 - sb % 64);
  }

  lemma Residue32(x: int)
    ensures Wrap32(x) % 64 == x % 64
  {
    var q := (x + 0x8000_0000) / 0x1_0000_0000;
    assert Wrap32(x) == x - 0x1_0000_0000 * q;
    hide Wrap32;
    Sixty4(x / 64 - 0x400_0000 * q, x % 64);
  }

  lemma Sixty4(y: int, r: nat)
    requires r < 64
    ensures (64 * y + r) % 64 == r
  {}

  lemma SameDistance(k: int, j: int)
    requires k % 64 == j % 64
    ensures forall x :: Shl(x, k) == Shl(x, j) && Shr(x, k) == Shr(x, j)
  {
    hide Wrap, Pow2;
  }

  /** Widths that only add up to 64 by overflow can leave 127 bits for the fields: then they overlap. */
  lemma Overlap(tb: int, wb: int, sb: int)
    requires tb % 64 + wb % 64 + sb % 64 == 127
    ensures !Recovers(Build(tb, wb, sb))
  {
    hide Shl, Shr, Or, Not, Pow2, InRange, Allocate, Build, Recovers;
    var b, c := wb % 64, sb % 64;
    OnlySequence(tb, wb, sb, c);
    SequenceSeenAbove(b, c);
    SameDistance(wb + sb, b + c - 64);
    assert Build(tb, wb, sb).workerIdBits == wb && Build(tb, wb, sb).sequenceBits == sb by { WidthsKept(tb, wb, sb); }
    NotRecovered(Build(tb, wb, sb), 0, 0, Pow2(c - 1));
  }

  lemma WidthsKept(tb: int, wb: int, sb: int)
    ensures var a := Build(tb, wb, sb); a.timestampBits == tb && a.workerIdBits == wb && a.sequenceBits == sb
  {}

  /** The highest bit of the sequence reaches into what is parsed as the seconds. */
  lemma SequenceSeenAbove(b: nat, c: nat)
    requires b < 64 && c < 64 && b + c >= 64
    ensures Shr(Pow2(c - 1), b + c - 64) > 0
  {
    hide Shr, Pow2, High;
    PowDivides(63 - b, b + c - 64);
    Pow63();
    PowBelow(c, 63);
    PowHalf(c);
    PowPositive(c - 1);
    assert 63 - b + (b + c - 64) == c - 1;
    ShrOfLong(Pow2(c - 1), b + c - 64);
  }

  lemma PowHalf(k: nat)
    requires k > 0
    ensures Pow2(k) == 2 * Pow2(k - 1)
  {}

  lemma PowDivides(j: nat, k: nat)
    ensures High(Pow2(j + k), k) == Pow2(j) > 0
  {
    PowAdd(j, k);
    PowPositive(j);
    PowPositive(k);
    hide Pow2;
    DivMod(Pow2(j), 0, Pow2(k));
  }

  /** With the other fields zero an id is its sequence. */
  lemma OnlySequence(tb: int, wb: int, sb: int, c: nat)
    requires c == sb % 64 && c > 0
    ensures var a, s := Build(tb, wb, sb), Pow2(c - 1); InRange(a, 0, 0, s) && Allocate(a, 0, 0, s) == s < SIGN
  {
    hide Shl, Or, Not, Pow2;
    SameDistance(tb, tb % 64);
    SameDistance(wb, wb % 64);
    SameDistance(sb, c);
    MaxOf(tb % 64);
    MaxOf(wb % 64);
    MaxOf(c);
    PowPositive(tb % 64);
    PowPositive(wb % 64);
    PowPositive(c - 1);
    PowHalf(c);
    Pow63();
    PowBelow(c, 63);
    ZeroShifted(Build(tb, wb, sb).timestampShift);
    ZeroShifted(sb);
    OrWithZero(0);
    OrWithZero(Pow2(c - 1));
  }

  lemma ZeroShifted(k: int)
    ensures Shl(0, k) == 0
  {
    hide Pow2;
    assert 0 * Pow2(k % 64) == 0;
  }

  lemma OrWithZero(x: nat)
    requires x < SIGN
    ensures Or(0, x) == x
  {
    hide OrNat, Wrap;
    ZeroOr(x);
    WrapFits(x);
  }

  lemma {:induction false} ZeroOr(x: nat)
    ensures OrNat(0, x) == x
  {
    if x > 0 { ZeroOr(x / 2); }
  }

  lemma NotRecovered(a: Allocator, d: nat, w: nat, s: nat)
    requires InRange(a, d, w, s) && ParseUid(a, Allocate(a, d, w, s)) != Fields(d, w, s)
    ensures !Recovers(a)
  {
    hide InRange, ParseUid, Allocate;
  }

  /**
   For every allocator that can be created, whatever the ints: parsing gives back all fields of all ids
   exactly when the widths modulo 64 add up to 63 and leave worker and sequence at least one bit each.
   A field of no bits is not parsed, because its distance of 64 counts as no shift at all.
   */
  lemma ParseRecoversIff(tb: int, wb: int, sb: int)
    requires Create(tb, wb, sb).Some?
    ensures Recovers(Create(tb, wb, sb).value)
            <==> tb % 64 + wb % 64 + sb % 64 == 63 && wb % 64 > 0 && sb % 64 > 0
  {
    var a, b, c := tb % 64, wb % 64, sb % 64;
    ResidueSums(tb, wb, sb);
    if a + b + c == 127 {
      Overlap(tb, wb, sb);
    } else {
      WidthsModulo64(tb, wb, sb);
      ParseRecoversNarrow(a, b, c);
      hide InRange, ParseUid, Allocate;
    }
  }

  /** Nothing else is left of widths that pass the check. */
  lemma ResidueSums(tb: int, wb: int, sb: int)
    requires Create(tb, wb, sb).Some?
    ensures tb % 64 + wb % 64 + sb % 64 == 63 || tb % 64 + wb % 64 + sb % 64 == 127
  {
    Residue32(1 + tb + wb + sb);
    assert (1 + tb + wb + sb) % 64 == 0;
    hide Create, Wrap32;
    var rest := tb % 64 + wb % 64 + sb % 64;
    Sixty4(tb / 64 + wb / 64 + sb / 64 + (1 + rest) / 64, (1 + rest) % 64);
    assert (1 + rest) % 64 == 0;
  }

  lemma ParseRecoversNarrow(tb: nat, wb: nat, sb: nat)
    requires tb + wb + sb == 63
    ensures Recovers(Build(tb, wb, sb)) <==> wb > 0 && sb > 0
  {
    var a := Build(tb, wb, sb);
    hide Build, InRange, Allocate, ParseUid;
    if wb > 0 && sb > 0 {
      forall d: nat, w: nat, s: nat | InRange(a, d, w, s)
        ensures ParseUid(a, Allocate(a, d, w, s)) == Fields(d, w, s)
      {
        ParseRecovers(tb, wb, sb, d, w, s);
      }
    } else {
      var d: nat, w: nat, s: nat := Misparsed(tb, wb, sb);
      NotRecovered(a, d, w, s);
    }
  }

  /** Three widths that the check accepts only because their sum overflows an int. */
  lemma OverflowAccepted()
    ensures var (tb, wb, sb) := (0x7fff_ffff, 0x7fff_ffff, 65);
            Create(tb, wb, sb).Some? && !Recovers(Create(tb, wb, sb).value)
  {
    hide Build, Recovers, Pow2, Wrap;
    assert 0x7fff_ffff % 64 == 63 && 65 % 64 == 1;
    Overlap(0x7fff_ffff, 0x7fff_ffff, 65);
  }

  /** The id 1 is not parsed back when worker or sequence have no bits. */
  lemma Misparsed(tb: nat, wb: nat, sb: nat) returns (d: nat, w: nat, s: nat)
    requires tb + wb + sb == 63 && (wb == 0 || sb == 0)
    ensures var a := Build(tb, wb, sb);
            InRange(a, d, w, s) && Allocate(a, d, w, s) == 1 && ParseUid(a, 1) != Fields(d, w, s)
  {
    d, w, s := if wb == sb == 0 then 1 else 0, if sb == 0 && wb > 0 then 1 else 0, if sb > 0 then 1 else 0;
    hide Allocate, Build, InRange, ParseUid, Join, Pow2;
    Created(tb, wb, sb);
    PowTwo(tb);
    PowTwo(wb);
    PowTwo(sb);
    InRangeIff(tb, wb, sb, d, w, s);
    AllocateIsSum(tb, wb, sb, d, w, s);
    JoinOne(d, w, s, wb, sb);
    OneMisparsed(Build(tb, wb, sb));
  }

  lemma OneMisparsed(a: Allocator)
    ensures a.sequenceBits == 0 ==> ParseUid(a, 1).sequence == 1
    ensures a.workerIdBits == 0 && 0 <= a.timestampBits < 63 ==> ParseUid(a, 1).workerId != 0
  {
    hide Shl, Shr;
    OneNotShifted();
    if a.workerIdBits == 0 && 0 <= a.timestampBits < 63 { OneShifted(a.timestampBits + 1); }
  }

  lemma JoinOne(d: nat, w: nat, s: nat, wb: nat, sb: nat)
    requires d + w + s == 1 && (d == 1 ==> wb == sb == 0) && (w == 1 ==> sb == 0)
    ensures Join(d, Join(w, s, sb), wb + sb) == 1
  {
    PowTwo(0);
    assert 0 * Pow2(sb) == 0 && 0 * Pow2(wb + sb) == 0;
  }

  lemma OneNotShifted()
    ensures Shr(Shl(1, 64), 64) == 1
  {
    NoShift(1);
    hide Shl, Shr, Wrap;
    WrapFits(1);
    NoShift(1);
  }

  lemma OneShifted(k: nat)
    requires 0 < k < 64
    ensures Shr(Shl(1, k), 64) != 0
  {
    hide Pow2, Shl, Shr, Wrap;
    Pow63();
    PowBelow(k, 63);
    PowPositive(k);
    ShortShl(1, k);
    NoShift(Shl(1, k));
    assert Up(1, k) == Pow2(k);
    hide Up;
    WrapRemainder(Pow2(k));
    WrapRemainder(Shl(1, k) % ALL);
  }

  /** Ids are ordered by seconds, then worker, then sequence. */
  lemma AllocateOrder(tb: nat, wb: nat, sb: nat, d: nat, w: nat, s: nat, d': nat, w': nat, s': nat)
    requires tb + wb + sb == 63
    requires InRange(Build(tb, wb, sb), d, w, s) && InRange(Build(tb, wb, sb), d', w', s')
    ensures Allocate(Build(tb, wb, sb), d, w, s) < Allocate(Build(tb, wb, sb), d', w', s')
            <==> d < d' || (d == d' && (w < w' || (w == w' && s < s')))
  {
    hide Allocate, Build, InRange, Join, Pow2, High, Low;
    InRangeIff(tb, wb, sb, d, w, s);
    InRangeIff(tb, wb, sb, d', w', s');
    Created(tb, wb, sb);
    AllocateIsSum(tb, wb, sb, d, w, s);
    AllocateIsSum(tb, wb, sb, d', w', s');
    JoinBound(w, s, wb, sb);
    JoinBound(w', s', wb, sb);
    JoinOrder(d, Join(w, s, sb), d', Join(w', s', sb), wb + sb);
    JoinOrder(w, s, w', s', sb);
  }

  // ---------------------------------------------------------------- the generator

  /** The configuration of a generator: no setter takes a width that is not positive. */
  class UidGenerator {
    var timeBits: int32
    var workerBits: int32
    var seqBits: int32

    ghost predicate Valid()
      reads this
    {
      timeBits > 0 && workerBits > 0 && seqBits > 0
    }

    constructor ()
      ensures Valid() && timeBits == 28 && workerBits == 22 && seqBits == 13
    {
      timeBits, workerBits, seqBits := 28, 22, 13;
    }

    method SetTimeBits(given: int32)
      requires Valid()
      modifies this`timeBits
      ensures Valid() && timeBits == if given > 0 then given else old(timeBits)
    {
      if given > 0 { timeBits := given; }
    }

    method SetWorkerBits(given: int32)
      requires Valid()
      modifies this`workerBits
      ensures Valid() && workerBits == if given > 0 then given else old(workerBits)
    {
      if given > 0 { workerBits := given; }
    }

    method SetSeqBits(given: int32)
      requires Valid()
      modifies this`seqBits
      ensures Valid() && seqBits == if given > 0 then given else old(seqBits)
    {
      if given > 0 { seqBits := given; }
    }

    /**
     Creates the allocator. With widths below 64 an accepted configuration always parses its ids back;
     for wider ones the sum can overflow, and the last clause says when parsing still works.
     */
    method AfterPropertiesSet() returns (r: Option<Allocator>)
      requires Valid()
      ensures r == Create(timeBits, workerBits, seqBits)
      ensures timeBits < 64 && workerBits < 64 && seqBits < 64 ==>
                (r.Some? <==> timeBits + workerBits + seqBits == 63) && (r.Some? ==> Recovers(r.value))
      ensures r.Some? ==>
                (Recovers(r.value) <==> && timeBits % 64 + workerBits % 64 + seqBits % 64 == 63
                                        && workerBits % 64 > 0 && seqBits % 64 > 0)
    {
      r := Create(timeBits, workerBits, seqBits);
      hide Build, Recovers;
      if r.Some? { ParseRecoversIff(timeBits, workerBits, seqBits); }
    }
  }

  /** The generator as it is set up from a configuration, where 0 stands for a width that is not given. */
  method Configured(timeBits: int32, workerBits: int32, seqBits: int32) returns (r: Option<Allocator>)
    ensures r == Create(if timeBits > 0 then timeBits else 28, if workerBits > 0 then workerBits else 22,
                        if seqBits > 0 then seqBits else 13)
    ensures timeBits < 64 && workerBits < 64 && seqBits < 64 && r.Some? ==> Recovers(r.value)
  {
    var g := new UidGenerator();
    g.SetSeqBits(seqBits);
    g.SetTimeBits(timeBits);
    g.SetWorkerBits(workerBits);
    r := g.AfterPropertiesSet();
  }
}
