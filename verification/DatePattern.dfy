/** Matching a text against groups of digits and single characters, with backtracking and without. */
module DatePattern {
  import opened Decimals
  import opened Wrappers

  /** One group of the pattern: a number of digits, or one character. */
  datatype Exp = Digits(lo: nat, hi: nat) | Exactly(c: char)

  function Min(a: nat, b: nat): nat { if a < b then a else b }

  /** The groups of a full match: every group takes as much as it can, giving back only when the rest fails. */
  function Match(exps: seq<Exp>, s: string): Option<seq<string>>
    decreases |exps|, 0, 0
  {
    if exps == [] then (if s == "" then Some([]) else None)
    else
      match exps[0]
      case Exactly(c) => if s != "" && s[0] == c then Prefixed([c], Match(exps[1..], s[1..])) else None
      case Digits(_, hi) => Take(exps, s, Min(hi, LeadingDigits(s)))
  }

  function Take(exps: seq<Exp>, s: string, n: nat): Option<seq<string>>
    requires exps != [] && exps[0].Digits? && n <= |s|
    decreases |exps| - 1, 1, n
  {
    if n < exps[0].lo then None
    else
      var r := Prefixed(s[..n], Match(exps[1..], s[n..]));
      if r.Some? || n == 0 then r else Take(exps, s, n - 1)
  }

  function Prefixed(piece: string, rest: Option<seq<string>>): Option<seq<string>> {
    if rest.Some? then Some([piece] + rest.value) else None
  }

  function Join(pieces: seq<string>): string {
    if pieces == [] then "" else pieces[0] + Join(pieces[1..])
  }

  /** A group in the middle of a text that is spelled by groups. */
  lemma {:induction false} JoinAround(r: seq<string>, i: nat)
    requires i < |r|
    ensures Join(r) == Join(r[..i]) + r[i] + Join(r[i + 1..])
    decreases i
  {
    if i > 0 {
      assert r[1..][..i - 1] == r[..i][1..] && r[1..][i..] == r[i + 1..];
      JoinAround(r[1..], i - 1);
    }
  }

  lemma JoinNothing(r: seq<string>)
    ensures Join(r) != "" ==> r != []
  {}

  lemma JoinFirst(r: seq<string>)
    ensures r != [] && r[0] != "" ==> Join(r) != "" && Join(r)[0] == r[0][0]
  {}

  // ---------------------------------------------------------------- what a match returns

  /** A group as a match may return it. */
  predicate Matches(e: Exp, piece: string) {
    match e
    case Exactly(c) => piece == [c]
    case Digits(lo, hi) => AllDigits(piece) && lo <= |piece| <= hi
  }

  /** The groups of a match spell the whole text, and every one is of its own kind. */
  lemma {:induction false} MatchSound(exps: seq<Exp>, s: string)
    requires Match(exps, s).Some?
    ensures var r := Match(exps, s).value;
            |r| == |exps| && Join(r) == s && forall i :: 0 <= i < |exps| ==> Matches(exps[i], r[i])
    decreases |exps|, 0, 0
  {
    if exps != [] {
      match exps[0]
      case Exactly(c) =>
        MatchSound(exps[1..], s[1..]);
        PrefixedSound(exps, s, 1);
      case Digits(lo, hi) =>
        LeadingPrefix(s, Min(hi, LeadingDigits(s)));
        TakeSound(exps, s, Min(hi, LeadingDigits(s)));
    }
  }

  lemma {:induction false} TakeSound(exps: seq<Exp>, s: string, n: nat)
    requires exps != [] && exps[0].Digits? && n <= |s| && n <= exps[0].hi && AllDigits(s[..n])
    requires Take(exps, s, n).Some?
    ensures var r := Take(exps, s, n).value;
            |r| == |exps| && Join(r) == s && forall i :: 0 <= i < |exps| ==> Matches(exps[i], r[i])
    decreases |exps| - 1, 1, n
  {
    if Match(exps[1..], s[n..]).Some? {
      MatchSound(exps[1..], s[n..]);
      PrefixedSound(exps, s, n);
    } else {
      assert forall i :: 0 <= i < n - 1 ==> s[..n - 1][i] == s[..n][i];
      TakeSound(exps, s, n - 1);
    }
  }

  lemma PrefixedSound(exps: seq<Exp>, s: string, n: nat)
    requires exps != [] && n <= |s| && Matches(exps[0], s[..n]) && Match(exps[1..], s[n..]).Some?
    requires var r := Match(exps[1..], s[n..]).value;
             |r| == |exps| - 1 && Join(r) == s[n..] && forall i :: 0 <= i < |r| ==> Matches(exps[1..][i], r[i])
    ensures var r := [s[..n]] + Match(exps[1..], s[n..]).value;
            |r| == |exps| && Join(r) == s && forall i :: 0 <= i < |exps| ==> Matches(exps[i], r[i])
  {
    hide Match, Matches;
    var rest := Match(exps[1..], s[n..]).value;
    var r := [s[..n]] + rest;
    assert r[1..] == rest;
    forall i | 0 < i < |exps| ensures Matches(exps[i], r[i]) {
      assert exps[1..][i - 1] == exps[i] && rest[i - 1] == r[i];
    }
  }

  lemma LeadingPrefix(s: string, n: nat)
    requires n <= LeadingDigits(s)
    ensures AllDigits(s[..n])
  {
    assert forall i :: 0 <= i < n ==> s[..n][i] == s[..LeadingDigits(s)][i];
  }

  // ---------------------------------------------------------------- matching without backtracking

  function Leading(s: string): nat { LeadingDigits(s) }

  lemma LeadingFits(s: string)
    ensures Leading(s) <= |s|
  {}

  lemma LeadingRest(d: string, s: string)
    requires AllDigits(d)
    ensures Leading(d + s) == |d| + Leading(s)
  {
    DigitsThenRest(d, s);
  }

  /** Literals are no digits, and of touching digit groups all but the first have a fixed length. */
  predicate Regular(exps: seq<Exp>) {
    && (forall i :: 0 <= i < |exps| && exps[i].Exactly? ==> !IsDigit(exps[i].c))
    && (forall i :: 0 < i < |exps| && exps[i - 1].Digits? && exps[i].Digits? ==> exps[i].lo == exps[i].hi)
  }

  /** Together with a group before them: the digit groups in front have a fixed length. */
  predicate FixedFront(exps: seq<Exp>) {
    exps != [] && exps[0].Digits? ==> exps[0].lo == exps[0].hi
  }

  lemma RegularTail(exps: seq<Exp>)
    requires Regular(exps) && exps != []
    ensures Regular(exps[1..]) && (exps[0].Digits? ==> FixedFront(exps[1..]))
  {
    var tail := exps[1..];
    forall i | 0 <= i < |tail| ensures tail[i] == exps[i + 1] { }
    forall i | 0 < i < |tail| && tail[i - 1].Digits? && tail[i].Digits? ensures tail[i].lo == tail[i].hi {
      assert tail[i - 1] == exps[i + 1 - 1];
    }
  }

  /** The length of the digit groups in front, when they are fixed. */
  function Fixed(exps: seq<Exp>): nat {
    if exps == [] || exps[0].Exactly? then 0 else exps[0].lo + Fixed(exps[1..])
  }

  /** One pass over the text: the first of touching digit groups takes what the others leave. */
  function Split(exps: seq<Exp>, s: string): Option<seq<string>>
    decreases |exps|
  {
    LeadingFits(s);
    if exps == [] then (if s == "" then Some([]) else None)
    else
      match exps[0]
      case Exactly(c) => if s != "" && s[0] == c then Prefixed([c], Split(exps[1..], s[1..])) else None
      case Digits(lo, hi) =>
        var n := Leading(s) - Fixed(exps[1..]);
        if lo <= n <= hi then Prefixed(s[..n], Split(exps[1..], s[n..])) else None
  }

  lemma SplitRun(exps: seq<Exp>, s: string)
    requires Regular(exps) && FixedFront(exps) && Split(exps, s).Some?
    ensures Leading(s) == Fixed(exps)
  {
  }

  lemma LeadingAfter(s: string, n: nat)
    requires n <= Leading(s)
    ensures Leading(s[n..]) == Leading(s) - n
  {
    LeadingPrefix(s, n);
    LeadingRest(s[..n], s[n..]);
    assert s[..n] + s[n..] == s;
  }

  lemma TakeStep(exps: seq<Exp>, s: string, m: nat)
    requires exps != [] && exps[0].Digits? && m <= |s|
    ensures var r := Prefixed(s[..m], Match(exps[1..], s[m..]));
            Take(exps, s, m)
            == if m < exps[0].lo then None else if r.Some? || m == 0 then r else Take(exps, s, m - 1)
  {}

  /** Only one length leaves the right number of digits to the fixed groups. */
  lemma OnlyLength(exps: seq<Exp>, s: string, m: nat)
    requires Regular(exps) && exps != [] && exps[0].Digits? && m <= Leading(s) && m <= |s|
    ensures m != Leading(s) - Fixed(exps[1..]) ==> Split(exps[1..], s[m..]) == None
  {
    RegularTail(exps);
    LeadingAfter(s, m);
    hide Split, Regular, Leading, Fixed;
    if Split(exps[1..], s[m..]).Some? { SplitRun(exps[1..], s[m..]); }
  }

  /** Giving digits back one by one finds that length. */
  lemma {:induction false} TakeIsSplit(exps: seq<Exp>, s: string, m: nat)
    requires Regular(exps) && exps != [] && exps[0].Digits? && m <= exps[0].hi && m <= Leading(s) && m <= |s|
    requires forall t :: Match(exps[1..], t) == Split(exps[1..], t)
    ensures var n := Leading(s) - Fixed(exps[1..]);
            Take(exps, s, m)
            == if exps[0].lo <= n <= m then Prefixed(s[..n], Split(exps[1..], s[n..])) else None
    decreases m
  {
    hide Match, Split, Take, Regular, Leading, Fixed;
    TakeStep(exps, s, m);
    OnlyLength(exps, s, m);
    if m > 0 { TakeIsSplit(exps, s, m - 1); }
  }

  lemma MatchDigits(exps: seq<Exp>, s: string)
    requires exps != [] && exps[0].Digits?
    ensures Match(exps, s) == Take(exps, s, Min(exps[0].hi, Leading(s)))
  {}

  /** On a regular pattern backtracking finds exactly what one pass finds. */
  lemma {:induction false} MatchIsSplit(exps: seq<Exp>, s: string)
    requires Regular(exps)
    ensures Match(exps, s) == Split(exps, s)
    decreases |exps|
  {
    if exps != [] {
      RegularTail(exps);
      forall t ensures Match(exps[1..], t) == Split(exps[1..], t) {
        MatchIsSplit(exps[1..], t);
      }
      if exps[0].Digits? {
        MatchDigits(exps, s);
        SplitDigits(exps, s);
        LeadingFits(s);
        hide Match, Split, Take, Leading, Fixed, Regular;
        TakeIsSplit(exps, s, Min(exps[0].hi, Leading(s)));
      }
    }
  }

  // ---------------------------------------------------------------- text put together from pieces

  /** A piece of the right kind, of any length. */
  predicate KindFits(e: Exp, piece: string) {
    match e
    case Exactly(c) => piece == [c]
    case Digits(_, _) => AllDigits(piece)
  }

  predicate LengthFits(e: Exp, piece: string) {
    e.Digits? ==> e.lo <= |piece| <= e.hi
  }

  predicate Kinds(exps: seq<Exp>, pieces: seq<string>) {
    |exps| == |pieces| && forall i :: 0 <= i < |exps| ==> KindFits(exps[i], pieces[i])
  }

  predicate Lengths(exps: seq<Exp>, pieces: seq<string>)
    requires |exps| == |pieces|
  {
    forall i :: 0 <= i < |exps| ==> LengthFits(exps[i], pieces[i])
  }

  lemma TailFits(exps: seq<Exp>, pieces: seq<string>)
    requires Kinds(exps, pieces) && exps != []
    ensures Kinds(exps[1..], pieces[1..])
    ensures Lengths(exps, pieces) <==> LengthFits(exps[0], pieces[0]) && Lengths(exps[1..], pieces[1..])
  {
    hide KindFits, LengthFits;
    forall i | 0 < i < |exps| ensures exps[i] == exps[1..][i - 1] && pieces[i] == pieces[1..][i - 1] { }
    forall i | 0 <= i < |exps| - 1 ensures KindFits(exps[1..][i], pieces[1..][i]) {
      assert KindFits(exps[i + 1], pieces[i + 1]);
    }
    if LengthFits(exps[0], pieces[0]) && Lengths(exps[1..], pieces[1..]) {
      forall i | 0 <= i < |exps| ensures LengthFits(exps[i], pieces[i]) {
        if i > 0 { assert LengthFits(exps[1..][i - 1], pieces[1..][i - 1]); }
      }
    }
  }

  /** The length of the pieces of the digit groups in front. */
  function Width(exps: seq<Exp>, pieces: seq<string>): nat
    requires |exps| == |pieces|
  {
    if exps == [] || exps[0].Exactly? then 0 else |pieces[0]| + Width(exps[1..], pieces[1..])
  }

  lemma {:induction false} LeadingOfJoin(exps: seq<Exp>, pieces: seq<string>)
    requires Regular(exps) && Kinds(exps, pieces)
    ensures Leading(Join(pieces)) == Width(exps, pieces)
    decreases |exps|
  {
    if exps != [] {
      assert KindFits(exps[0], pieces[0]);
      if exps[0].Digits? {
        RegularTail(exps);
        TailFits(exps, pieces);
        LeadingOfJoin(exps[1..], pieces[1..]);
        LeadingRest(pieces[0], Join(pieces[1..]));
      }
    }
  }

  lemma {:induction false} FixedWidth(exps: seq<Exp>, pieces: seq<string>)
    requires Regular(exps) && FixedFront(exps) && Kinds(exps, pieces) && Lengths(exps, pieces)
    ensures Width(exps, pieces) == Fixed(exps)
    decreases |exps|
  {
    if exps != [] && exps[0].Digits? {
      RegularTail(exps);
      TailFits(exps, pieces);
      FixedWidth(exps[1..], pieces[1..]);
    }
  }

  lemma {:induction false} SplitJoined(exps: seq<Exp>, pieces: seq<string>)
    requires Regular(exps) && Kinds(exps, pieces) && Lengths(exps, pieces)
    ensures Split(exps, Join(pieces)) == Some(pieces)
    decreases |exps|
  {
    if exps != [] {
      var p, rest := pieces[0], Join(pieces[1..]);
      RegularTail(exps);
      TailFits(exps, pieces);
      SplitJoined(exps[1..], pieces[1..]);
      assert KindFits(exps[0], p) && [p] + pieces[1..] == pieces;
      assert Join(pieces) == p + rest && (p + rest)[..|p|] == p && (p + rest)[|p|..] == rest;
      if exps[0].Digits? {
        LeadingOfJoin(exps, pieces);
        FixedWidth(exps[1..], pieces[1..]);
      }
    }
  }

  /** The groups are the pieces that the text was put together from exactly when every piece has an allowed length. */
  lemma MatchJoined(exps: seq<Exp>, pieces: seq<string>)
    requires Regular(exps) && Kinds(exps, pieces)
    ensures Match(exps, Join(pieces)) == Some(pieces) <==> Lengths(exps, pieces)
  {
    hide Match, Split;
    MatchIsSplit(exps, Join(pieces));
    if Match(exps, Join(pieces)) == Some(pieces) {
      MatchSound(exps, Join(pieces));
      forall i | 0 <= i < |exps| ensures LengthFits(exps[i], pieces[i]) {
        assert Matches(exps[i], pieces[i]);
      }
    }
    if Lengths(exps, pieces) { SplitJoined(exps, pieces); }
  }

  // ---------------------------------------------------------------- which texts are accepted

  /** The first of touching digit groups. */
  predicate RunStart(exps: seq<Exp>, i: int) {
    0 <= i < |exps| && exps[i].Digits? && (i == 0 || exps[i - 1].Exactly?)
  }

  /** What the fixed groups leave of the digits in front fits the first group. */
  predicate RunFits(exps: seq<Exp>, pieces: seq<string>)
    requires |exps| == |pieces| && exps != [] && exps[0].Digits?
  {
    exps[0].lo <= Width(exps, pieces) - Fixed(exps[1..]) <= exps[0].hi
  }

  predicate RunFitsAt(exps: seq<Exp>, pieces: seq<string>, i: int)
    requires |exps| == |pieces|
  {
    RunStart(exps, i) ==> RunFits(exps[i..], pieces[i..])
  }

  predicate RunsFit(exps: seq<Exp>, pieces: seq<string>)
    requires |exps| == |pieces|
  {
    forall i :: 0 <= i < |exps| ==> RunFitsAt(exps, pieces, i)
  }

  /** The number of digit groups in front. */
  function RunEnd(exps: seq<Exp>): (k: nat)
    ensures k <= |exps|
  {
    if exps == [] || exps[0].Exactly? then 0 else 1 + RunEnd(exps[1..])
  }

  lemma {:induction false} RunEnds(exps: seq<Exp>)
    ensures var k := RunEnd(exps); (forall i :: 0 <= i < k ==> exps[i].Digits?) && (k < |exps| ==> exps[k].Exactly?)
    decreases |exps|
  {
    if exps != [] && exps[0].Digits? {
      RunEnds(exps[1..]);
      forall i | 0 < i < RunEnd(exps) ensures exps[i].Digits? { assert exps[1..][i - 1] == exps[i]; }
    }
  }

  lemma {:induction false} AfterRun(exps: seq<Exp>, pieces: seq<string>)
    requires Regular(exps) && Kinds(exps, pieces)
    ensures var k := RunEnd(exps);
            Regular(exps[k..]) && Kinds(exps[k..], pieces[k..]) && Leading(Join(pieces[k..])) == 0
    decreases |exps|
  {
    if exps == [] || exps[0].Exactly? {
      assert pieces[0..] == pieces && exps[0..] == exps;
      LeadingOfJoin(exps, pieces);
    } else {
      var k := RunEnd(exps[1..]);
      RegularTail(exps);
      TailFits(exps, pieces);
      AfterRun(exps[1..], pieces[1..]);
      assert pieces[k + 1..] == pieces[1..][k..] && exps[k + 1..] == exps[1..][k..];
    }
  }

  lemma {:induction false} JoinConcat(r: seq<string>, t: seq<string>)
    ensures Join(r + t) == Join(r) + Join(t)
    decreases |r|
  {
    if r == [] {
      assert r + t == t;
    } else {
      assert (r + t)[1..] == r[1..] + t;
      JoinConcat(r[1..], t);
    }
  }

  /** The text of the digit groups in front. */
  lemma {:induction false} RunText(exps: seq<Exp>, pieces: seq<string>)
    requires Kinds(exps, pieces)
    ensures var text := Join(pieces[..RunEnd(exps)]); AllDigits(text) && |text| == Width(exps, pieces)
    decreases |exps|
  {
    if exps == [] || exps[0].Exactly? {
      assert pieces[..0] == [];
    } else {
      var k := RunEnd(exps[1..]);
      assert KindFits(exps[0], pieces[0]);
      TailFits(exps, pieces);
      RunText(exps[1..], pieces[1..]);
      assert pieces[..k + 1][1..] == pieces[1..][..k];
      hide Kinds, AllDigits;
      DigitsConcat(pieces[0], Join(pieces[1..][..k]));
    }
  }

  lemma DigitsConcat(s: string, t: string)
    requires AllDigits(s) && AllDigits(t)
    ensures AllDigits(s + t)
  {}

  /** Fixed groups take their digits, and the rest of the text is left to the rest of the groups. */
  lemma {:induction false} SplitFixed(exps: seq<Exp>, d: string, s: string)
    requires Regular(exps) && FixedFront(exps) && AllDigits(d) && |d| == Fixed(exps) && Leading(s) == 0
    ensures Split(exps, d + s).Some? <==> Split(exps[RunEnd(exps)..], s).Some?
    decreases |exps|
  {
    if exps == [] || exps[0].Exactly? {
      assert d + s == s && exps[0..] == exps;
    } else {
      var lo, k := exps[0].lo, RunEnd(exps[1..]);
      RegularTail(exps);
      LeadingRest(d, s);
      DropFront(d, s, lo);
      DropNext(exps, k);
      SplitFixed(exps[1..], d[lo..], s);
    }
  }

  lemma RunsFitTail(exps: seq<Exp>, pieces: seq<string>, k: nat)
    requires |exps| == |pieces| && exps != [] && k == if exps[0].Exactly? then 1 else RunEnd(exps)
    ensures RunsFit(exps, pieces) <==> RunFitsAt(exps, pieces, 0) && RunsFit(exps[k..], pieces[k..])
  {
    hide RunFits;
    RunEnds(exps);
    assert forall i :: 0 < i < k ==> !RunStart(exps, i);
    forall i | k <= i < |exps| ensures RunFitsAt(exps, pieces, i) <==> RunFitsAt(exps[k..], pieces[k..], i - k) {
      assert exps[k..][i - k..] == exps[i..] && pieces[k..][i - k..] == pieces[i..];
      assert exps[k..][i - k] == exps[i] && (i > k ==> exps[k..][i - k - 1] == exps[i - 1]);
    }
    if RunsFit(exps[k..], pieces[k..]) && RunFitsAt(exps, pieces, 0) {
      forall i | 0 <= i < |exps| ensures RunFitsAt(exps, pieces, i) {
        if i >= k { assert RunFitsAt(exps[k..], pieces[k..], i - k); }
      }
    }
    if RunsFit(exps, pieces) {
      forall j | 0 <= j < |exps| - k ensures RunFitsAt(exps[k..], pieces[k..], j) {
        assert RunFitsAt(exps, pieces, j + k);
      }
    }
  }

  lemma {:induction false} SplitAccepts(exps: seq<Exp>, pieces: seq<string>)
    requires Regular(exps) && Kinds(exps, pieces)
    ensures Split(exps, Join(pieces)).Some? <==> RunsFit(exps, pieces)
    decreases |exps|
  {
    if exps != [] {
      RegularTail(exps);
      TailFits(exps, pieces);
      assert KindFits(exps[0], pieces[0]);
      if exps[0].Exactly? {
        SplitAccepts(exps[1..], pieces[1..]);
        assert Join(pieces)[1..] == Join(pieces[1..]);
        RunsFitTail(exps, pieces, 1);
      } else {
        hide RunsFit, RunFits, Split, Regular, Kinds, Width, Fixed, Leading, RunEnd;
        var k := RunEnd(exps);
        assert k > 0 by { RunEndStep(exps); }
        RunText(exps, pieces);
        AfterRun(exps, pieces);
        assert pieces[..k] + pieces[k..] == pieces;
        JoinConcat(pieces[..k], pieces[k..]);
        SplitAccepts(exps[k..], pieces[k..]);
        RunsFitTail(exps, pieces, k);
        SplitFirst(exps, pieces, Join(pieces[..k]), Join(pieces[k..]));
        assert exps[0..] == exps && pieces[0..] == pieces;
      }
    }
  }

  /** The first group takes what the fixed ones leave. */
  lemma SplitFirst(exps: seq<Exp>, pieces: seq<string>, d: string, s: string)
    requires Regular(exps) && |exps| == |pieces| && exps != [] && exps[0].Digits?
    requires AllDigits(d) && |d| == Width(exps, pieces) && Leading(s) == 0
    ensures Split(exps, d + s).Some? <==> RunFits(exps, pieces) && Split(exps[RunEnd(exps)..], s).Some?
  {
    hide Split, Regular, Leading, AllDigits, Fixed, Width, RunEnd;
    SplitDigits(exps, d + s);
    LeadingRest(d, s);
    var n := |d| - Fixed(exps[1..]);
    if exps[0].lo <= n <= exps[0].hi { SplitOthers(exps, d, s, n); }
  }

  lemma SplitOthers(exps: seq<Exp>, d: string, s: string, n: nat)
    requires Regular(exps) && exps != [] && exps[0].Digits?
    requires AllDigits(d) && |d| == n + Fixed(exps[1..]) && Leading(s) == 0
    ensures n <= |d + s|
    ensures Split(exps[1..], (d + s)[n..]).Some? <==> Split(exps[RunEnd(exps)..], s).Some?
  {
    hide Split, Regular, Leading, AllDigits, Fixed, RunEnd;
    RegularTail(exps);
    RunEndStep(exps);
    DropFront(d, s, n);
    DropNext(exps, RunEnd(exps[1..]));
    DigitsSuffix(d, n);
    SplitFixed(exps[1..], d[n..], s);
  }

  lemma DropFront<T>(s: seq<T>, t: seq<T>, n: nat)
    requires n <= |s|
    ensures (s + t)[n..] == s[n..] + t
  {}

  lemma DropNext<T>(s: seq<T>, n: nat)
    requires n < |s|
    ensures s[n + 1..] == s[1..][n..]
  {}

  lemma SplitDigits(exps: seq<Exp>, s: string)
    requires exps != [] && exps[0].Digits?
    ensures var n := Leading(s) - Fixed(exps[1..]);
            Split(exps, s)
            == if exps[0].lo <= n <= exps[0].hi then Prefixed(s[..n], Split(exps[1..], s[n..])) else None
  {}

  lemma RunEndStep(exps: seq<Exp>)
    requires exps != [] && exps[0].Digits?
    ensures RunEnd(exps) == 1 + RunEnd(exps[1..])
  {}

  lemma DigitsSuffix(s: string, n: nat)
    requires AllDigits(s) && n <= |s|
    ensures AllDigits(s[n..])
  {}

  /**
   A text put together from pieces is accepted exactly when for every row of touching digit groups the
   digits that the fixed groups leave fit the first one.
   */
  lemma MatchAccepts(exps: seq<Exp>, pieces: seq<string>)
    requires Regular(exps) && Kinds(exps, pieces)
    ensures Match(exps, Join(pieces)).Some? <==> RunsFit(exps, pieces)
  {
    hide Match, Split, RunsFit;
    MatchIsSplit(exps, Join(pieces));
    SplitAccepts(exps, pieces);
  }
}
