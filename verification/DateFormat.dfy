/** Printing a date-time in a user-given format and reading the text back through the generated pattern. */
module DateFormat {
  import opened Gregorian
  import opened Calendar
  import opened Decimals
  import opened Wrappers
  import opened DatePattern

  // ---------------------------------------------------------------- formats

  datatype Field = Year | Month | Date | Hours | Minutes | Seconds

  /** A piece of a format: a date token such as `MM` (wide) or `M`, or any other character. */
  datatype Item = Token(field: Field, wide: bool) | Literal(c: char)

  function Length(i: Item): nat {
    if i.Literal? then 1 else if !i.wide then 1 else if i.field == Year then 4 else 2
  }

  predicate StartsWith(s: string, t: string) { |t| <= |s| && s[..|t|] == t }

  /** The first alternative of `yyyy|y|MM|M|dd|d|HH|H|mm|m|ss|s|.` that matches. */
  function FirstItem(s: string): Item
    requires s != ""
  {
    if StartsWith(s, "yyyy") then Token(Year, true)
    else if s[0] == 'y' then Token(Year, false)
    else if StartsWith(s, "MM") then Token(Month, true)
    else if s[0] == 'M' then Token(Month, false)
    else if StartsWith(s, "dd") then Token(Date, true)
    else if s[0] == 'd' then Token(Date, false)
    else if StartsWith(s, "HH") then Token(Hours, true)
    else if s[0] == 'H' then Token(Hours, false)
    else if StartsWith(s, "mm") then Token(Minutes, true)
    else if s[0] == 'm' then Token(Minutes, false)
    else if StartsWith(s, "ss") then Token(Seconds, true)
    else if s[0] == 's' then Token(Seconds, false)
    else Literal(s[0])
  }

  /** The characters that `.` does not match. */
  predicate LineEnd(c: char) { c in "\n\r\U{2028}\U{2029}" }

  /** The pieces of a format; line ends are passed over. */
  function Items(format: string): seq<Item> {
    if format == "" then []
    else if LineEnd(format[0]) then Items(format[1..])
    else [FirstItem(format)] + Items(format[Length(FirstItem(format))..])
  }

  /** How a piece is spelled in a format. */
  function Spelled(i: Item): string {
    match i
    case Literal(c) => [c]
    case Token(f, wide) =>
      match f
      case Year => if wide then "yyyy" else "y"
      case Month => if wide then "MM" else "M"
      case Date => if wide then "dd" else "d"
      case Hours => if wide then "HH" else "H"
      case Minutes => if wide then "mm" else "m"
      case Seconds => if wide then "ss" else "s"
  }

  /** The first piece is spelled at the front, and no wider token is: tokens come before literals, wide ones first. */
  lemma FirstItemSpelled(s: string)
    requires s != ""
    ensures StartsWith(s, Spelled(FirstItem(s))) && |Spelled(FirstItem(s))| == Length(FirstItem(s))
    ensures forall f :: FirstItem(s) == Token(f, false) ==> !StartsWith(s, Spelled(Token(f, true)))
    ensures FirstItem(s).Literal? ==> forall f, wide :: !StartsWith(s, Spelled(Token(f, wide)))
  {}

  function Spell(items: seq<Item>): string {
    if items == [] then "" else Spelled(items[0]) + Spell(items[1..])
  }

  /** The pieces of a format without line ends spell the format again. */
  lemma {:induction false} ItemsSpell(format: string)
    requires forall i :: 0 <= i < |format| ==> !LineEnd(format[i])
    ensures Spell(Items(format)) == format
    decreases |format|
  {
    if format != "" {
      var first, rest := FirstItem(format), format[Length(FirstItem(format))..];
      FirstAndRest(format);
      hide FirstItem, Spelled, LineEnd, Items;
      ItemsSpell(rest);
      SpellMore(first, Items(rest));
    }
  }

  lemma FirstAndRest(format: string)
    requires format != "" && forall i :: 0 <= i < |format| ==> !LineEnd(format[i])
    ensures var first, rest := FirstItem(format), format[Length(FirstItem(format))..];
            && Items(format) == [first] + Items(rest) && format == Spelled(first) + rest
            && 0 < Length(first) && forall i :: 0 <= i < |rest| ==> !LineEnd(rest[i])
  {
    ItemsStep(format);
    FirstItemSpelled(format);
    hide FirstItem, Spelled, LineEnd, Items, StartsWith;
    StartsSplit(format, Spelled(FirstItem(format)));
  }

  lemma ItemsStep(format: string)
    requires format != "" && !LineEnd(format[0])
    ensures Items(format) == [FirstItem(format)] + Items(format[Length(FirstItem(format))..])
  {
    hide FirstItem;
  }

  lemma StartsSplit(s: string, t: string)
    requires StartsWith(s, t)
    ensures |t| <= |s| && s == t + s[|t|..]
  {}

  lemma SpellMore(i: Item, items: seq<Item>)
    ensures Spell([i] + items) == Spelled(i) + Spell(items)
  {
    assert ([i] + items)[1..] == items;
  }

  /** Wide tokens and other characters that begin no token are taken apart as they are spelled. */
  lemma {:induction false} ItemsOfSpelled(items: seq<Item>)
    requires forall i :: 0 <= i < |items| ==>
               match items[i] case Token(_, wide) => wide case Literal(c) => !LineEnd(c) && c !in "yMdHms"
    ensures Items(Spell(items)) == items
    decreases |items|
  {
    if items != [] {
      var rest := Spell(items[1..]);
      SpelledFirst(items[0], rest);
      hide FirstItem, Spelled, LineEnd;
      ItemsOfSpelled(items[1..]);
      var t := Spelled(items[0]);
      assert Spell(items) == t + rest && (t + rest)[|t|..] == rest && (t + rest)[0] == t[0];
      assert items == [items[0]] + items[1..];
    }
  }

  lemma SpelledFirst(i: Item, rest: string)
    requires match i case Token(_, wide) => wide case Literal(c) => !LineEnd(c) && c !in "yMdHms"
    ensures FirstItem(Spelled(i) + rest) == i && |Spelled(i)| == Length(i) > 0 && !LineEnd(Spelled(i)[0])
  {
    var t := Spelled(i) + rest;
    assert t[0] == Spelled(i)[0];
    if i.Token? {
      assert t[..|Spelled(i)|] == Spelled(i);
      assert forall f :: f != i.field ==> Spelled(Token(f, true))[0] != t[0];
    }
  }

  // ---------------------------------------------------------------- printing

  function FieldOf(d: DateTime, f: Field): int {
    match f
    case Year => d.year
    case Month => d.month + 1
    case Date => d.date
    case Hours => d.hours
    case Minutes => d.minutes
    case Seconds => d.seconds
  }

  predicate Printable(d: DateTime) { InRange(d) && TimeInRange(d) }

  function Piece(i: Item, d: DateTime): string
    requires Printable(d)
  {
    match i
    case Literal(c) => [c]
    case Token(f, _) => Pad(Decimal(FieldOf(d, f)), Length(i))
  }

  function Pieces(items: seq<Item>, d: DateTime): (r: seq<string>)
    requires Printable(d)
    ensures |r| == |items|
    ensures forall k :: 0 <= k < |items| ==> r[k] == Piece(items[k], d)
  {
    seq(|items|, k requires 0 <= k < |items| => Piece(items[k], d))
  }

  /** A printed field is worth the field, months counted from 1, and as long as its numeral or its token. */
  lemma PieceMeans(f: Field, wide: bool, d: DateTime)
    requires Printable(d)
    ensures var p, v := Piece(Token(f, wide), d),
                        match f case Year => d.year case Month => d.month + 1 case Date => d.date
                                case Hours => d.hours case Minutes => d.minutes case Seconds => d.seconds;
            && AllDigits(p) && Value(p) == v
            && |p| == if |Decimal(v)| < |Spelled(Token(f, wide))| then |Spelled(Token(f, wide))| else |Decimal(v)|
  {
    hide Decimal, Value, Pad;
    PadRoundTrip(FieldOf(d, f), Length(Token(f, wide)));
  }

  /** `parse`: the text shown for a date-time. */
  method Parse(items: seq<Item>, d: DateTime) returns (text: string)
    requires Printable(d)
    ensures text == Join(Pieces(items, d))
  {
    var pieces: seq<string> := [];
    for i := 0 to |items|
      invariant pieces == Pieces(items[..i], d)
    {
      pieces := pieces + [Piece(items[i], d)];
    }
    assert items[..|items|] == items;
    text := Join(pieces);
  }

  // ---------------------------------------------------------------- the generated pattern

  function ExpAt(items: seq<Item>, i: nat): Exp
    requires i < |items|
  {
    var neighbour := if i == 0 then 1 else i - 1;
    match items[i]
    case Literal(c) => Exactly(c)
    case Token(f, wide) =>
      if neighbour < |items| && items[neighbour].Token? then
        (if f == Year then Digits(4, 4) else Digits(Length(items[i]), Length(items[i])))
      else if f == Year then (if wide then Digits(1, 4) else Digits(1, 308))
      else Digits(1, 2)
  }

  /** How many digits a token accepts: its own width behind another token, otherwise from one digit up. */
  lemma GroupLengths(items: seq<Item>, i: nat)
    requires i < |items| && items[i].Token?
    ensures var touches := if i > 0 then items[i - 1].Token? else |items| > 1 && items[1].Token?;
            var width := |Spelled(items[i])|;
            ExpAt(items, i)
            == if items[i].field == Year then
                 if touches then Digits(4, 4) else if width == 4 then Digits(1, 4) else Digits(1, 308)
               else if touches then Digits(width, width) else Digits(1, 2)
  {}

  function Pattern(items: seq<Item>): (r: seq<Exp>)
    ensures |r| == |items|
    ensures forall i :: 0 <= i < |items| ==> r[i] == ExpAt(items, i)
  {
    seq(|items|, i requires 0 <= i < |items| => ExpAt(items, i))
  }

  // ---------------------------------------------------------------- white space

  /** The class `\s` of regular expressions. */
  predicate IsSpace(c: char) {
    || c in " \t\n\r\U{B}\U{C}\U{A0}\U{1680}\U{2028}\U{2029}\U{202F}\U{205F}\U{3000}\U{FEFF}"
    || '\U{2000}' <= c <= '\U{200A}'
  }

  function DropSpaces(s: string): (r: string)
    ensures |r| <= |s| && (r == "" || !IsSpace(r[0]))
  {
    if s != "" && IsSpace(s[0]) then DropSpaces(s[1..]) else s
  }

  /** `replace(/\s+/g, ' ')`. */
  function Collapse(s: string): string
    decreases |s|
  {
    if s == "" then ""
    else if IsSpace(s[0]) then " " + Collapse(DropSpaces(s[1..]))
    else [s[0]] + Collapse(s[1..])
  }

  function Normalize(s: string): string {
    var t := Collapse(s);
    var u := if t != "" && IsSpace(t[0]) then t[1..] else t;
    if u != "" && IsSpace(u[|u| - 1]) then u[..|u| - 1] else u
  }

  /** White space of any length and kind becomes one blank; together with the next lemma this says all. */
  lemma {:induction false} CollapseBlanks(w: string, rest: string)
    requires w != "" && (forall i :: 0 <= i < |w| ==> IsSpace(w[i])) && (rest != "" ==> !IsSpace(rest[0]))
    ensures Collapse(w + rest) == " " + Collapse(rest)
    decreases |w|
  {
    DropBlanks(w[1..], rest);
    assert (w + rest)[1..] == w[1..] + rest;
  }

  lemma {:induction false} DropBlanks(w: string, rest: string)
    requires (forall i :: 0 <= i < |w| ==> IsSpace(w[i])) && (rest != "" ==> !IsSpace(rest[0]))
    ensures DropSpaces(w + rest) == rest
    decreases |w|
  {
    if w == "" {
      assert w + rest == rest;
    } else {
      assert (w + rest)[1..] == w[1..] + rest;
      DropBlanks(w[1..], rest);
    }
  }

  lemma {:induction false} CollapsePiece(p: string, rest: string)
    requires forall i :: 0 <= i < |p| ==> !IsSpace(p[i])
    ensures Collapse(p + rest) == p + Collapse(rest)
    decreases |p|
  {
    if p == "" {
      assert p + rest == rest;
    } else {
      assert (p + rest)[1..] == p[1..] + rest;
      CollapsePiece(p[1..], rest);
    }
  }

  /** White space is single blanks, and none at either end. */
  predicate Clean(s: string) {
    forall i :: 0 <= i < |s| && IsSpace(s[i]) ==> s[i] == ' ' && 0 < i < |s| - 1 && !IsSpace(s[i + 1])
  }

  predicate SingleBlanks(s: string) {
    forall i :: 0 <= i < |s| && IsSpace(s[i]) ==> s[i] == ' ' && (i + 1 < |s| ==> !IsSpace(s[i + 1]))
  }

  lemma {:induction false} CollapseSingle(s: string)
    ensures SingleBlanks(Collapse(s))
    ensures Collapse(s) != "" ==> s != "" && (IsSpace(Collapse(s)[0]) <==> IsSpace(s[0]))
    decreases |s|
  {
    if s != "" {
      CollapseSingle(if IsSpace(s[0]) then DropSpaces(s[1..]) else s[1..]);
    }
  }

  lemma NormalizeCleans(s: string)
    ensures Clean(Normalize(s))
  {
    hide Collapse, IsSpace;
    CollapseSingle(s);
    var t := Collapse(s);
    var u := if t != "" && IsSpace(t[0]) then t[1..] else t;
    assert SingleBlanks(u) && (u != "" ==> !IsSpace(u[0])) by {
      assert t != "" && IsSpace(t[0]) && |t| > 1 ==> !IsSpace(t[1]);
    }
  }

  // ---------------------------------------------------------------- readable formats

  predicate AlphaNumeric(c: char) { IsDigit(c) || 'a' <= c <= 'z' || 'A' <= c <= 'Z' }

  predicate SpaceAt(items: seq<Item>, i: int) {
    0 <= i < |items| && items[i] == Literal(' ')
  }

  predicate TokenAt(items: seq<Item>, i: int) {
    0 <= i < |items| && items[i].Token?
  }

  predicate Touched(items: seq<Item>, i: int) {
    TokenAt(items, i - 1) || TokenAt(items, i + 1)
  }

  /** Literals that a pattern can match as themselves. */
  predicate NoLetters(items: seq<Item>) {
    forall i :: 0 <= i < |items| && items[i].Literal? ==> !AlphaNumeric(items[i].c)
  }

  /** White space in a format is single blanks inside it only. */
  ghost predicate PlainBlanks(items: seq<Item>) {
    && (forall i :: 0 <= i < |items| && items[i].Literal? && IsSpace(items[i].c) ==> items[i].c == ' ')
    && (forall i :: SpaceAt(items, i) ==> 0 < i < |items| - 1 && !SpaceAt(items, i + 1))
  }

  ghost predicate PlainLiterals(items: seq<Item>) { NoLetters(items) && PlainBlanks(items) }

  /** Tokens that touch each other are written in full width. */
  ghost predicate WideRuns(items: seq<Item>) {
    forall i :: TokenAt(items, i) && Touched(items, i) ==> items[i].wide
  }

  /** What the printed text can be read back from, whatever the date. */
  ghost predicate Readable(items: seq<Item>) { PlainLiterals(items) && WideRuns(items) }

  predicate YearFits(items: seq<Item>, d: DateTime) {
    d.year <= 9999 || Token(Year, true) !in items
  }

  lemma PieceLength(i: Item, d: DateTime)
    requires Printable(d) && i.Token?
    ensures AllDigits(Piece(i, d)) && Length(i) <= |Piece(i, d)|
    ensures i.field != Year ==> |Piece(i, d)| <= 2
    ensures i.field == Year ==> |Piece(i, d)| <= 6 && (|Piece(i, d)| <= 4 <==> d.year <= 9999)
  {
    hide Decimal;
    MonthNonEmpty(d.year, d.month);
    DecimalLength(FieldOf(d, i.field), 2);
    DecimalLength(FieldOf(d, i.field), 4);
    DecimalLength(FieldOf(d, i.field), 6);
    assert Pow10(6) == 1000000 && Pow10(4) == 10000 && Pow10(2) == 100 by {
      assert Pow10(2) == 10 * Pow10(1) && Pow10(3) == 10 * Pow10(2) && Pow10(5) == 10 * Pow10(4);
    }
  }

  /** A piece printed in full width, or apart from other tokens, has an allowed length when the year fits. */
  lemma PieceFits(items: seq<Item>, d: DateTime, i: nat)
    requires WideRuns(items) && Printable(d) && YearFits(items, d) && i < |items|
    ensures LengthFits(ExpAt(items, i), Piece(items[i], d))
  {
    hide Piece;
    if items[i].Token? {
      PieceLength(items[i], d);
      assert items[i] in items && TokenAt(items, i);
      assert Touched(items, i) ==> items[i].wide;
    }
  }

  lemma LiteralPiece(i: Item, d: DateTime)
    requires Printable(d) && i.Literal?
    ensures Piece(i, d) == [i.c]
  {}

  lemma NoSpaceInDigits(p: string)
    requires AllDigits(p)
    ensures forall i :: 0 <= i < |p| ==> !IsSpace(p[i])
  {}

  lemma BlankIsSpace()
    ensures IsSpace(' ')
  {}

  lemma {:induction false} CollapseText(items: seq<Item>, d: DateTime, k: nat)
    requires PlainLiterals(items) && Printable(d) && k <= |items|
    ensures var text := Join(Pieces(items, d)[k..]);
            Collapse(text) == text && (k < |items| ==> text != "" && (IsSpace(text[0]) <==> SpaceAt(items, k)))
    decreases |items| - k
  {
    hide IsSpace, Piece;
    BlankIsSpace();
    var ps := Pieces(items, d);
    if k < |items| {
      var p, rest := Piece(items[k], d), Join(ps[k + 1..]);
      assert ps[k..][1..] == ps[k + 1..];
      assert Join(ps[k..]) == p + rest;
      CollapseText(items, d, k + 1);
      if items[k].Token? {
        PieceLength(items[k], d);
        NoSpaceInDigits(p);
        CollapsePiece(p, rest);
      } else {
        LiteralPiece(items[k], d);
        assert (p + rest)[1..] == rest;
        if SpaceAt(items, k) {
          assert !SpaceAt(items, k + 1);
          assert DropSpaces(rest) == rest;
          assert p + rest == " " + rest;
        } else {
          CollapsePiece(p, rest);
        }
      }
    }
  }

  lemma {:induction false} LastOfJoin(ps: seq<string>)
    requires ps != [] && ps[|ps| - 1] != ""
    ensures var last := ps[|ps| - 1]; Join(ps) != "" && Join(ps)[|Join(ps)| - 1] == last[|last| - 1]
    decreases |ps|
  {
    if |ps| > 1 { LastOfJoin(ps[1..]); } else { assert Join(ps[1..]) == ""; }
  }

  /** The shown text has nothing for the white-space clean-up to change. */
  lemma NormalizeKeeps(items: seq<Item>, d: DateTime)
    requires PlainLiterals(items) && Printable(d)
    ensures Normalize(Join(Pieces(items, d))) == Join(Pieces(items, d))
  {
    hide Piece, IsSpace, Collapse;
    var ps := Pieces(items, d);
    assert ps[0..] == ps;
    CollapseText(items, d, 0);
    if items != [] {
      var last := items[|items| - 1];
      assert !SpaceAt(items, 0) && !SpaceAt(items, |items| - 1);
      if last.Token? {
        PieceLength(last, d);
        NoSpaceInDigits(ps[|ps| - 1]);
      } else {
        LiteralPiece(last, d);
      }
      LastOfJoin(ps);
    }
  }

  // ---------------------------------------------------------------- printed text and its pattern

  lemma DigitsAreTokens(items: seq<Item>, i: nat)
    requires i < |items|
    ensures ExpAt(items, i).Digits? <==> TokenAt(items, i)
  {}

  /** Every token after another token gets a fixed length. */
  lemma PatternRegular(items: seq<Item>)
    requires NoLetters(items)
    ensures Regular(Pattern(items))
  {
    var exps := Pattern(items);
    forall i | 0 < i < |exps| && exps[i - 1].Digits? && exps[i].Digits? ensures exps[i].lo == exps[i].hi {
      DigitsAreTokens(items, i - 1);
      DigitsAreTokens(items, i);
    }
    forall i | 0 <= i < |exps| && exps[i].Exactly? ensures !IsDigit(exps[i].c) {
      assert items[i].Literal?;
    }
  }

  lemma PrintedKinds(items: seq<Item>, d: DateTime)
    requires Printable(d)
    ensures Kinds(Pattern(items), Pieces(items, d))
  {
    hide Piece;
    forall i | 0 <= i < |items| ensures KindFits(Pattern(items)[i], Pieces(items, d)[i]) {
      if items[i].Token? { PieceLength(items[i], d); } else { LiteralPiece(items[i], d); }
    }
  }

  function Text(items: seq<Item>, d: DateTime): string
    requires Printable(d)
  {
    Join(Pieces(items, d))
  }

  /** Every printed piece has a length that its group allows. */
  predicate PiecesFit(items: seq<Item>, d: DateTime)
    requires Printable(d)
  {
    Lengths(Pattern(items), Pieces(items, d))
  }

  /** For every row of touching tokens, the digits that the tokens after the first leave fit the first. */
  predicate RowsFit(items: seq<Item>, d: DateTime)
    requires Printable(d)
  {
    RunsFit(Pattern(items), Pieces(items, d))
  }

  /**
   Any format without letters or digits between its tokens, any date: the printed text is accepted exactly when
   the white space of the format is single inner blanks and its rows of tokens fit.
   */
  lemma AcceptedExactly(items: seq<Item>, d: DateTime)
    requires NoLetters(items) && Printable(d)
    ensures Match(Pattern(items), Normalize(Text(items, d))).Some? <==> PlainBlanks(items) && RowsFit(items, d)
  {
    hide Normalize, Match, Pattern, Join, Pieces, RunsFit;
    if PlainBlanks(items) {
      NormalizeKeeps(items, d);
      PatternRegular(items);
      PrintedKinds(items, d);
      MatchAccepts(Pattern(items), Pieces(items, d));
    } else if Match(Pattern(items), Normalize(Text(items, d))).Some? {
      MatchNeedsPlainBlanks(items, Text(items, d));
    }
  }

  /**
   For the same formats: the groups are the printed fields exactly when, besides, every single piece has an
   allowed length. Where the rows fit and a piece does not, other numbers are read without any complaint.
   */
  lemma ReadBackIff(items: seq<Item>, d: DateTime)
    requires NoLetters(items) && Printable(d)
    ensures Match(Pattern(items), Normalize(Text(items, d))) == Some(Pieces(items, d))
            <==> PlainBlanks(items) && PiecesFit(items, d)
  {
    hide Normalize, Match, Pattern, Join, Pieces, Lengths;
    if PlainBlanks(items) {
      NormalizeKeeps(items, d);
      PatternRegular(items);
      PrintedKinds(items, d);
      MatchJoined(Pattern(items), Pieces(items, d));
    } else if Match(Pattern(items), Normalize(Text(items, d))).Some? {
      MatchNeedsPlainBlanks(items, Text(items, d));
    }
  }

  /** Text printed in a readable format is accepted, and its groups are exactly the printed fields. */
  lemma PrintedIsMatched(items: seq<Item>, d: DateTime)
    requires Readable(items) && Printable(d) && YearFits(items, d)
    ensures Match(Pattern(items), Normalize(Text(items, d))) == Some(Pieces(items, d))
  {
    hide Normalize, Match, Join, Piece, ExpAt;
    forall i | 0 <= i < |items| ensures LengthFits(Pattern(items)[i], Pieces(items, d)[i]) {
      PieceFits(items, d, i);
    }
    ReadBackIff(items, d);
  }

  lemma AloneInText(s: string, a: string, c: char, b: string)
    requires Clean(s) && s == a + [c] + b && IsSpace(c)
    ensures c == ' ' && a != "" && b != "" && !IsSpace(b[0])
  {
    hide IsSpace;
    assert s[|a|] == c;
    assert b != "" ==> s[|a| + 1] == b[0];
  }

  /** A cleaned text can only match a format whose own white space is clean, whatever the format is. */
  lemma MatchNeedsPlainBlanks(items: seq<Item>, text: string)
    requires Match(Pattern(items), Normalize(text)).Some?
    ensures PlainBlanks(items)
  {
    hide Normalize, Match, Join, IsSpace;
    var s := Normalize(text);
    var r := Match(Pattern(items), s).value;
    NormalizeCleans(text);
    MatchSound(Pattern(items), s);
    forall i | 0 <= i < |items| && items[i].Literal? && IsSpace(items[i].c)
      ensures items[i].c == ' ' && 0 < i < |items| - 1 && !SpaceAt(items, i + 1)
    {
      assert Matches(Pattern(items)[i], r[i]);
      JoinAround(r, i);
      AloneInText(s, Join(r[..i]), items[i].c, Join(r[i + 1..]));
      JoinNothing(r[..i]);
      JoinNothing(r[i + 1..]);
      if SpaceAt(items, i + 1) {
        assert Matches(Pattern(items)[i + 1], r[i + 1]);
        JoinFirst(r[i + 1..]);
        BlankIsSpace();
      }
    }
    BlankIsSpace();
  }

  // ---------------------------------------------------------------- rows of wide tokens

  predicate TooLong(items: seq<Item>, d: DateTime, m: int) {
    0 <= m < |items| && items[m] == Token(Year, true) && d.year > 9999
  }

  /** Behind another token a wide one prints at least its fixed length, and more only for a long year. */
  lemma {:induction false} WideTail(items: seq<Item>, d: DateTime, j: nat)
    requires WideRuns(items) && Printable(d) && 0 < j <= |items| && TokenAt(items, j - 1)
    ensures var exps, ps := Pattern(items), Pieces(items, d);
            var w, f, k := Width(exps[j..], ps[j..]), Fixed(exps[j..]), RunEnd(exps[j..]);
            && w >= f && (YearFits(items, d) ==> w == f)
            && (forall m :: j <= m < j + k && TooLong(items, d, m) ==> w > f)
    decreases |items| - j
  {
    var exps, ps := Pattern(items), Pieces(items, d);
    if TokenAt(items, j) {
      assert TokenAt(items, j - 1) && Touched(items, j) && items[j].wide;
      assert exps[j..][0] == ExpAt(items, j) == Digits(Length(items[j]), Length(items[j]));
      assert exps[j..][1..] == exps[j + 1..] && ps[j..][1..] == ps[j + 1..] && ps[j..][0] == Piece(items[j], d);
      hide Piece, ExpAt, Pattern, Pieces;
      PieceLength(items[j], d);
      WideTail(items, d, j + 1);
      assert items[j] in items;
    }
  }

  /** The first token of a row and the others. */
  lemma RowBegins(items: seq<Item>, d: DateTime, i: nat)
    requires Printable(d) && RunStart(Pattern(items), i)
    ensures var exps, ps := Pattern(items), Pieces(items, d);
            var e := ExpAt(items, i);
            var n := |Piece(items[i], d)| + Width(exps[i + 1..], ps[i + 1..]) - Fixed(exps[i + 1..]);
            && items[i].Token? && e.Digits? && RunEnd(exps[i..]) == 1 + RunEnd(exps[i + 1..])
            && (RunFits(exps[i..], ps[i..]) <==> e.lo <= n <= e.hi)
  {
    hide Piece;
    var exps, ps := Pattern(items), Pieces(items, d);
    DigitsAreTokens(items, i);
    assert exps[i..][1..] == exps[i + 1..] && ps[i..][1..] == ps[i + 1..];
    RunEndStep(exps[i..]);
  }

  /** A wide token prints at least as much as its group allows at most, and more for a long year. */
  lemma WideFirst(items: seq<Item>, d: DateTime, i: nat)
    requires Printable(d) && i < |items| && items[i].Token? && items[i].wide
    ensures var e, p := ExpAt(items, i), Piece(items[i], d);
            e.Digits? && |p| >= e.hi && (TooLong(items, d, i) ==> |p| > e.hi)
  {
    hide Piece;
    PieceLength(items[i], d);
  }

  /** One row of wide tokens. */
  lemma WideRow(items: seq<Item>, d: DateTime, i: nat)
    requires WideRuns(items) && Printable(d) && i < |items| && RunStart(Pattern(items), i)
    ensures var exps, ps := Pattern(items), Pieces(items, d);
            && (YearFits(items, d) ==> RunFits(exps[i..], ps[i..]))
            && (forall m :: i <= m < i + RunEnd(exps[i..]) && TooLong(items, d, m) ==> !RunFits(exps[i..], ps[i..]))
  {
    var exps, ps := Pattern(items), Pieces(items, d);
    RowBegins(items, d, i);
    WideTail(items, d, i + 1);
    if YearFits(items, d) { PieceFits(items, d, i); }
    WideWhenTouched(items, i);
    hide Piece, ExpAt, Pattern, Pieces, RunFits, Width, Fixed, RunEnd, WideRuns, YearFits, RunStart;
    forall m | i <= m < i + RunEnd(exps[i..]) && TooLong(items, d, m) ensures !RunFits(exps[i..], ps[i..]) {
      WideFirst(items, d, i);
    }
  }

  lemma WideWhenTouched(items: seq<Item>, i: nat)
    requires WideRuns(items) && i < |items| && items[i].Token?
    ensures RunEnd(Pattern(items)[i + 1..]) > 0 ==> items[i].wide
  {
    var exps := Pattern(items);
    if RunEnd(exps[i + 1..]) > 0 {
      assert exps[i + 1..][0] == exps[i + 1];
      DigitsAreTokens(items, i + 1);
      assert TokenAt(items, i) && Touched(items, i);
    }
  }

  /** The row that a digit group belongs to. */
  lemma {:induction false} RowOf(exps: seq<Exp>, m: nat) returns (i: nat)
    requires m < |exps| && exps[m].Digits?
    ensures RunStart(exps, i) && i <= m < i + RunEnd(exps[i..])
    decreases m
  {
    if m == 0 || exps[m - 1].Exactly? {
      i := m;
      RunEndStep(exps[m..]);
    } else {
      i := RowOf(exps, m - 1);
      RunEnds(exps[i..]);
      if m == i + RunEnd(exps[i..]) {
        assert exps[i..][m - i] == exps[m];
      }
    }
  }

  /**
   In a format that writes touching tokens in full width, the printed text is accepted exactly when no
   four-digit year overflows and the white space of the format is single inner blanks.
   */
  lemma AcceptedIff(items: seq<Item>, d: DateTime)
    requires NoLetters(items) && WideRuns(items) && Printable(d)
    ensures Match(Pattern(items), Normalize(Text(items, d))).Some? <==> YearFits(items, d) && PlainBlanks(items)
  {
    var exps, ps := Pattern(items), Pieces(items, d);
    hide Normalize, Match, Join, Piece, RunFits, WideRuns, NoLetters, PlainBlanks;
    AcceptedExactly(items, d);
    if YearFits(items, d) {
      forall i | 0 <= i < |items| ensures RunFitsAt(exps, ps, i) {
        if RunStart(exps, i) { WideRow(items, d, i); }
      }
    } else {
      var m :| 0 <= m < |items| && items[m] == Token(Year, true);
      DigitsAreTokens(items, m);
      var i := RowOf(exps, m);
      WideRow(items, d, i);
      assert TooLong(items, d, m) && !RunFitsAt(exps, ps, i);
    }
  }

  /** In the format `-Md` the text of 23 January is accepted, and read as 3 December. */
  lemma NarrowMisread(base: DateTime, d: DateTime)
    requires Printable(d) && d.month == 0 && d.date == 23
    ensures var items := [Literal('-'), Token(Month, false), Token(Date, false)];
            && Normalize(Text(items, d)) == "-123" && Match(Pattern(items), "-123") == Some(["-", "12", "3"])
            && ReadGroups(base, items, "-123") == base.(month := 11, date := 3)
  {
    var items, groups := [Literal('-'), Token(Month, false), Token(Date, false)], ["-", "12", "3"];
    hide Match, Pattern, Normalize, Join, Pieces, ReadAll, Readables, Printable, FieldOf;
    NarrowText(d);
    NarrowMatch();
    MatchedValues(items, "-123");
    ReadNarrow(base, items, groups);
  }

  lemma ReadNarrow(base: DateTime, items: seq<Item>, groups: seq<string>)
    requires items == [Literal('-'), Token(Month, false), Token(Date, false)] && groups == ["-", "12", "3"]
    requires Readables(items, groups)
    ensures ReadAll(base, items, groups) == base.(month := 11, date := 3)
  {
    assert DigitValue('1') == 1 && DigitValue('2') == 2 && DigitValue('3') == 3;
    TwoDigitValue("12");
    assert Value("3") == 10 * Value("3"[..0]) + DigitValue('3');
    hide Value, DigitValue;
    assert ReadAll(base, items[..0], groups[..0]) == base;
    assert items[..2][..1] == items[..1] && groups[..2][..1] == groups[..1];
    assert ReadAll(base, items[..1], groups[..1]) == base;
    assert ReadAll(base, items[..2], groups[..2]) == base.(month := 11);
  }

  lemma NarrowText(d: DateTime)
    requires Printable(d) && d.month == 0 && d.date == 23
    ensures Normalize(Text([Literal('-'), Token(Month, false), Token(Date, false)], d)) == "-123"
  {
    var items := [Literal('-'), Token(Month, false), Token(Date, false)];
    hide Piece, Decimal, Printable;
    NarrowPiece(Month, d);
    NarrowPiece(Date, d);
    LiteralPiece(items[0], d);
    SmallDecimals();
    assert Pieces(items, d) == ["-", "1", "23"];
    ThreePieces("-", "1", "23");
    assert "-" + "1" + "23" == "-123";
    hide Pieces, Join, Normalize;
    NormalizePlain("-123");
  }

  lemma NarrowPiece(f: Field, d: DateTime)
    requires Printable(d) && f != Year
    ensures Piece(Token(f, false), d) == Decimal(FieldOf(d, f))
  {
    hide Decimal;
  }

  lemma SmallDecimals()
    ensures Decimal(1) == "1" && Decimal(23) == "23"
  {
    assert DigitChar(1) == '1' && DigitChar(2) == '2' && DigitChar(3) == '3';
    hide DigitChar;
    assert Decimal(2) == [DigitChar(2)] && Decimal(23) == Decimal(2) + [DigitChar(3)];
  }

  lemma NarrowMatch()
    ensures Match(Pattern([Literal('-'), Token(Month, false), Token(Date, false)]), "-123") == Some(["-", "12", "3"])
  {
    var items, groups := [Literal('-'), Token(Month, false), Token(Date, false)], ["-", "12", "3"];
    ThreePieces("-", "12", "3");
    assert Pattern(items) == [Exactly('-'), Digits(1, 2), Digits(1, 1)];
    assert Kinds(Pattern(items), groups) && Lengths(Pattern(items), groups) && Regular(Pattern(items));
    hide *;
    MatchJoined(Pattern(items), groups);
    assert "-" + "12" + "3" == "-123";
  }

  lemma ThreePieces(a: string, b: string, c: string)
    ensures Join([a, b, c]) == a + b + c
  {
    assert [a, b, c][1..] == [b, c] && [b, c][1..] == [c] && Join([c]) == c;
  }

  lemma NormalizePlain(p: string)
    requires forall i :: 0 <= i < |p| ==> !IsSpace(p[i])
    ensures Normalize(p) == p
  {
    CollapsePiece(p, "");
    assert p + "" == p;
  }

  /** The year 10000 is refused in the format `yyyy`, although the picker offers it. */
  lemma LongYearRefused()
    ensures var d := DateTime(10000, 0, 1, 0, 0, 0);
            Printable(d) && Match(Pattern(Items("yyyy")), Normalize(Join(Pieces(Items("yyyy"), d)))) == None
  {
    var d := DateTime(10000, 0, 1, 0, 0, 0);
    assert "yyyy"[4..] == "" && StartsWith("yyyy", "yyyy");
    assert Items("yyyy") == [Token(Year, true)];
    hide Normalize, Match, Pattern, Join, Pieces, Items;
    AcceptedIff([Token(Year, true)], d);
  }

  /** With a wide blank between year and month no date that the picker shows is accepted. */
  lemma WideBlankRefused(d: DateTime)
    requires Printable(d)
    ensures var items := [Token(Year, true), Literal('\U{3000}'), Token(Month, true)];
            Match(Pattern(items), Normalize(Text(items, d))) == None
  {
    var items := [Token(Year, true), Literal('\U{3000}'), Token(Month, true)];
    assert items[1].Literal? && IsSpace(items[1].c) && !PlainBlanks(items);
    assert NoLetters(items);
    hide *;
    AcceptedExactly(items, d);
  }

  // ---------------------------------------------------------------- reading

  function Assign(d: DateTime, f: Field, v: int): DateTime {
    match f
    case Year => d.(year := if v < MIN_YEAR then MIN_YEAR else v)
    case Month => d.(month := (if v < 1 then 1 else v) - 1)
    case Date => d.(date := if v < 1 then 1 else v)
    case Hours => d.(hours := if v < 1 then 0 else v)
    case Minutes => d.(minutes := if v < 1 then 0 else v)
    case Seconds => d.(seconds := if v < 1 then 0 else v)
  }

  function ReadItem(d: DateTime, i: Item, value: string): DateTime
    requires i.Token? ==> AllDigits(value)
  {
    if i.Token? then Assign(d, i.field, Value(value)) else d
  }

  /** The number read goes into its field, months counted from 0; what is too small becomes the least value. */
  lemma AssignMeans(d: DateTime, v: nat)
    ensures Assign(d, Year, v) == d.(year := if v < 100 then 100 else v)
    ensures Assign(d, Month, v) == d.(month := if v < 1 then 0 else v - 1)
    ensures Assign(d, Date, v) == d.(date := if v < 1 then 1 else v)
    ensures Assign(d, Hours, v) == d.(hours := v)
    ensures Assign(d, Minutes, v) == d.(minutes := v)
    ensures Assign(d, Seconds, v) == d.(seconds := v)
  {}

  predicate Readables(items: seq<Item>, values: seq<string>) {
    |items| == |values| && forall k :: 0 <= k < |items| && items[k].Token? ==> AllDigits(values[k])
  }

  function ReadAll(d: DateTime, items: seq<Item>, values: seq<string>): DateTime
    requires Readables(items, values)
  {
    if items == [] then d
    else
      var n := |items| - 1;
      ReadItem(ReadAll(d, items[..n], values[..n]), items[n], values[n])
  }

  /** `initDate`: every matched group into its field, then the clamps. */
  method InitDate(base: DateTime, items: seq<Item>, values: seq<string>, now: Ymd) returns (d: DateTime)
    requires Readables(items, values)
    ensures d == Checked(ReadAll(base, items, values), now)
  {
    hide Checked, ReadItem;
    d := base;
    for i := 0 to |items|
      invariant d == ReadAll(base, items[..i], values[..i])
    {
      assert items[..i + 1][..i] == items[..i] && values[..i + 1][..i] == values[..i];
      d := ReadItem(d, items[i], values[i]);
    }
    assert items[..|items|] == items && values[..|items|] == values;
    var p := new Picker(d, now);
    p.CheckValid();
    d := p.dateTime;
  }

  predicate Prints(items: seq<Item>, f: Field) {
    exists i :: 0 <= i < |items| && items[i].Token? && items[i].field == f
  }

  /** The printed fields of d, and the other fields of the base. */
  function Overlay(base: DateTime, items: seq<Item>, d: DateTime): DateTime {
    DateTime(if Prints(items, Year) then d.year else base.year,
             if Prints(items, Month) then d.month else base.month,
             if Prints(items, Date) then d.date else base.date,
             if Prints(items, Hours) then d.hours else base.hours,
             if Prints(items, Minutes) then d.minutes else base.minutes,
             if Prints(items, Seconds) then d.seconds else base.seconds)
  }

  lemma PiecesRead(items: seq<Item>, d: DateTime)
    requires Printable(d)
    ensures Readables(items, Pieces(items, d))
  {
    hide Piece;
    forall k | 0 <= k < |items| && items[k].Token? ensures AllDigits(Pieces(items, d)[k]) {
      PieceLength(items[k], d);
    }
  }

  lemma ReadPiece(b: DateTime, i: Item, d: DateTime)
    requires Printable(d) && (i.Token? ==> AllDigits(Piece(i, d)))
    ensures ReadItem(b, i, Piece(i, d)) == if i.Token? then Assign(b, i.field, FieldOf(d, i.field)) else b
  {
    if i.Token? {
      hide Pad, Decimal;
      PadRoundTrip(FieldOf(d, i.field), Length(i));
    }
  }

  lemma {:induction false} ReadPrinted(base: DateTime, items: seq<Item>, d: DateTime)
    requires Printable(d) && Readables(items, Pieces(items, d))
    ensures ReadAll(base, items, Pieces(items, d)) == Overlay(base, items, d)
    decreases |items|
  {
    if items != [] {
      hide Piece, ReadItem, Overlay, Prints;
      var n := |items| - 1;
      assert Pieces(items, d)[..n] == Pieces(items[..n], d);
      ReadPrinted(base, items[..n], d);
      ReadPiece(Overlay(base, items[..n], d), items[n], d);
      OverlayMore(base, items, d);
    } else {
      assert forall f :: !Prints(items, f);
    }
  }

  lemma PrintsMore(items: seq<Item>, f: Field)
    requires items != []
    ensures var n := |items| - 1;
            Prints(items, f) <==> Prints(items[..n], f) || (items[n].Token? && items[n].field == f)
  {
    var n := |items| - 1;
    if Prints(items[..n], f) {
      var i :| 0 <= i < n && items[..n][i].Token? && items[..n][i].field == f;
      assert items[i] == items[..n][i];
    }
    if Prints(items, f) {
      var i :| 0 <= i < |items| && items[i].Token? && items[i].field == f;
      assert i < n ==> items[..n][i] == items[i];
    }
  }

  lemma OverlayMore(base: DateTime, items: seq<Item>, d: DateTime)
    requires Printable(d) && items != []
    ensures var n := |items| - 1;
            Overlay(base, items, d)
            == if items[n].Token? then Assign(Overlay(base, items[..n], d), items[n].field, FieldOf(d, items[n].field))
               else Overlay(base, items[..n], d)
  {
    hide Prints;
    PrintsMore(items, Year);
    PrintsMore(items, Month);
    PrintsMore(items, Date);
    PrintsMore(items, Hours);
    PrintsMore(items, Minutes);
    PrintsMore(items, Seconds);
  }

  /**
   Reading printed text back restores every printed field; only a day that the year and month it
   lands in do not have is cut, so all printed fields return exactly when the day exists there.
   */
  lemma RoundTrip(base: DateTime, items: seq<Item>, d: DateTime, now: Ymd)
    requires Printable(d) && InRange(base) && TimeInRange(base) && Readables(items, Pieces(items, d))
    ensures var o := Overlay(base, items, d);
            var r := Checked(ReadAll(base, items, Pieces(items, d)), now);
            && r == o.(date := Clamp(1, o.date, MonthLength(o.year, o.month)))
            && ((forall f :: Prints(items, f) ==> FieldOf(r, f) == FieldOf(d, f))
                <==> (Prints(items, Date) ==> d.date <= MonthLength(o.year, o.month)))
  {
    hide GetEndDate, MonthLength, Prints, ReadAll, Pieces;
    var o := Overlay(base, items, d);
    ReadPrinted(base, items, d);
    EndDateIsMonthLength(o.month + 1, o.year, now);
    assert 1 <= o.date && MIN_YEAR <= o.year <= MAX_YEAR && 0 <= o.month < 12;
    MonthNonEmpty(o.year, o.month);
    var r := Checked(o, now);
    assert r == o.(date := Clamp(1, o.date, MonthLength(o.year, o.month)));
    assert forall f :: f != Date && Prints(items, f) ==> FieldOf(r, f) == FieldOf(d, f);
    assert FieldOf(r, Date) == r.date && FieldOf(d, Date) == d.date;
  }

  lemma MatchedValues(items: seq<Item>, text: string)
    requires Match(Pattern(items), text).Some?
    ensures Readables(items, Match(Pattern(items), text).value)
  {
    MatchSound(Pattern(items), text);
    forall k | 0 <= k < |items| && items[k].Token? ensures AllDigits(Match(Pattern(items), text).value[k]) {
      assert Matches(Pattern(items)[k], Match(Pattern(items), text).value[k]);
    }
  }

  /** The fields of a matching text written over the base. */
  function ReadGroups(base: DateTime, items: seq<Item>, text: string): DateTime
    requires Match(Pattern(items), text).Some?
  {
    MatchedValues(items, text);
    ReadAll(base, items, Match(Pattern(items), text).value)
  }

  /**
   What becomes of a text: read into the base when it matches, otherwise the base with the clamps applied;
   a blank text selects the current date-time `system`.
   */
  function Read(base: DateTime, items: seq<Item>, text: string, now: Ymd, system: DateTime): DateTime {
    var m := Match(Pattern(items), Normalize(text));
    if Normalize(text) == "" then system
    else if m.Some? then Checked(Checked(ReadGroups(base, items, Normalize(text)), now), now)
    else Checked(base, now)
  }

  /** `checkDate` for a text in a single-date picker; a refused text makes the picker show a hint. */
  method CheckDate(base: DateTime, items: seq<Item>, text: string, now: Ymd, system: DateTime)
    returns (d: DateTime, refused: bool)
    ensures d == Read(base, items, text, now, system)
    ensures Normalize(text) != "" && Match(Pattern(items), Normalize(text)).None? <==> refused
  {
    hide Match, Checked, ReadAll, Normalize;
    d, refused := base, false;
    var value := Normalize(text);
    if value == "" {
      d := system;
    } else {
      var groups := Match(Pattern(items), value);
      if groups.Some? {
        MatchedValues(items, value);
        d := InitDate(base, items, groups.value, now);
      } else {
        refused := true;
      }
      var p := new Picker(d, now);
      p.CheckValid();
      d := p.dateTime;
    }
  }

  /**
   Showing a date-time and reading the text back: the printed fields replace those of the base, and
   only a day that its new month does not have is cut.
   */
  lemma ShowThenRead(base: DateTime, items: seq<Item>, d: DateTime, now: Ymd, system: DateTime)
    requires Readable(items) && Printable(d) && YearFits(items, d) && InRange(base) && TimeInRange(base)
    ensures var o := Overlay(base, items, d);
            Read(base, items, Join(Pieces(items, d)), now, system)
            == if items == [] then system else o.(date := Clamp(1, o.date, MonthLength(o.year, o.month)))
  {
    PrintedNotBlank(items, d);
    hide Match, Pattern, Normalize, Join, Pieces, ReadAll, Overlay, Checked, Readable, YearFits;
    PrintedIsMatched(items, d);
    PiecesRead(items, d);
    RoundTrip(base, items, d, now);
    OverlayInRange(base, items, d);
    CheckedAgain(Overlay(base, items, d), now);
  }

  lemma PrintedNotBlank(items: seq<Item>, d: DateTime)
    requires PlainLiterals(items) && Printable(d)
    ensures Normalize(Join(Pieces(items, d))) == "" <==> items == []
  {
    NormalizeKeeps(items, d);
    CollapseText(items, d, 0);
    assert Pieces(items, d)[0..] == Pieces(items, d);
    hide Piece, Normalize, Collapse;
  }

  /** A refused text leaves a valid date-time as it was; a blank one brings the current date-time. */
  lemma RefusedRead(base: DateTime, items: seq<Item>, text: string, now: Ymd, system: DateTime)
    requires InRange(base) && TimeInRange(base)
    ensures Normalize(text) != "" && Match(Pattern(items), Normalize(text)).None? ==>
              Read(base, items, text, now, system) == base
    ensures (forall i :: 0 <= i < |text| ==> IsSpace(text[i])) ==> Read(base, items, text, now, system) == system
  {
    hide Match, Pattern, InRange;
    MonthNonEmpty(base.year, base.month);
    CheckedKeeps(base, now);
    if forall i :: 0 <= i < |text| ==> IsSpace(text[i]) {
      if text != "" { CollapseBlanks(text, ""); assert text + "" == text; }
      assert Normalize(text) == "";
    }
  }

  lemma CheckedKeeps(d: DateTime, now: Ymd)
    requires InRange(d) && TimeInRange(d)
    ensures Checked(d, now) == d
  {
    hide MonthLength;
    CheckedMeans(d, now);
  }

  /** The format `yyyy-MM-dd`, and the groups of a text in it. */
  const DAY: seq<Item> := [Token(Year, true), Literal('-'), Token(Month, true), Literal('-'), Token(Date, true)]
  const DAY_GROUPS: seq<string> := ["2020", "-", "1", "-", "5"]

  /** In the format `yyyy-MM-dd` the text 2020-1-5 is accepted and read as 5 January 2020. */
  lemma ShortTyped(base: DateTime, now: Ymd, system: DateTime)
    requires InRange(base) && TimeInRange(base)
    ensures Items("yyyy-MM-dd") == DAY && Match(Pattern(DAY), Normalize("2020-1-5")) == Some(DAY_GROUPS)
    ensures Read(base, DAY, "2020-1-5", now, system) == base.(year := 2020, month := 0, date := 5)
  {
    DayItems();
    DayMatches();
    hide Match, Pattern, Normalize, ReadAll, Readables, Checked, Items;
    MatchedValues(DAY, "2020-1-5");
    ReadDay(base);
    var d := base.(year := 2020, month := 0, date := 5);
    MonthNonEmpty(2020, 0);
    CheckedKeeps(d, now);
  }

  lemma DayItems()
    ensures Items("yyyy-MM-dd") == DAY
  {
    assert Spell(DAY) == "yyyy-MM-dd" by {
      assert DAY[1..] == [Literal('-'), Token(Month, true), Literal('-'), Token(Date, true)];
      assert DAY[1..][1..] == [Token(Month, true), Literal('-'), Token(Date, true)];
      assert DAY[1..][1..][1..] == [Literal('-'), Token(Date, true)];
      assert [Literal('-'), Token(Date, true)][1..] == [Token(Date, true)] && [Token(Date, true)][1..] == [];
      assert Spell([Token(Date, true)]) == "dd" && Spell(DAY[1..][1..][1..]) == "-dd";
      assert Spell(DAY[1..][1..]) == "MM-dd" && Spell(DAY[1..]) == "-MM-dd";
    }
    hide Spell, Items;
    ItemsOfSpelled(DAY);
  }

  lemma DayMatches()
    ensures Normalize("2020-1-5") == "2020-1-5" && Match(Pattern(DAY), "2020-1-5") == Some(DAY_GROUPS)
  {
    hide Match, Normalize, Collapse;
    NormalizePlain("2020-1-5");
    DayJoined();
    assert Pattern(DAY) == [Digits(1, 4), Exactly('-'), Digits(1, 2), Exactly('-'), Digits(1, 2)];
    hide Pattern, Join;
    DayFits(Pattern(DAY));
    MatchJoined(Pattern(DAY), DAY_GROUPS);
  }

  lemma DayJoined()
    ensures Join(DAY_GROUPS) == "2020-1-5"
  {
    assert DAY_GROUPS[1..] == ["-", "1", "-", "5"] && ["-", "1", "-", "5"][1..] == ["1", "-", "5"];
    ThreePieces("1", "-", "5");
    assert Join(["-", "1", "-", "5"]) == "-1-5";
  }

  lemma DayFits(exps: seq<Exp>)
    requires exps == [Digits(1, 4), Exactly('-'), Digits(1, 2), Exactly('-'), Digits(1, 2)]
    ensures Kinds(exps, DAY_GROUPS) && Lengths(exps, DAY_GROUPS) && Regular(exps)
  {}

  lemma DayValues()
    ensures Value("2020") == 2020 && Value("1") == 1 && Value("5") == 5
  {
    assert DigitValue('2') == 2 && DigitValue('0') == 0 && DigitValue('1') == 1 && DigitValue('5') == 5;
    assert Value("") == 0 && "" + "1" == "1" && "" + "5" == "5" && "20" + "2" == "202" && "202" + "0" == "2020";
    hide Value, DigitValue;
    TwoDigitValue("20");
    OneMoreDigit("20", '2');
    OneMoreDigit("202", '0');
    OneMoreDigit("", '1');
    OneMoreDigit("", '5');
  }

  lemma ReadDay(base: DateTime)
    ensures Readables(DAY, DAY_GROUPS)
    ensures ReadAll(base, DAY, DAY_GROUPS) == base.(year := 2020, month := 0, date := 5)
  {
    var v, g := DAY, DAY_GROUPS;
    DayValues();
    assert forall n | 0 < n <= 5 :: v[..n][..n - 1] == v[..n - 1] && g[..n][..n - 1] == g[..n - 1];
    hide Value;
    assert ReadAll(base, v[..0], g[..0]) == base;
    assert ReadAll(base, v[..1], g[..1]) == base.(year := 2020);
    assert ReadAll(base, v[..2], g[..2]) == base.(year := 2020);
    assert ReadAll(base, v[..3], g[..3]) == base.(year := 2020, month := 0);
    assert ReadAll(base, v[..4], g[..4]) == base.(year := 2020, month := 0);
    assert v[..5] == v && g[..5] == g;
  }

  /**
   The fields that are read pass the clamps twice; the time of day is then a time except for the last
   minute of the day with too many seconds.
   */
  lemma ReadTimeIff(base: DateTime, items: seq<Item>, text: string, now: Ymd, system: DateTime)
    requires Normalize(text) != "" && Match(Pattern(items), Normalize(text)).Some?
    requires 0 <= base.hours && 0 <= base.minutes && 0 <= base.seconds
    ensures var d := ReadGroups(base, items, Normalize(text));
            TimeInRange(Read(base, items, text, now, system)) <==> !(d.hours == 23 && d.minutes == 59 && d.seconds > 59)
  {
    hide Match, Pattern, Normalize, Readables, Checked;
    MatchedValues(items, Normalize(text));
    ReadNotNegative(base, items, Match(Pattern(items), Normalize(text)).value);
    CheckedTwiceIff(ReadGroups(base, items, Normalize(text)), now);
  }

  lemma {:induction false} ReadNotNegative(base: DateTime, items: seq<Item>, values: seq<string>)
    requires Readables(items, values) && 0 <= base.hours && 0 <= base.minutes && 0 <= base.seconds
    ensures var d := ReadAll(base, items, values); 0 <= d.hours && 0 <= d.minutes && 0 <= d.seconds
    decreases |items|
  {
    if items != [] {
      var n := |items| - 1;
      ReadNotNegative(base, items[..n], values[..n]);
    }
  }

  /** The format `HH:mm:ss`, and the groups of a text in it. */
  const CLOCK: seq<Item> := [Token(Hours, true), Literal(':'), Token(Minutes, true), Literal(':'), Token(Seconds, true)]
  const CLOCK_GROUPS: seq<string> := ["23", ":", "59", ":", "60"]

  /** Typed in the format `HH:mm:ss`, the time 23:59:60 is accepted and becomes 24:00:00. */
  lemma CarryPassesMidnight(base: DateTime, now: Ymd, system: DateTime)
    ensures var d := Read(base, CLOCK, "23:59:60", now, system); (d.hours, d.minutes, d.seconds) == (24, 0, 0)
  {
    hide Match, Pattern, Normalize, ReadAll, Readables, Checked;
    NormalizePlain("23:59:60");
    ClockMatches();
    MatchedValues(CLOCK, "23:59:60");
    ReadClock(base);
    CheckedTwice(ReadAll(base, CLOCK, CLOCK_GROUPS), now);
  }

  lemma ClockMatches()
    ensures Match(Pattern(CLOCK), "23:59:60") == Some(CLOCK_GROUPS)
  {
    hide Match;
    assert Join(CLOCK_GROUPS) == "23:59:60" by {
      var g := CLOCK_GROUPS;
      assert g[1..] == [":", "59", ":", "60"] && g[1..][1..] == ["59", ":", "60"];
      assert ["59", ":", "60"][1..] == [":", "60"] && [":", "60"][1..] == ["60"] && ["60"][1..] == [];
      assert Join(["60"]) == "60" && Join([":", "60"]) == ":60";
      assert Join(["59", ":", "60"]) == "59:60" && Join([":", "59", ":", "60"]) == ":59:60";
    }
    assert Pattern(CLOCK) == [Digits(1, 2), Exactly(':'), Digits(1, 2), Exactly(':'), Digits(1, 2)];
    assert Kinds(Pattern(CLOCK), CLOCK_GROUPS) && Lengths(Pattern(CLOCK), CLOCK_GROUPS) && Regular(Pattern(CLOCK));
    hide Pattern, Join, Kinds, Lengths, Regular;
    MatchJoined(Pattern(CLOCK), CLOCK_GROUPS);
  }

  lemma ReadClock(base: DateTime)
    ensures Readables(CLOCK, CLOCK_GROUPS)
    ensures ReadAll(base, CLOCK, CLOCK_GROUPS) == base.(hours := 23, minutes := 59, seconds := 60)
  {
    var v, g := CLOCK, CLOCK_GROUPS;
    TwoDigitValue("23");
    TwoDigitValue("59");
    TwoDigitValue("60");
    assert DigitValue('2') == 2 && DigitValue('3') == 3 && DigitValue('5') == 5;
    assert DigitValue('9') == 9 && DigitValue('6') == 6 && DigitValue('0') == 0;
    hide DigitValue;
    assert forall n | 0 < n <= 5 :: v[..n][..n - 1] == v[..n - 1] && g[..n][..n - 1] == g[..n - 1];
    hide Value;
    assert ReadAll(base, v[..0], g[..0]) == base;
    assert ReadAll(base, v[..1], g[..1]) == base.(hours := 23);
    assert ReadAll(base, v[..2], g[..2]) == base.(hours := 23);
    assert ReadAll(base, v[..3], g[..3]) == base.(hours := 23, minutes := 59);
    assert ReadAll(base, v[..4], g[..4]) == base.(hours := 23, minutes := 59);
    assert v[..5] == v && g[..5] == g;
  }

  lemma OverlayInRange(base: DateTime, items: seq<Item>, d: DateTime)
    requires Printable(d) && InRange(base) && TimeInRange(base)
    ensures var o := Overlay(base, items, d);
            MIN_YEAR <= o.year <= MAX_YEAR && 0 <= o.month < 12 && 1 <= o.date && TimeInRange(o)
  {
    hide MonthLength, Prints;
  }

  lemma CheckedAgain(o: DateTime, now: Ymd)
    requires MIN_YEAR <= o.year <= MAX_YEAR && 0 <= o.month < 12 && 1 <= o.date && TimeInRange(o)
    ensures var r := o.(date := Clamp(1, o.date, MonthLength(o.year, o.month))); Checked(r, now) == r
  {
    hide GetEndDate, MonthLength;
    MonthNonEmpty(o.year, o.month);
    EndDateIsMonthLength(o.month + 1, o.year, now);
  }
}
