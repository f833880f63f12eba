/** Colour conversions over exact reals: RGB to HSB and back, and hexadecimal text to HSB and back. */
module Color {

  datatype Rgb = Rgb(r: real, g: real, b: real)
  datatype Hsb = Hsb(h: real, s: real, b: real)
  datatype Bytes = Bytes(r: nat, g: nat, b: nat)

  function Min(x: real, y: real): real { if x <= y then x else y }
  function Max(x: real, y: real): real { if x >= y then x else y }

  predicate Channels(c: Rgb) {
    0.0 <= c.r <= 255.0 && 0.0 <= c.g <= 255.0 && 0.0 <= c.b <= 255.0
  }

  /** `x % 60`: the remainder takes the sign of x. */
  function Mod60(x: real): real
    decreases x < 0.0
  {
    if x < 0.0 then -Mod60(-x) else x - 60.0 * (x / 60.0).Floor as real
  }

  method RgbToHsb(rgb: Rgb) returns (hsb: Hsb)
    ensures hsb == HsbOf(rgb)
  {
    hsb := Hsb(0.0, 0.0, 0.0);
    var min := Min(Min(rgb.r, rgb.g), rgb.b);
    var max := Max(Max(rgb.r, rgb.g), rgb.b);
    var delta := max - min;
    hsb := hsb.(b := max);
    hsb := hsb.(s := if max != 0.0 then 255.0 * delta / max else 0.0);
    if hsb.s != 0.0 {
      if rgb.r == max {
        hsb := hsb.(h := (rgb.g - rgb.b) / delta);
      } else if rgb.g == max {
        hsb := hsb.(h := 2.0 + (rgb.b - rgb.r) / delta);
      } else {
        hsb := hsb.(h := 4.0 + (rgb.r - rgb.g) / delta);
      }
    } else {
      hsb := hsb.(h := -1.0);
    }
    if max == min { hsb := hsb.(h := 0.0); }
    hsb := hsb.(h := hsb.h * 60.0);
    if hsb.h < 0.0 { hsb := hsb.(h := hsb.h + 360.0); }
    hsb := hsb.(s := hsb.s * (100.0 / 255.0));
    hsb := hsb.(b := hsb.b * (100.0 / 255.0));
  }

  /** Hue in sixths of a turn, before it is made non-negative. */
  function Sixths(c: Rgb, max: real, delta: real): real
    requires delta != 0.0
  {
    if c.r == max then (c.g - c.b) / delta
    else if c.g == max then 2.0 + (c.b - c.r) / delta
    else 4.0 + (c.r - c.g) / delta
  }

  /** What `RgbToHsb` computes: hue in degrees, saturation and brightness in percent. */
  function HsbOf(c: Rgb): Hsb {
    var min, max := Min(Min(c.r, c.g), c.b), Max(Max(c.r, c.g), c.b);
    var delta := max - min;
    if max == 0.0 || delta == 0.0 then Hsb(if delta == 0.0 then 0.0 else 300.0, 0.0, max * (100.0 / 255.0))
    else
      var h := Sixths(c, max, delta) * 60.0;
      Hsb(if h < 0.0 then h + 360.0 else h, 255.0 * delta / max * (100.0 / 255.0), max * (100.0 / 255.0))
  }

  /** What the six sectors give before rounding. */
  function SectorRgb(h: real, t1: real, t2: real, t3: real): Rgb {
    if h < 60.0 then Rgb(t1, t2 + t3, t2)
    else if h < 120.0 then Rgb(t1 - t3, t1, t2)
    else if h < 180.0 then Rgb(t2, t1, t2 + t3)
    else if h < 240.0 then Rgb(t2, t1 - t3, t1)
    else if h < 300.0 then Rgb(t2 + t3, t2, t1)
    else if h < 360.0 then Rgb(t1, t2, t1 - t3)
    else Rgb(0.0, 0.0, 0.0)
  }

  /** The smallest of the three values, from saturation and brightness on the scale of 255. */
  function LowValue(s: real, b: real): real { (255.0 - s) * b / 255.0 }

  function Part(delta: real, f: real): real { delta * f }

  /** How far the middle value is from its sector's start. */
  function Slope(t1: real, t2: real, h: real): real { (t1 - t2) * Mod60(h) / 60.0 }

  function Unrounded(hsb: Hsb): Rgb {
    var s, b := hsb.s * 255.0 / 100.0, hsb.b * 255.0 / 100.0;
    if s == 0.0 then Rgb(b, b, b)
    else
      var t2 := LowValue(s, b);
      SectorRgb(if hsb.h == 360.0 then 0.0 else hsb.h, b, t2, Slope(b, t2, hsb.h))
  }

  /** `Math.round`. */
  function Round(x: real): int { (x + 0.5).Floor }

  method HsbToRgb(hsb: Hsb) returns (r: int, g: int, b: int)
    ensures var u := Unrounded(hsb); r == Round(u.r) && g == Round(u.g) && b == Round(u.b)
  {
    hide LowValue, Slope, Round;
    var rgb;
    var h := hsb.h;
    var s := hsb.s * 255.0 / 100.0;
    var v := hsb.b * 255.0 / 100.0;
    if s == 0.0 {
      rgb := Rgb(v, v, v);
    } else {
      var t1 := v;
      var t2 := LowValue(s, v);
      var t3 := Slope(t1, t2, h);
      if h == 360.0 { h := 0.0; }
      if h < 60.0 { rgb := Rgb(t1, t2 + t3, t2); }
      else if h < 120.0 { rgb := Rgb(t1 - t3, t1, t2); }
      else if h < 180.0 { rgb := Rgb(t2, t1, t2 + t3); }
      else if h < 240.0 { rgb := Rgb(t2, t1 - t3, t1); }
      else if h < 300.0 { rgb := Rgb(t2 + t3, t2, t1); }
      else if h < 360.0 { rgb := Rgb(t1, t2, t1 - t3); }
      else { rgb := Rgb(0.0, 0.0, 0.0); }
    }
    r, g, b := Round(rgb.r), Round(rgb.g), Round(rgb.b);
  }

  // ---------------------------------------------------------------- the inverse

  lemma ModOf(k: nat, f: real)
    requires 0.0 <= f < 1.0
    ensures Mod60(60.0 * (k as real + f)) == 60.0 * f
  {
    var x := 60.0 * (k as real + f);
    assert x / 60.0 == k as real + f;
    assert (k as real + f).Floor == k;
  }

  /** A fraction q of delta, as the conversions divide and multiply it. */
  lemma Fraction(d: real, delta: real, q: real)
    requires delta > 0.0 && q == d / delta
    ensures delta * q == d
    ensures 0.0 <= d <==> 0.0 <= q
    ensures d < delta <==> q < 1.0
    ensures d == delta <==> q == 1.0
    ensures -delta < d <==> -1.0 < q
    ensures -delta == d <==> q == -1.0
  {
    Sign(delta, q);
    Sign(delta, q - 1.0);
    Sign(delta, q + 1.0);
    assert delta * (q - 1.0) == d - delta;
    assert delta * (q + 1.0) == d + delta;
  }

  lemma Sign(delta: real, q: real)
    requires delta > 0.0
    ensures delta * q > 0.0 <==> q > 0.0
    ensures delta * q == 0.0 <==> q == 0.0
  {
    if q < 0.0 { assert delta * -q > 0.0; }
  }

  /** The sectors seen from the hue k + f sixths, with max and min as the outer values. */
  lemma SectorAt(k: nat, f: real, min: real, max: real)
    requires k < 6 && 0.0 <= f < 1.0
    ensures SectorRgb(60.0 * (k as real + f), max, min, Slope(max, min, 60.0 * (k as real + f)))
         == SectorColour(k, min, max, Part(max - min, f))
  {
    SlopeAt(k, f, min, max);
    hide Slope, Part;
    var h := 60.0 * (k as real + f);
    assert 60.0 * k as real <= h < 60.0 * (k as real + 1.0);
    if k == 0 {} else if k == 1 {} else if k == 2 {} else if k == 3 {} else if k == 4 {} else {}
  }

  lemma SlopeAt(k: nat, f: real, min: real, max: real)
    requires 0.0 <= f < 1.0
    ensures Slope(max, min, 60.0 * (k as real + f)) == Part(max - min, f)
  {
    ModOf(k, f);
    hide Mod60;
    Scaled(max - min, f);
  }

  lemma Scaled(d: real, f: real)
    ensures d * (60.0 * f) / 60.0 == d * f
  {}

  /** The colour t into sector k. */
  function SectorColour(k: nat, min: real, max: real, t: real): Rgb {
    match k
    case 0 => Rgb(max, min + t, min)
    case 1 => Rgb(max - t, max, min)
    case 2 => Rgb(min, max, min + t)
    case 3 => Rgb(min, max - t, max)
    case 4 => Rgb(min + t, min, max)
    case _ => Rgb(max, min, max - t)
  }

  lemma ScaleQuotient(a: real, d: real, m: real)
    requires m > 0.0
    ensures a * d / m == a * (d / m)
  {
    var q := d / m;
    assert m * q == d;
    assert m * (a * q) == a * d;
  }

  /** Saturation and brightness lead back to the two outer values. */
  lemma OuterValues(min: real, max: real)
    requires 0.0 <= min < max <= 255.0
    ensures var s, b := 255.0 * (max - min) / max * (100.0 / 255.0), max * (100.0 / 255.0);
            && s * 255.0 / 100.0 != 0.0 && b * 255.0 / 100.0 == max
            && LowValue(s * 255.0 / 100.0, b * 255.0 / 100.0) == min
            && 0.0 <= s <= 100.0 && 0.0 <= b <= 100.0
  {
    var q := (max - min) / max;
    Fraction(max - min, max, q);
    Sign(max, q);
    ScaleQuotient(255.0, max - min, max);
    assert max * q == max - min;
    assert (255.0 - 255.0 * q) * max / 255.0 == max - max * q;
  }

  /** Which sector a hue lies in, and how far into it, from the branch's base and difference. */
  function Sector(d: real, delta: real, base: nat): nat {
    if d == delta then base + 1 else if d >= 0.0 then base else if base == 0 then 5 else base - 1
  }

  function Into(d: real, delta: real): real
    requires delta != 0.0
  {
    if d == delta then 0.0 else if d >= 0.0 then d / delta else 1.0 + d / delta
  }

  /** Sixths of a turn in degrees, made non-negative. */
  function Degrees(h: real): real { if h < 0.0 then 60.0 * (h + 6.0) else 60.0 * h }

  lemma HuePart(d: real, delta: real, base: nat)
    requires delta > 0.0 && -delta <= d <= delta && base in {0, 2, 4} && (d == -delta ==> base == 0)
    ensures Sector(d, delta, base) < 6 && 0.0 <= Into(d, delta) < 1.0
    ensures var h := base as real + d / delta;
            60.0 * (Sector(d, delta, base) as real + Into(d, delta)) == Degrees(h)
  {
    Fraction(d, delta, d / delta);
  }

  lemma ColourPart(d: real, delta: real)
    requires delta > 0.0
    ensures Part(delta, Into(d, delta)) == if d == delta then 0.0 else if d >= 0.0 then d else delta + d
  {
    Fraction(d, delta, d / delta);
    assert delta * (1.0 + d / delta) == delta + delta * (d / delta);
  }

  lemma HueSector(c: Rgb, min: real, max: real) returns (k: nat, f: real)
    requires Channels(c) && min == Min(Min(c.r, c.g), c.b) && max == Max(Max(c.r, c.g), c.b) && min < max
    ensures k < 6 && 0.0 <= f < 1.0
    ensures HsbOf(c).h == 60.0 * (k as real + f)
    ensures c == SectorColour(k, min, max, Part(max - min, f))
  {
    var d, base := Difference(c, max), Base(c, max);
    DifferenceBounds(c, min, max);
    HueOf(c, min, max);
    hide SectorColour, HsbOf, Difference, Base, Min, Max, Channels, Sector, Into, Part, Degrees;
    k, f := Sector(d, max - min, base), Into(d, max - min);
    HuePart(d, max - min, base);
    ColourPart(d, max - min);
    ColourInSector(c, min, max, k, Part(max - min, f));
  }

  /** The two smaller values subtracted in the order of the branch of the largest one. */
  function Difference(c: Rgb, max: real): real {
    if c.r == max then c.g - c.b else if c.g == max then c.b - c.r else c.r - c.g
  }

  function Base(c: Rgb, max: real): nat {
    if c.r == max then 0 else if c.g == max then 2 else 4
  }

  lemma HueOf(c: Rgb, min: real, max: real)
    requires Channels(c) && min == Min(Min(c.r, c.g), c.b) && max == Max(Max(c.r, c.g), c.b) && min < max
    ensures var h := Base(c, max) as real + Difference(c, max) / (max - min);
            HsbOf(c).h == Degrees(h)
    ensures Base(c, max) in {0, 2, 4}
  {}

  lemma DifferenceBounds(c: Rgb, min: real, max: real)
    requires min == Min(Min(c.r, c.g), c.b) && max == Max(Max(c.r, c.g), c.b) && min < max
    ensures min - max <= Difference(c, max) <= max - min
    ensures Difference(c, max) == min - max ==> Base(c, max) == 0
  {}

  lemma ColourInSector(c: Rgb, min: real, max: real, k: nat, t: real)
    requires min == Min(Min(c.r, c.g), c.b) && max == Max(Max(c.r, c.g), c.b) && min < max
    requires k == Sector(Difference(c, max), max - min, Base(c, max))
    requires t == if Difference(c, max) == max - min then 0.0
                  else if Difference(c, max) >= 0.0 then Difference(c, max) else max - min + Difference(c, max)
    ensures c == SectorColour(k, min, max, t)
  {}

  /** Converting to hue, saturation and brightness loses nothing, and stays within their ranges. */
  lemma HsbInverts(c: Rgb)
    requires Channels(c)
    ensures Unrounded(HsbOf(c)) == c
    ensures 0.0 <= HsbOf(c).h < 360.0 && 0.0 <= HsbOf(c).s <= 100.0 && 0.0 <= HsbOf(c).b <= 100.0
  {
    var min, max := Min(Min(c.r, c.g), c.b), Max(Max(c.r, c.g), c.b);
    if min < max {
      hide SectorRgb, SectorColour, Slope, LowValue, Sixths, Part;
      var k, f := HueSector(c, min, max);
      OuterValues(min, max);
      SectorAt(k, f, min, max);
    }
  }

  /** For whole channel values the final rounding changes nothing. */
  lemma RoundTrip(c: Bytes)
    requires c.r < 256 && c.g < 256 && c.b < 256
    ensures var u := Unrounded(HsbOf(Exact(c))); Round(u.r) == c.r && Round(u.g) == c.g && Round(u.b) == c.b
  {
    HsbInverts(Exact(c));
  }

  /** The nearest whole number, the larger one half way. */
  lemma RoundNearest(x: real)
    ensures Round(x) as real - 0.5 <= x < Round(x) as real + 0.5
  {}

  /** Greys have no hue and no saturation. */
  lemma Greys(v: real)
    ensures HsbOf(Rgb(v, v, v)) == Hsb(0.0, 0.0, v * (100.0 / 255.0))
  {}

  /** Red, green and blue, and the colours between them, a sixth of a turn apart. */
  lemma FullColours()
    ensures HsbOf(Rgb(255.0, 0.0, 0.0)) == Hsb(0.0, 100.0, 100.0)
    ensures HsbOf(Rgb(255.0, 255.0, 0.0)) == Hsb(60.0, 100.0, 100.0)
    ensures HsbOf(Rgb(0.0, 255.0, 0.0)) == Hsb(120.0, 100.0, 100.0)
    ensures HsbOf(Rgb(0.0, 255.0, 255.0)) == Hsb(180.0, 100.0, 100.0)
    ensures HsbOf(Rgb(0.0, 0.0, 255.0)) == Hsb(240.0, 100.0, 100.0)
    ensures HsbOf(Rgb(255.0, 0.0, 255.0)) == Hsb(300.0, 100.0, 100.0)
  {}

  /** A full turn is no turn; beyond it a colour is black, and without saturation the hue does not count. */
  lemma OtherHues(h: real, s: real, b: real)
    ensures Unrounded(Hsb(360.0, s, b)) == Unrounded(Hsb(0.0, s, b))
    ensures h > 360.0 && s != 0.0 ==> Unrounded(Hsb(h, s, b)) == Rgb(0.0, 0.0, 0.0)
    ensures Unrounded(Hsb(h, 0.0, b)) == Rgb(b * 255.0 / 100.0, b * 255.0 / 100.0, b * 255.0 / 100.0)
    ensures Mod60(90.0) == 30.0 && Mod60(-90.0) == -30.0
  {
    hide LowValue;
    assert Mod60(360.0) == 0.0 && Mod60(0.0) == 0.0;
  }

  function Exact(c: Bytes): Rgb { Rgb(c.r as real, c.g as real, c.b as real) }

  // ---------------------------------------------------------------- hexadecimal text

  predicate HexDigit(c: char) { '0' <= c <= '9' || 'a' <= c <= 'f' || 'A' <= c <= 'F' }

  function HexValue(c: char): (v: nat)
    requires HexDigit(c)
    ensures v < 16
  {
    if c <= '9' then c as int - '0' as int
    else if c <= 'F' then c as int - 'A' as int + 10
    else c as int - 'a' as int + 10
  }

  function LowerDigit(v: nat): char
    requires v < 16
  {
    "0123456789abcdef"[v]
  }

  /** `parseInt(s, 16)` on a string of hexadecimal digits. */
  function ParseHex(s: string): nat
    requires forall i :: 0 <= i < |s| ==> HexDigit(s[i])
  {
    if s == "" then 0 else 16 * ParseHex(s[..|s| - 1]) + HexValue(s[|s| - 1])
  }

  /** `n.toString(16)`. */
  function ToHex(n: nat): string {
    (if n < 16 then "" else ToHex(n / 16)) + [LowerDigit(n % 16)]
  }

  predicate HexColor(s: string) {
    (|s| == 3 || |s| == 6) && forall i :: 0 <= i < |s| ==> HexDigit(s[i])
  }

  /** The six digits a colour stands for: a short colour has every digit doubled. */
  function SixDigits(s: string): (r: string)
    requires HexColor(s)
    ensures |r| == 6 && forall i :: 0 <= i < 6 ==> HexDigit(r[i])
  {
    if |s| == 3 then [s[0], s[0], s[1], s[1], s[2], s[2]] else s
  }

  function Lower(s: string): (r: string)
    requires forall i :: 0 <= i < |s| ==> HexDigit(s[i])
    ensures |r| == |s|
  {
    seq(|s|, i requires 0 <= i < |s| => LowerDigit(HexValue(s[i])))
  }

  function ChannelsOf(s: string): Bytes
    requires HexColor(s)
  {
    var v := ParseHex(SixDigits(s));
    Bytes(v / 65536, v / 256 % 256, v % 256)
  }

  method HexToHsb(hex0: string) returns (hsb: Hsb)
    requires HexColor(hex0) || (|hex0| > 0 && hex0[0] == '#' && HexColor(hex0[1..]))
    ensures hsb == HsbOf(Exact(ChannelsOf(if hex0[0] == '#' then hex0[1..] else hex0)))
  {
    var hex := if '#' in hex0 then hex0[1..] else hex0;
    assert HexColor(hex0) ==> '#' !in hex0;
    if |hex| == 3 {
      hex := [hex[0], hex[0], hex[1], hex[1], hex[2], hex[2]];
    }
    var v := ParseHex(hex);
    hsb := RgbToHsb(Rgb((v / 65536) as real, (v / 256 % 256) as real, (v % 256) as real));
  }

  method HsbToHex(hsb: Hsb) returns (text: string)
    requires var u := Unrounded(hsb); 0 <= Round(u.r) && 0 <= Round(u.g) && 0 <= Round(u.b)
    ensures var u := Unrounded(hsb); text == TwoDigits(Round(u.r)) + TwoDigits(Round(u.g)) + TwoDigits(Round(u.b))
  {
    var r, g, b := HsbToRgb(hsb);
    var hex := [ToHex(r), ToHex(g), ToHex(b)];
    for nr := 0 to 3
      invariant |hex| == 3
      invariant forall i :: 0 <= i < 3 ==>
                  hex[i] == if i < nr then TwoDigits([r, g, b][i]) else ToHex([r, g, b][i])
    {
      if |hex[nr]| == 1 {
        hex := hex[nr := "0" + hex[nr]];
      }
    }
    text := hex[0] + hex[1] + hex[2];
  }

  function TwoDigits(n: nat): string {
    if |ToHex(n)| == 1 then "0" + ToHex(n) else ToHex(n)
  }

  lemma OneDigit(d: nat)
    requires d < 16
    ensures ToHex(d) == [LowerDigit(d)]
  {
    hide LowerDigit;
    assert d % 16 == d;
  }

  lemma LowestDigit()
    ensures LowerDigit(0) == '0'
  {}

  lemma MoreDigits(v: nat, w: nat)
    requires 0 < v && w < 16
    ensures ToHex(16 * v + w) == ToHex(v) + [LowerDigit(w)]
  {
    hide LowerDigit;
    var n := 16 * v + w;
    assert n / 16 == v && n % 16 == w;
  }

  lemma TwoDigitsOf(v: nat, w: nat)
    requires v < 16 && w < 16
    ensures TwoDigits(16 * v + w) == [LowerDigit(v), LowerDigit(w)]
  {
    hide ToHex, LowerDigit;
    OneDigit(v);
    OneDigit(w);
    LowestDigit();
    if v > 0 { MoreDigits(v, w); }
  }

  lemma SixDigitChannels(s: string)
    requires HexColor(s) && |s| == 6
    ensures ChannelsOf(s) == Bytes(Pair(s, 0), Pair(s, 2), Pair(s, 4))
  {
    assert s[..6] == s && ParseHex(s[..0]) == 0;
    hide HexValue, ParseHex;
    TwoMore(s, 0);
    TwoMore(s, 2);
    TwoMore(s, 4);
    var r, g, b := Pair(s, 0), Pair(s, 2), Pair(s, 4);
    hide HexDigit, Pair;
    assert ParseHex(s) == 256 * (256 * (256 * 0 + r) + g) + b;
    Channels24(r, g, b);
  }

  /** The byte that two digits stand for. */
  function Pair(s: string, n: nat): (v: nat)
    requires n + 2 <= |s| && forall i :: 0 <= i < |s| ==> HexDigit(s[i])
    ensures v < 256
  {
    16 * HexValue(s[n]) + HexValue(s[n + 1])
  }

  lemma Channels24(r: nat, g: nat, b: nat)
    requires r < 256 && g < 256 && b < 256
    ensures var v := 65536 * r + 256 * g + b; v / 65536 == r && v / 256 % 256 == g && v % 256 == b
  {
    var v := 65536 * r + 256 * g + b;
    assert v / 256 == 256 * r + g;
  }

  lemma TwoMore(s: string, n: nat)
    requires n + 2 <= |s| && forall i :: 0 <= i < |s| ==> HexDigit(s[i])
    ensures ParseHex(s[..n + 2]) == 256 * ParseHex(s[..n]) + Pair(s, n)
  {
    hide HexValue, HexDigit;
    assert s[..n + 2][..n + 1] == s[..n + 1] && s[..n + 1][..n] == s[..n];
  }

  /** The digit itself, with an upper-case letter moved to lower case. */
  function LowerCase(c: char): char
    requires HexDigit(c)
  {
    if 'A' <= c <= 'F' then (c as int + 32) as char else c
  }

  /** What each of the digits is worth, in either case. */
  lemma DigitsWorth(v: nat)
    requires v < 16
    ensures var (l, u) := ("0123456789abcdef"[v], "0123456789ABCDEF"[v]);
            HexDigit(l) && HexDigit(u) && HexValue(l) == v && HexValue(u) == v && LowerCase(u) == l
  {}

  lemma LowerDigitOf(c: char)
    requires HexDigit(c)
    ensures LowerDigit(HexValue(c)) == LowerCase(c)
  {}

  /** The channels of a text are two digits each, in the order red, green, blue. */
  lemma ChannelsOfText()
    ensures HexColor("102aF3") && ChannelsOf("102aF3") == Bytes(16, 42, 243)
    ensures HexColor("1aF") && ChannelsOf("1aF") == Bytes(17, 170, 255)
  {
    SixDigitChannels("102aF3");
    assert SixDigits("1aF") == "11aaFF";
    SixDigitChannels("11aaFF");
  }

  /** Text to colour and back: the same six digits in lower case, short colours doubled. */
  lemma HexRoundTrip(s: string)
    requires HexColor(s)
    ensures var u := Unrounded(HsbOf(Exact(ChannelsOf(s))));
            && 0 <= Round(u.r) && 0 <= Round(u.g) && 0 <= Round(u.b)
            && var text := TwoDigits(Round(u.r)) + TwoDigits(Round(u.g)) + TwoDigits(Round(u.b));
               && text == Lower(SixDigits(s)) && |text| == 6
               && forall i :: 0 <= i < 6 ==> text[i] == LowerCase(if |s| == 3 then s[i / 2] else s[i])
  {
    hide Unrounded, HsbOf, Round, TwoDigits, ParseHex, HexValue, LowerDigit, HexDigit, LowerCase, ChannelsOf;
    var d := SixDigits(s);
    SixDigitChannels(d);
    assert ChannelsOf(d) == ChannelsOf(s) by { SameDigits(s); }
    RoundTrip(ChannelsOf(s));
    TwoDigitsOf(HexValue(d[0]), HexValue(d[1]));
    TwoDigitsOf(HexValue(d[2]), HexValue(d[3]));
    TwoDigitsOf(HexValue(d[4]), HexValue(d[5]));
    forall i | 0 <= i < 6 ensures Lower(d)[i] == LowerCase(if |s| == 3 then s[i / 2] else s[i]) {
      LowerDigitOf(d[i]);
    }
  }

  lemma SameDigits(s: string)
    requires HexColor(s)
    ensures ChannelsOf(SixDigits(s)) == ChannelsOf(s)
  {}

  /** A colour text through both conversions. */
  method ThereAndBack(hex: string) returns (text: string)
    requires HexColor(hex) || (|hex| > 0 && hex[0] == '#' && HexColor(hex[1..]))
    ensures var s := if hex[0] == '#' then hex[1..] else hex;
            |text| == 6 && forall i :: 0 <= i < 6 ==> text[i] == LowerCase(if |s| == 3 then s[i / 2] else s[i])
  {
    hide HsbOf, Unrounded, Round, TwoDigits, ChannelsOf, Lower, SixDigits, LowerCase;
    HexRoundTrip(if hex[0] == '#' then hex[1..] else hex);
    var hsb := HexToHsb(hex);
    text := HsbToHex(hsb);
  }
}
