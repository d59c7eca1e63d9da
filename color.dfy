// Colour values of the Ghostty theme generator: the `#rrggbb` codec, the
// sRGB <-> CIE LAB conversions and LAB interpolation.
//
// Arithmetic is exact over `real`. The two transcendental functions the source
// calls (`Math.pow` / `**` and `Math.cbrt`) are not defined here: every
// conversion takes them as a `MathLib` argument, so whatever is proved below
// holds for any implementation of them.

module Color {
  import opened Wrappers
  import opened Text
  import Palette

  /** An RGB colour; channels are the integers `Number.parseInt` produced. */
  datatype Rgb = Rgb(r: int, g: int, b: int)

  /** A CIE LAB colour. */
  datatype Lab = Lab(l: real, a: real, b: real)

  /** Stand-ins for `Math.pow` (also `**`) and `Math.cbrt`. */
  datatype MathLib = MathLib(pow: (real, real) -> real, cbrt: real -> real)

  predicate InRange(c: Rgb)
  {
    0 <= c.r <= 255 && 0 <= c.g <= 255 && 0 <= c.b <= 255
  }

  // ---------------------------------------------------------------------------
  // sRGB <-> CIE LAB

  /** The D65 reference white. */
  const WhiteX: real := 0.95047
  const WhiteY: real := 1.0
  const WhiteZ: real := 1.08883

  /** The CIE helper `f`: cube root above the threshold, linear below it. */
  function F(m: MathLib, t: real): real
  {
    if t > 0.008856 then m.cbrt(t) else 7.787 * t + 16.0 / 116.0
  }

  /** The inverse helper `f⁻¹`. */
  function FInverse(t: real): real
  {
    var t3 := t * t * t;
    if t3 > 0.008856 then t3 else (t - 16.0 / 116.0) / 7.787
  }

  /** sRGB gamma decompanding of one 8-bit channel. */
  function SrgbToLinear(m: MathLib, v: int): real
  {
    var normalized := v as real / 255.0;
    if normalized > 0.04045 then m.pow((normalized + 0.055) / 1.055, 2.4)
    else normalized / 12.92
  }

  /** sRGB gamma companding of one linear channel, before clamping. */
  function Companded(m: MathLib, v: real): real
  {
    if v > 0.0031308 then 1.055 * m.pow(v, 1.0 / 2.4) - 0.055 else 12.92 * v
  }

  function Min(x: real, y: real): real
  {
    if x <= y then x else y
  }

  function Max(x: real, y: real): real
  {
    if x >= y then x else y
  }

  /** `Math.round`: the nearest integer, halves rounded up. */
  function Round(x: real): (n: int)
    ensures n as real <= x + 0.5 < n as real + 1.0
  {
    (x + 0.5).Floor
  }

  /**
   * Companding, clamping to [0,1], scaling and rounding: the result is
   * always a valid 8-bit channel, and out-of-gamut values saturate.
   */
  function LinearToSrgb(m: MathLib, v: real): (c: int)
    ensures 0 <= c <= 255
    ensures Companded(m, v) <= 0.0 ==> c == 0
    ensures Companded(m, v) >= 1.0 ==> c == 255
  {
    var clamped := Max(0.0, Min(1.0, Companded(m, v)));
    Round(clamped * 255.0)
  }

  function RgbToLab(m: MathLib, rgb: Rgb): Lab
  {
    var r := SrgbToLinear(m, rgb.r);
    var g := SrgbToLinear(m, rgb.g);
    var b := SrgbToLinear(m, rgb.b);
    var x := (r * 0.4124564 + g * 0.3575761 + b * 0.1804375) / WhiteX;
    var y := (r * 0.2126729 + g * 0.7151522 + b * 0.072175) / WhiteY;
    var z := (r * 0.0193339 + g * 0.119192 + b * 0.9503041) / WhiteZ;
    var fx := F(m, x);
    var fy := F(m, y);
    var fz := F(m, z);
    Lab(116.0 * fy - 16.0, 500.0 * (fx - fy), 200.0 * (fy - fz))
  }

  /** LAB back to 8-bit sRGB; every channel of the result is in [0,255]. */
  function LabToRgb(m: MathLib, lab: Lab): (c: Rgb)
    ensures InRange(c)
  {
    var fy := (lab.l + 16.0) / 116.0;
    var fx := lab.a / 500.0 + fy;
    var fz := fy - lab.b / 200.0;
    var x := FInverse(fx) * WhiteX;
    var y := FInverse(fy) * WhiteY;
    var z := FInverse(fz) * WhiteZ;
    var rLinear := x * 3.2404542 + y * -1.5371385 + z * -0.4985314;
    var gLinear := x * -0.969266 + y * 1.8760108 + z * 0.041556;
    var bLinear := x * 0.0556434 + y * -0.2040259 + z * 1.0572252;
    Rgb(LinearToSrgb(m, rLinear), LinearToSrgb(m, gLinear), LinearToSrgb(m, bLinear))
  }

  /** Componentwise `start + t * (end - start)`; it returns the endpoints at 0 and 1. */
  function LerpLab(t: real, start: Lab, end: Lab): (r: Lab)
    ensures t == 0.0 ==> r == start
    ensures t == 1.0 ==> r == end
  {
    Lab(start.l + t * (end.l - start.l),
        start.a + t * (end.a - start.a),
        start.b + t * (end.b - start.b))
  }

  // ---------------------------------------------------------------------------
  // Number.parseInt(s, 16)

  /** Drops the leading white space and line terminators. */
  function TrimStart(s: string): (t: string)
    ensures |t| <= |s|
    ensures t != [] ==> !IsJsWhitespace(t[0])
  {
    if s != [] && IsJsWhitespace(s[0]) then TrimStart(s[1..]) else s
  }

  /** The longest prefix of `s` made of hexadecimal digits. */
  function HexDigitPrefix(s: string): (z: string)
    ensures |z| <= |s| && forall i :: 0 <= i < |z| ==> z[i] == s[i]
    ensures forall i :: 0 <= i < |z| ==> IsHexDigit(z[i])
    ensures |z| < |s| ==> !IsHexDigit(s[|z|])
  {
    if s != [] && IsHexDigit(s[0]) then [s[0]] + HexDigitPrefix(s[1..]) else []
  }

  /** The value of a run of hexadecimal digits, most significant first. */
  function HexValue(z: string): nat
    requires forall i :: 0 <= i < |z| ==> IsHexDigit(z[i])
  {
    if z == [] then 0 else HexValue(z[..|z| - 1]) * 16 + HexDigitValue(z[|z| - 1])
  }

  /**
   * `Number.parseInt(s, 16)`: leading white space skipped, an optional sign,
   * an optional `0x`/`0X` prefix, then as many hexadecimal digits as there
   * are; `None` stands for `NaN` (no digit at all).
   */
  function ParseIntHex(s: string): Option<int>
  {
    var t := TrimStart(s);
    var negative := t != [] && t[0] == '-';
    var u := if t != [] && (t[0] == '-' || t[0] == '+') then t[1..] else t;
    var w := if |u| >= 2 && u[0] == '0' && (u[1] == 'x' || u[1] == 'X') then u[2..] else u;
    var z := HexDigitPrefix(w);
    var magnitude: int := if z == [] then 0 else HexValue(z);
    if z == [] then None
    else Some(if negative then -magnitude else magnitude)
  }

  /** `s.slice(lo, hi)` for `0 <= lo <= hi`: both ends clamped to the length. */
  function Slice(s: string, lo: nat, hi: nat): string
    requires lo <= hi
  {
    var a := if lo <= |s| then lo else |s|;
    var b := if hi <= |s| then hi else |s|;
    s[a..b]
  }

  /** The text without its leading `#`, if it has one. */
  function StripHash(hex: string): string
  {
    if hex != [] && hex[0] == '#' then hex[1..] else hex
  }

  /** The three two-character slices of `hexToRgb`, each parsed in base 16; `None` where a channel would be `NaN`. */
  function ParseChannels(raw: string): Option<Rgb>
  {
    var r := ParseIntHex(Slice(raw, 0, 2));
    var g := ParseIntHex(Slice(raw, 2, 4));
    var b := ParseIntHex(Slice(raw, 4, 6));
    if r.Some? && g.Some? && b.Some? then Some(Rgb(r.value, g.value, b.value)) else None
  }

  /** `hexToRgb`: the optional leading `#` dropped, then the three channels parsed. */
  function HexToRgb(hex: string): Option<Rgb>
  {
    ParseChannels(StripHash(hex))
  }

  /** `rgbToLab(hexToRgb(hex))`. */
  function HexToLab(m: MathLib, hex: string): Option<Lab>
  {
    match HexToRgb(hex)
    case Some(c) => Some(RgbToLab(m, c))
    case None => None
  }

  // ---------------------------------------------------------------------------
  // rgbToHex

  /** `n.toString(16)` for a natural number. */
  function NatToHex(n: nat): (s: string)
    ensures |s| >= 1
  {
    if n < 16 then [HexDigit(n)] else NatToHex(n / 16) + [HexDigit(n % 16)]
  }

  /** `s.padStart(2, "0")`. */
  function PadStart2(s: string): string
  {
    if |s| >= 2 then s else seq(2 - |s|, _ => '0') + s
  }

  /** The inner `toHex` of `rgbToHex`: `value.toString(16).padStart(2, "0")`. */
  function ToHex(v: int): string
  {
    PadStart2(if v < 0 then "-" + NatToHex(-v) else NatToHex(v))
  }

  function RgbToHex(c: Rgb): string
  {
    "#" + ToHex(c.r) + ToHex(c.g) + ToHex(c.b)
  }

  /** Reference form of an 8-bit channel: exactly two lower-case digits, high first. */
  function Hex2(v: nat): string
    requires v < 256
  {
    [HexDigit(v / 16), HexDigit(v % 16)]
  }

  // ---------------------------------------------------------------------------
  // Codec properties

  lemma HexDigitRoundTrip(d: nat)
    requires d < 16
    ensures IsHexDigit(HexDigit(d)) && IsLowerHexDigit(HexDigit(d))
    ensures HexDigitValue(HexDigit(d)) == d
  {
  }

  lemma LowerHexOfValue(c: char)
    requires IsHexDigit(c)
    ensures HexDigit(HexDigitValue(c)) == LowerHex(c)
  {
  }

  /** For an in-range channel `toHex` writes exactly two lower-case digits, zero-padded. */
  lemma ToHexInRange(v: int)
    requires 0 <= v <= 255
    ensures ToHex(v) == Hex2(v)
  {
    if v < 16 {
      assert NatToHex(v) == [HexDigit(v)];
      assert v / 16 == 0 && v % 16 == v;
    } else {
      assert NatToHex(v / 16) == [HexDigit(v / 16)];
    }
  }

  /** `rgbToHex` of an in-range colour is `#` and six lower-case, zero-padded digits. */
  lemma RgbToHexFormat(c: Rgb)
    requires InRange(c)
    ensures RgbToHex(c) == "#" + Hex2(c.r) + Hex2(c.g) + Hex2(c.b)
    ensures Palette.IsLowerHexColor(RgbToHex(c))
  {
    ToHexInRange(c.r);
    ToHexInRange(c.g);
    ToHexInRange(c.b);
    Hex2IsLower(c.r);
    Hex2IsLower(c.g);
    Hex2IsLower(c.b);
    LowerHexColorOfParts(Hex2(c.r), Hex2(c.g), Hex2(c.b));
  }

  predicate IsLowerPair(s: string)
  {
    |s| == 2 && IsLowerHexDigit(s[0]) && IsLowerHexDigit(s[1])
  }

  lemma Hex2IsLower(v: nat)
    requires v < 256
    ensures IsLowerPair(Hex2(v))
  {
    HexDigitRoundTrip(v / 16);
    HexDigitRoundTrip(v % 16);
  }

  lemma LowerHexColorOfParts(x: string, y: string, z: string)
    requires IsLowerPair(x) && IsLowerPair(y) && IsLowerPair(z)
    ensures Palette.IsLowerHexColor("#" + x + y + z)
  {
    var s := "#" + x + y + z;
    assert s[1] == x[0] && s[2] == x[1] && s[3] == y[0] && s[4] == y[1] && s[5] == z[0] && s[6] == z[1];
  }

  /** The value of two hexadecimal digits, high first. */
  function PairValue(x: char, y: char): (v: nat)
    requires IsHexDigit(x) && IsHexDigit(y)
    ensures v < 256
  {
    HexDigitValue(x) * 16 + HexDigitValue(y)
  }

  /** Two hexadecimal digits, either case, parse to `16 * high + low`. */
  lemma ParsePair(x: char, y: char)
    requires IsHexDigit(x) && IsHexDigit(y)
    ensures ParseIntHex([x, y]) == Some(PairValue(x, y))
  {
    var s := [x, y];
    assert TrimStart(s) == s;
    assert HexDigitPrefix(s[1..]) == s[1..];
    assert HexDigitPrefix(s) == s;
    assert s[..1] == [x];
    assert HexValue([x]) == HexDigitValue(x) by {
      assert [x][..0] == [];
    }
  }

  /** Six hexadecimal digits parse to the three channels they spell. */
  lemma ParseSix(x0: char, x1: char, x2: char, x3: char, x4: char, x5: char)
    requires IsHexDigit(x0) && IsHexDigit(x1) && IsHexDigit(x2)
    requires IsHexDigit(x3) && IsHexDigit(x4) && IsHexDigit(x5)
    ensures ParseChannels([x0, x1, x2, x3, x4, x5])
         == Some(Rgb(PairValue(x0, x1), PairValue(x2, x3), PairValue(x4, x5)))
  {
    var raw := [x0, x1, x2, x3, x4, x5];
    assert Slice(raw, 0, 2) == [x0, x1];
    assert Slice(raw, 2, 4) == [x2, x3];
    assert Slice(raw, 4, 6) == [x4, x5];
    ParsePair(x0, x1);
    ParsePair(x2, x3);
    ParsePair(x4, x5);
  }

  /** The six characters of a well-formed colour, after the optional `#`. */
  predicate IsHexInput(hex: string)
  {
    var raw := StripHash(hex);
    |raw| == 6 && forall i :: 0 <= i < 6 ==> IsHexDigit(raw[i])
  }

  /** The channels a well-formed colour string spells out. */
  function ChannelsOf(hex: string): (c: Rgb)
    requires IsHexInput(hex)
    ensures InRange(c)
  {
    var raw := StripHash(hex);
    Rgb(PairValue(raw[0], raw[1]), PairValue(raw[2], raw[3]), PairValue(raw[4], raw[5]))
  }

  /** A well-formed colour string parses to the channels it spells. */
  lemma ParsesToChannels(hex: string)
    requires IsHexInput(hex)
    ensures HexToRgb(hex) == Some(ChannelsOf(hex))
  {
    var raw := StripHash(hex);
    assert raw == [raw[0], raw[1], raw[2], raw[3], raw[4], raw[5]];
    ParseSix(raw[0], raw[1], raw[2], raw[3], raw[4], raw[5]);
  }

  /** The two digits `Hex2` writes are read back as the same value. */
  lemma PairOfHex2(v: nat)
    requires v < 256
    ensures IsHexDigit(Hex2(v)[0]) && IsHexDigit(Hex2(v)[1])
    ensures PairValue(Hex2(v)[0], Hex2(v)[1]) == v
  {
    HexDigitRoundTrip(v / 16);
    HexDigitRoundTrip(v % 16);
  }

  /** Parsing `#` and three `Hex2` pairs, with or without the `#`, gives the channels back. */
  lemma ParseHex2Channels(s: string, c: Rgb)
    requires InRange(c) && s == "#" + Hex2(c.r) + Hex2(c.g) + Hex2(c.b)
    ensures HexToRgb(s) == Some(c) && HexToRgb(s[1..]) == Some(c)
  {
    var p0, p1, p2 := Hex2(c.r), Hex2(c.g), Hex2(c.b);
    var raw := s[1..];
    assert raw == [p0[0], p0[1], p1[0], p1[1], p2[0], p2[1]];
    PairOfHex2(c.r);
    PairOfHex2(c.g);
    PairOfHex2(c.b);
    assert StripHash(s) == raw;
    assert StripHash(raw) == raw;
    ParseSix(p0[0], p0[1], p1[0], p1[1], p2[0], p2[1]);
  }

  /** Parsing an in-range colour's hex form gives the colour back, with or without `#`. */
  lemma HexRoundTrip(c: Rgb)
    requires InRange(c)
    ensures HexToRgb(RgbToHex(c)) == Some(c)
    ensures HexToRgb(RgbToHex(c)[1..]) == Some(c)
  {
    RgbToHexFormat(c);
    ParseHex2Channels(RgbToHex(c), c);
  }

  lemma Hex2OfDigits(x: char, y: char)
    requires IsHexDigit(x) && IsHexDigit(y)
    ensures Hex2(PairValue(x, y)) == [LowerHex(x), LowerHex(y)]
  {
    var v := PairValue(x, y);
    assert v / 16 == HexDigitValue(x) && v % 16 == HexDigitValue(y);
    LowerHexOfValue(x);
    LowerHexOfValue(y);
  }

  /** `#` and the `Hex2` pairs of a colour string's channels: its digits in lower case. */
  lemma CanonicalDigits(s: string, hex: string)
    requires IsHexInput(hex)
    requires var c := ChannelsOf(hex); s == "#" + Hex2(c.r) + Hex2(c.g) + Hex2(c.b)
    ensures |s| == 7 && s[0] == '#'
    ensures forall i :: 0 <= i < 6 ==> s[i + 1] == LowerHex(StripHash(hex)[i])
  {
    var raw := StripHash(hex);
    Hex2OfDigits(raw[0], raw[1]);
    Hex2OfDigits(raw[2], raw[3]);
    Hex2OfDigits(raw[4], raw[5]);
    assert s == "#" + [LowerHex(raw[0]), LowerHex(raw[1]), LowerHex(raw[2]),
                       LowerHex(raw[3]), LowerHex(raw[4]), LowerHex(raw[5])];
  }

  /**
   * Printing the channels of a well-formed colour string (either case, with
   * or without `#`) gives its canonical form: `#` and the same six digits in
   * lower case. With `ParsesToChannels` this is `rgbToHex(hexToRgb(h))`.
   */
  lemma CanonicalRoundTrip(hex: string)
    requires IsHexInput(hex)
    ensures var s := RgbToHex(ChannelsOf(hex));
      |s| == 7 && s[0] == '#'
      && forall i :: 0 <= i < 6 ==> s[i + 1] == LowerHex(StripHash(hex)[i])
  {
    RgbToHexFormat(ChannelsOf(hex));
    CanonicalDigits(RgbToHex(ChannelsOf(hex)), hex);
  }

  /** A string that spells a lower-case colour's digits in lower case is that colour. */
  lemma SameLowerColor(p: string, s: string)
    requires Palette.IsLowerHexColor(s)
    requires |p| == 7 && p[0] == '#'
    requires forall i :: 0 <= i < 6 ==> p[i + 1] == LowerHex(s[1..][i])
    ensures p == s
  {
    forall i | 1 <= i < 7 ensures p[i] == s[i] {
      assert s[1..][i - 1] == s[i];
    }
  }

  /** Every palette value parses, and printing it back reproduces it. */
  lemma PaletteValuesRoundTrip(v: Palette.Variant, role: Palette.Role)
    ensures HexToRgb(Palette.RoleValue(Palette.PaletteOf(v), role)).Some?
    ensures RgbToHex(HexToRgb(Palette.RoleValue(Palette.PaletteOf(v), role)).value)
         == Palette.RoleValue(Palette.PaletteOf(v), role)
  {
    var s := Palette.RoleValue(Palette.PaletteOf(v), role);
    Palette.AllValuesWellFormed(v, role);
    LowerHexColorIsCanonical(s);
  }

  /** A lower-case `#rrggbb` string parses, and printing its channels gives it back. */
  lemma LowerHexColorIsCanonical(s: string)
    requires Palette.IsLowerHexColor(s)
    ensures IsHexInput(s)
    ensures HexToRgb(s) == Some(ChannelsOf(s))
    ensures RgbToHex(ChannelsOf(s)) == s
  {
    assert StripHash(s) == s[1..];
    ParsesToChannels(s);
    CanonicalRoundTrip(s);
    SameLowerColor(RgbToHex(ChannelsOf(s)), s);
  }

  /** A palette value's parsed channels, in the terms `ChannelsOf` spells out. */
  lemma PaletteChannels(v: Palette.Variant, role: Palette.Role)
    ensures IsHexInput(Palette.RoleValue(Palette.PaletteOf(v), role))
    ensures HexToRgb(Palette.RoleValue(Palette.PaletteOf(v), role))
         == Some(ChannelsOf(Palette.RoleValue(Palette.PaletteOf(v), role)))
  {
    var s := Palette.RoleValue(Palette.PaletteOf(v), role);
    Palette.AllValuesWellFormed(v, role);
    LowerHexColorIsCanonical(s);
  }

  /**
   * Dark: the background's channels (0x0f) are below the foreground's (0xe7);
   * Light: the background's (0xff) are above the foreground's (0x1b).
   */
  lemma BackgroundForegroundOrder(v: Palette.Variant)
    ensures HexToRgb(Palette.PaletteOf(v).background).Some?
    ensures HexToRgb(Palette.PaletteOf(v).foreground).Some?
    ensures v == Palette.Dark ==>
      HexToRgb(Palette.PaletteOf(v).background).value == Rgb(0x0f, 0x0f, 0x0f) &&
      HexToRgb(Palette.PaletteOf(v).foreground).value == Rgb(0xe7, 0xe7, 0xe7)
    ensures v == Palette.Light ==>
      HexToRgb(Palette.PaletteOf(v).background).value == Rgb(0xff, 0xff, 0xff) &&
      HexToRgb(Palette.PaletteOf(v).foreground).value == Rgb(0x1b, 0x1b, 0x1b)
  {
    if v == Palette.Dark {
      GrayValue(Palette.PaletteOf(v).background, '0', 'f');
      GrayValue(Palette.PaletteOf(v).foreground, 'e', '7');
    } else {
      GrayValue(Palette.PaletteOf(v).background, 'f', 'f');
      GrayValue(Palette.PaletteOf(v).foreground, '1', 'b');
    }
  }

  lemma GrayValue(s: string, hi: char, lo: char)
    requires IsHexDigit(hi) && IsHexDigit(lo) && s == ['#', hi, lo, hi, lo, hi, lo]
    ensures var v := HexDigitValue(hi) * 16 + HexDigitValue(lo); HexToRgb(s) == Some(Rgb(v, v, v))
  {
    GrayChannels(s, hi, lo);
    ParsesToChannels(s);
  }

  /** A grey `#hlhlhl` has three equal channels `16 * h + l`. */
  lemma GrayChannels(s: string, hi: char, lo: char)
    requires IsHexDigit(hi) && IsHexDigit(lo) && s == ['#', hi, lo, hi, lo, hi, lo]
    ensures IsHexInput(s)
    ensures var v := HexDigitValue(hi) * 16 + HexDigitValue(lo); ChannelsOf(s) == Rgb(v, v, v)
  {
    assert StripHash(s) == [hi, lo, hi, lo, hi, lo];
  }

  // ---------------------------------------------------------------------------
  // The conversion pair of the 256-colour generator

  /**
   * The two conversions `generate256Palette` composes: `rgbToLab(hexToRgb(hex))`
   * for its anchors and `rgbToHex(labToRgb(lab))` for every blended colour.
   */
  datatype Codec = Codec(toLab: string -> Option<Lab>, toHex: Lab -> string)

  /** The source's conversions, for a given `Math.pow` / `Math.cbrt`. */
  function SourceCodec(m: MathLib): Codec
  {
    Codec(hex => HexToLab(m, hex), lab => RgbToHex(LabToRgb(m, lab)))
  }

  /**
   * What the generator relies on: every well-formed `#rrggbb` converts, and
   * every converted colour is written as a well-formed `#rrggbb`.
   */
  ghost predicate Sound(k: Codec)
  {
    && (forall hex :: Palette.IsLowerHexColor(hex) ==> k.toLab(hex).Some?)
    && (forall lab :: Palette.IsLowerHexColor(k.toHex(lab)))
  }

  /** The source's conversions are sound, whatever `Math.pow` and `Math.cbrt` return. */
  lemma SourceCodecSound(m: MathLib)
    ensures Sound(SourceCodec(m))
  {
    var k := SourceCodec(m);
    forall hex | Palette.IsLowerHexColor(hex) ensures k.toLab(hex).Some? {
      LowerHexColorIsCanonical(hex);
    }
    forall lab ensures Palette.IsLowerHexColor(k.toHex(lab)) {
      RgbToHexFormat(LabToRgb(m, lab));
    }
  }
}
