// The Ghostty theme generator: the 16-slot base palette, the 256-colour
// synthesis (a 6x6x6 LAB cube and a 24-step ramp) and the theme document.
//
// The synthesis is stated for any `Codec` (the pair of colour conversions it
// composes); `Color.SourceCodec(m)` is the source's pair, and
// `Color.SourceCodecSound` proves it has the two properties used here.

module GhosttyTheme {
  import opened Wrappers
  import opened Text
  import opened Color
  import Palette

  // ---------------------------------------------------------------------------
  // Base-16 palette

  /** The semantic role behind each ANSI slot 0..15. */
  const Base16Roles: seq<Palette.Role> := [
    Palette.Surface, Palette.Red, Palette.Green, Palette.Yellow,
    Palette.Blue, Palette.Purple, Palette.Blue, Palette.Secondary,
    Palette.Muted, Palette.Orange, Palette.Green, Palette.Yellow,
    Palette.Blue, Palette.Purple, Palette.Blue, Palette.Foreground]

  /** The sixteen ANSI colours of a palette record, slot by slot. */
  function Base16Of(c: Palette.Colors): (r: seq<string>)
    ensures |r| == 16
    ensures forall i :: 0 <= i < 16 ==> r[i] == Palette.RoleValue(c, Base16Roles[i])
  {
    [c.surface, c.red, c.green, c.yellow, c.blue, c.purple, c.blue, c.secondary,
     c.muted, c.orange, c.green, c.yellow, c.blue, c.purple, c.blue, c.foreground]
  }

  /** `getBase16`: the variant's sixteen colours in ANSI slot order. */
  function GetBase16(v: Palette.Variant): (r: seq<string>)
    ensures |r| == 16
    ensures forall i :: 0 <= i < 16 ==> r[i] == Palette.RoleValue(Palette.PaletteOf(v), Base16Roles[i])
  {
    Base16Of(Palette.PaletteOf(v))
  }

  /**
   * Which slots each role fills: surface only 0 and foreground only 15;
   * blue exactly 4, 6, 12, 14; green 2, 10; yellow 3, 11; purple 5, 13;
   * red 1, secondary 7, muted 8, orange 9; background and highlight none.
   */
  lemma Base16Slots(i: nat)
    requires i < 16
    ensures Base16Roles[i] == Palette.Surface <==> i == 0
    ensures Base16Roles[i] == Palette.Foreground <==> i == 15
    ensures Base16Roles[i] == Palette.Blue <==> i in {4, 6, 12, 14}
    ensures Base16Roles[i] == Palette.Green <==> i in {2, 10}
    ensures Base16Roles[i] == Palette.Yellow <==> i in {3, 11}
    ensures Base16Roles[i] == Palette.Purple <==> i in {5, 13}
    ensures Base16Roles[i] == Palette.Red <==> i == 1
    ensures Base16Roles[i] == Palette.Secondary <==> i == 7
    ensures Base16Roles[i] == Palette.Muted <==> i == 8
    ensures Base16Roles[i] == Palette.Orange <==> i == 9
    ensures Base16Roles[i] != Palette.Background && Base16Roles[i] != Palette.Highlight
  {
  }

  // ---------------------------------------------------------------------------
  // 256-colour synthesis

  /** The LAB colours the cube is anchored on: bg, fg and `base16[1..6]`. */
  datatype Anchors = Anchors(bg: Lab, fg: Lab, c1: Lab, c2: Lab, c3: Lab, c4: Lab, c5: Lab, c6: Lab)

  /** Why no palette comes out. */
  datatype GenError =
    | MissingAnchor  // fewer than 7 base colours: the source reads a field of `undefined` and throws
    | NaNChannel     // a colour the cube needs does not parse: the source would go on with NaN

  datatype GenResult = Generated(values: seq<string>) | Failed(error: GenError)

  /** The anchors, if every colour the cube reads converts. */
  function AnchorsOf(k: Codec, base16: seq<string>, bg: string, fg: string): Option<Anchors>
    requires |base16| >= 7
  {
    var bgLab, fgLab := k.toLab(bg), k.toLab(fg);
    var l1, l2, l3 := k.toLab(base16[1]), k.toLab(base16[2]), k.toLab(base16[3]);
    var l4, l5, l6 := k.toLab(base16[4]), k.toLab(base16[5]), k.toLab(base16[6]);
    if bgLab.Some? && fgLab.Some? && l1.Some? && l2.Some? && l3.Some? && l4.Some? && l5.Some? && l6.Some?
    then Some(Anchors(bgLab.value, fgLab.value, l1.value, l2.value, l3.value, l4.value, l5.value, l6.value))
    else None
  }

  /** The fraction `n / 5` of a cube step. */
  function Step(n: nat): real
  {
    n as real / 5.0
  }

  /** The trilinear blend for cube point (r, g, b). */
  function CubeLab(a: Anchors, r: nat, g: nat, b: nat): Lab
  {
    var tr := Step(r);
    var c0 := LerpLab(tr, a.bg, a.c1);
    var c1 := LerpLab(tr, a.c2, a.c3);
    var c2 := LerpLab(tr, a.c4, a.c5);
    var c3 := LerpLab(tr, a.c6, a.fg);
    var c4 := LerpLab(Step(g), c0, c1);
    var c5 := LerpLab(Step(g), c2, c3);
    LerpLab(Step(b), c4, c5)
  }

  /** The fraction `(i + 1) / 25` of ramp step `i`. */
  function RampFraction(i: nat): real
  {
    (i + 1) as real / 25.0
  }

  /** Ramp step `i`: a blend from background to foreground. */
  function RampLab(a: Anchors, i: nat): Lab
  {
    LerpLab(RampFraction(i), a.bg, a.fg)
  }

  /** The written colour of each cube point. */
  function CubePoints(k: Codec, a: Anchors): (nat, nat, nat) -> string
  {
    (r: nat, g: nat, b: nat) => k.toHex(CubeLab(a, r, g, b))
  }

  /** A 6x6x6 grid flattened red-major: entry `n` is point (n / 36, n / 6 % 6, n % 6). */
  function Grid<T>(f: (nat, nat, nat) -> T): (s: seq<T>)
    ensures |s| == 216
  {
    seq(216, n requires 0 <= n < 216 => f(n / 36, n / 6 % 6, n % 6))
  }

  function Cube(k: Codec, a: Anchors): (s: seq<string>)
    ensures |s| == 216
  {
    Grid(CubePoints(k, a))
  }

  function Ramp(k: Codec, a: Anchors): (s: seq<string>)
    ensures |s| == 24
  {
    seq(24, i requires 0 <= i < 24 => k.toHex(RampLab(a, i)))
  }

  /** What `generate256Palette` computes. */
  function ExtendedPalette(k: Codec, base16: seq<string>, bg: string, fg: string): GenResult
  {
    if |base16| < 7 then Failed(MissingAnchor)
    else match AnchorsOf(k, base16, bg, fg)
      case None => Failed(NaNChannel)
      case Some(a) => Generated(base16 + Cube(k, a) + Ramp(k, a))
  }

  // The grid in the order the three nested loops visit it: `GridLine` holds
  // b = 0..n-1 of one (r, g), `GridPlane` the rows g = 0..n-1 of one r, and
  // `GridBlock` the planes r = 0..n-1.

  function GridLine<T>(f: (nat, nat, nat) -> T, r: nat, g: nat, n: nat): (s: seq<T>)
    ensures |s| == n
  {
    if n == 0 then [] else GridLine(f, r, g, n - 1) + [f(r, g, n - 1)]
  }

  function GridPlane<T>(f: (nat, nat, nat) -> T, r: nat, n: nat): (s: seq<T>)
    ensures |s| == 6 * n
  {
    if n == 0 then [] else GridPlane(f, r, n - 1) + GridLine(f, r, n - 1, 6)
  }

  function GridBlock<T>(f: (nat, nat, nat) -> T, n: nat): (s: seq<T>)
    ensures |s| == 36 * n
  {
    if n == 0 then [] else GridBlock(f, n - 1) + GridPlane(f, n - 1, 6)
  }

  lemma {:induction false} GridLineAt<T>(f: (nat, nat, nat) -> T, r: nat, g: nat, n: nat, j: nat)
    requires j < n
    ensures GridLine(f, r, g, n)[j] == f(r, g, j)
  {
    if j < n - 1 {
      GridLineAt(f, r, g, n - 1, j);
    }
  }

  lemma {:induction false} GridPlaneAt<T>(f: (nat, nat, nat) -> T, r: nat, n: nat, j: nat)
    requires j < 6 * n
    ensures GridPlane(f, r, n)[j] == f(r, j / 6, j % 6)
  {
    if j < 6 * (n - 1) {
      GridPlaneAt(f, r, n - 1, j);
    } else {
      var i := j - 6 * (n - 1);
      assert j / 6 == n - 1 && j % 6 == i;
      GridLineAt(f, r, n - 1, 6, i);
    }
  }

  lemma {:induction false} GridBlockAt<T>(f: (nat, nat, nat) -> T, n: nat, k: nat)
    requires k < 36 * n
    ensures GridBlock(f, n)[k] == f(k / 36, k / 6 % 6, k % 6)
  {
    if k < 36 * (n - 1) {
      GridBlockAt(f, n - 1, k);
    } else {
      var j := k - 36 * (n - 1);
      assert k / 36 == n - 1;
      assert k / 6 == 6 * (n - 1) + j / 6;
      assert k / 6 % 6 == j / 6 && k % 6 == j % 6;
      GridPlaneAt(f, n - 1, 6, j);
    }
  }

  /** Visiting the three loops in order produces exactly the grid. */
  lemma GridBlockIsGrid<T>(f: (nat, nat, nat) -> T)
    ensures GridBlock(f, 6) == Grid(f)
  {
    forall n | 0 <= n < 216 ensures GridBlock(f, 6)[n] == Grid(f)[n] {
      GridBlockAt(f, 6, n);
    }
  }

  lemma ConcatAssoc<T>(x: seq<T>, y: seq<T>, z: seq<T>)
    ensures x + y + z == x + (y + z)
  {
  }

  lemma CubeIndex(r: nat, g: nat, b: nat)
    requires r < 6 && g < 6 && b < 6
    ensures 36 * r + 6 * g + b < 216
    ensures (36 * r + 6 * g + b) / 36 == r
    ensures (36 * r + 6 * g + b) / 6 % 6 == g
    ensures (36 * r + 6 * g + b) % 6 == b
  {
    var n := 36 * r + 6 * g + b;
    assert n == 6 * (6 * r + g) + b;
    assert n / 6 == 6 * r + g;
  }

  /** The first `n` ramp entries. */
  function RampPrefix(k: Codec, a: Anchors, n: nat): (s: seq<string>)
    requires n <= 24
    ensures |s| == n
  {
    if n == 0 then [] else RampPrefix(k, a, n - 1) + [k.toHex(RampLab(a, n - 1))]
  }

  lemma {:induction false} RampPrefixIsRamp(k: Codec, a: Anchors, n: nat)
    requires n <= 24
    ensures RampPrefix(k, a, n) == Ramp(k, a)[..n]
  {
    if n > 0 {
      RampPrefixIsRamp(k, a, n - 1);
      assert Ramp(k, a)[..n] == Ramp(k, a)[..n - 1] + [Ramp(k, a)[n - 1]];
    }
  }

  /** The three nested loops of `generate256Palette`: append the cube, r slowest and b fastest. */
  method AppendCube(k: Codec, a: Anchors, start: seq<string>) returns (palette256: seq<string>)
    ensures palette256 == start + Cube(k, a)
  {
    palette256 := start;
    ghost var f := CubePoints(k, a);
    for r := 0 to 6
      invariant palette256 == start + GridBlock(f, r)
    {
      palette256 := AppendPlane(k, a, r, palette256);
      assert GridBlock(f, r + 1) == GridBlock(f, r) + GridPlane(f, r, 6);
      ConcatAssoc(start, GridBlock(f, r), GridPlane(f, r, 6));
    }
    GridBlockIsGrid(f);
  }

  /** One pass of the outer loop: the four red-axis blends, then the g and b loops. */
  method AppendPlane(k: Codec, a: Anchors, r: nat, start: seq<string>) returns (palette256: seq<string>)
    ensures palette256 == start + GridPlane(CubePoints(k, a), r, 6)
  {
    palette256 := start;
    ghost var f := CubePoints(k, a);
    var tr := Step(r);
    var c0 := LerpLab(tr, a.bg, a.c1);
    var c1 := LerpLab(tr, a.c2, a.c3);
    var c2 := LerpLab(tr, a.c4, a.c5);
    var c3 := LerpLab(tr, a.c6, a.fg);
    for g := 0 to 6
      invariant palette256 == start + GridPlane(f, r, g)
    {
      var tg := Step(g);
      var c4 := LerpLab(tg, c0, c1);
      var c5 := LerpLab(tg, c2, c3);
      ghost var row := palette256;
      for b := 0 to 6
        invariant palette256 == row + GridLine(f, r, g, b)
      {
        var c6 := LerpLab(Step(b), c4, c5);
        assert c6 == CubeLab(a, r, g, b);
        assert GridLine(f, r, g, b + 1) == GridLine(f, r, g, b) + [k.toHex(c6)];
        ConcatAssoc(row, GridLine(f, r, g, b), [k.toHex(c6)]);
        palette256 := palette256 + [k.toHex(c6)];
      }
      assert GridPlane(f, r, g + 1) == GridPlane(f, r, g) + GridLine(f, r, g, 6);
      ConcatAssoc(start, GridPlane(f, r, g), GridLine(f, r, g, 6));
    }
  }

  /** The last loop of `generate256Palette`: append the 24-step ramp. */
  method AppendRamp(k: Codec, a: Anchors, start: seq<string>) returns (palette256: seq<string>)
    ensures palette256 == start + Ramp(k, a)
  {
    palette256 := start;
    for i := 0 to 24
      invariant palette256 == start + RampPrefix(k, a, i)
    {
      var t := RampFraction(i);
      palette256 := palette256 + [k.toHex(LerpLab(t, a.bg, a.fg))];
    }
    RampPrefixIsRamp(k, a, 24);
  }

  /**
   * `generate256Palette`: copies `base16`, converts the anchors, then
   * appends the 216 cube colours and the 24 ramp colours.
   */
  method Generate256Palette(k: Codec, base16: seq<string>, bg: string, fg: string)
    returns (result: GenResult)
    ensures result == ExtendedPalette(k, base16, bg, fg)
  {
    var palette256 := base16;
    var base8Lab := seq(if |base16| < 8 then |base16| else 8,
                        i requires 0 <= i < |base16| => k.toLab(base16[i]));
    var bgLab := k.toLab(bg);
    var fgLab := k.toLab(fg);
    if |base16| < 7 {
      return Failed(MissingAnchor);
    }
    if !(bgLab.Some? && fgLab.Some? && base8Lab[1].Some? && base8Lab[2].Some? && base8Lab[3].Some?
         && base8Lab[4].Some? && base8Lab[5].Some? && base8Lab[6].Some?) {
      return Failed(NaNChannel);
    }
    var a := Anchors(bgLab.value, fgLab.value, base8Lab[1].value, base8Lab[2].value,
                     base8Lab[3].value, base8Lab[4].value, base8Lab[5].value, base8Lab[6].value);
    assert AnchorsOf(k, base16, bg, fg) == Some(a);
    palette256 := AppendCube(k, a, palette256);
    palette256 := AppendRamp(k, a, palette256);
    return Generated(palette256);
  }

  // ---------------------------------------------------------------------------
  // Properties of the synthesis

  /** The palette is generated exactly when the anchors exist, and is then the input, the cube and the ramp. */
  lemma ExtendedPaletteCases(k: Codec, base16: seq<string>, bg: string, fg: string)
    ensures ExtendedPalette(k, base16, bg, fg).Generated? <==> |base16| >= 7 && AnchorsOf(k, base16, bg, fg).Some?
    ensures |base16| < 7 ==> ExtendedPalette(k, base16, bg, fg) == Failed(MissingAnchor)
    ensures ExtendedPalette(k, base16, bg, fg).Generated? ==>
      ExtendedPalette(k, base16, bg, fg).values
        == base16 + Cube(k, AnchorsOf(k, base16, bg, fg).value) + Ramp(k, AnchorsOf(k, base16, bg, fg).value)
  {
  }

  /** A generated palette is the input verbatim followed by 240 more entries: 256 for a 16-colour input. */
  lemma ExtendedPaletteLength(k: Codec, base16: seq<string>, bg: string, fg: string)
    requires ExtendedPalette(k, base16, bg, fg).Generated?
    ensures |ExtendedPalette(k, base16, bg, fg).values| == |base16| + 240
    ensures ExtendedPalette(k, base16, bg, fg).values[..|base16|] == base16
  {
    ExtendedPaletteCases(k, base16, bg, fg);
  }

  /**
   * The 240 synthesised entries: cube point (r, g, b) at `36r + 6g + b`,
   * then ramp step i at `216 + i`.
   */
  lemma ExtensionShape(k: Codec, a: Anchors)
    ensures |Cube(k, a) + Ramp(k, a)| == 240
    ensures forall r: nat, g: nat, b: nat {:trigger CubeLab(a, r, g, b)} ::
      r < 6 && g < 6 && b < 6 ==>
        36 * r + 6 * g + b < 216 && (Cube(k, a) + Ramp(k, a))[36 * r + 6 * g + b] == k.toHex(CubeLab(a, r, g, b))
    ensures forall i :: 0 <= i < 24 ==> (Cube(k, a) + Ramp(k, a))[216 + i] == k.toHex(RampLab(a, i))
  {
    forall r: nat, g: nat, b: nat | r < 6 && g < 6 && b < 6
      ensures 36 * r + 6 * g + b < 216 && (Cube(k, a) + Ramp(k, a))[36 * r + 6 * g + b] == k.toHex(CubeLab(a, r, g, b))
    {
      CubeIndex(r, g, b);
    }
  }

  /** With a sound codec every synthesised entry is a well-formed lower-case `#rrggbb` colour. */
  lemma ExtensionWellFormed(k: Codec, a: Anchors, n: nat)
    requires Sound(k) && n < 240
    ensures Palette.IsLowerHexColor((Cube(k, a) + Ramp(k, a))[n])
  {
    var h: string;
    if n < 216 {
      h := k.toHex(CubeLab(a, n / 36, n / 6 % 6, n % 6));
      assert (Cube(k, a) + Ramp(k, a))[n] == Cube(k, a)[n] == h;
    } else {
      h := k.toHex(RampLab(a, n - 216));
      assert (Cube(k, a) + Ramp(k, a))[n] == Ramp(k, a)[n - 216] == h;
    }
    assert Palette.IsLowerHexColor(h);
  }

  /**
   * Entries after the input depend on `base16[1..6]`, bg and fg only:
   * `base16[0]`, `base16[7]` and the rest are converted or copied but unused.
   */
  lemma OnlyAnchorsInfluenceExtension(k: Codec, b1: seq<string>, b2: seq<string>, bg: string, fg: string)
    requires |b1| >= 7 && |b2| >= 7 && b1[1..7] == b2[1..7]
    ensures ExtendedPalette(k, b1, bg, fg).Generated? == ExtendedPalette(k, b2, bg, fg).Generated?
    ensures ExtendedPalette(k, b1, bg, fg).Generated? ==>
      ExtendedPalette(k, b1, bg, fg).values[|b1|..] == ExtendedPalette(k, b2, bg, fg).values[|b2|..]
  {
    assert b1[1] == b1[1..7][0] && b1[2] == b1[1..7][1] && b1[3] == b1[1..7][2];
    assert b1[4] == b1[1..7][3] && b1[5] == b1[1..7][4] && b1[6] == b1[1..7][5];
    assert AnchorsOf(k, b1, bg, fg) == AnchorsOf(k, b2, bg, fg);
    if ExtendedPalette(k, b1, bg, fg).Generated? {
      var a := AnchorsOf(k, b1, bg, fg).value;
      assert ExtendedPalette(k, b1, bg, fg).values[|b1|..] == Cube(k, a) + Ramp(k, a);
      assert ExtendedPalette(k, b2, bg, fg).values[|b2|..] == Cube(k, a) + Ramp(k, a);
    }
  }

  /**
   * The eight cube corners are the anchors themselves: (0,0,0) background,
   * (5,0,0) `base16[1]`, (0,5,0) `base16[2]`, (5,5,0) `base16[3]`,
   * (0,0,5) `base16[4]`, (5,0,5) `base16[5]`, (0,5,5) `base16[6]`,
   * (5,5,5) foreground.
   */
  lemma CubeCorners(a: Anchors)
    ensures CubeLab(a, 0, 0, 0) == a.bg
    ensures CubeLab(a, 5, 0, 0) == a.c1
    ensures CubeLab(a, 0, 5, 0) == a.c2
    ensures CubeLab(a, 5, 5, 0) == a.c3
    ensures CubeLab(a, 0, 0, 5) == a.c4
    ensures CubeLab(a, 5, 0, 5) == a.c5
    ensures CubeLab(a, 0, 5, 5) == a.c6
    ensures CubeLab(a, 5, 5, 5) == a.fg
  {
    assert Step(0) == 0.0 && Step(5) == 1.0;
  }

  /**
   * The ramp runs strictly inside (0, 1), and its LAB lightness moves
   * monotonically from background towards foreground: non-decreasing when
   * the background is darker, non-increasing when it is lighter.
   */
  lemma RampLightnessMonotone(a: Anchors, i: nat, j: nat)
    requires i <= j < 24
    ensures 0.0 < RampFraction(i) < 1.0
    ensures a.bg.l <= a.fg.l ==> RampLab(a, i).l <= RampLab(a, j).l
    ensures a.bg.l >= a.fg.l ==> RampLab(a, i).l >= RampLab(a, j).l
  {
    assert RampFraction(i) <= RampFraction(j);
    LerpLightnessMonotone(RampFraction(i), RampFraction(j), a.bg, a.fg);
  }

  /** Blending further along moves the lightness further from `start` towards `end`. */
  lemma LerpLightnessMonotone(ti: real, tj: real, start: Lab, end: Lab)
    requires ti <= tj
    ensures start.l <= end.l ==> LerpLab(ti, start, end).l <= LerpLab(tj, start, end).l
    ensures start.l >= end.l ==> LerpLab(ti, start, end).l >= LerpLab(tj, start, end).l
  {
    var d := end.l - start.l;
    assert LerpLab(ti, start, end).l == start.l + ti * d;
    assert LerpLab(tj, start, end).l == start.l + tj * d;
    MulSign(ti, tj, d);
  }

  /** `x * d` and `y * d` are ordered as `x` and `y` when `d >= 0`, reversed when `d <= 0`. */
  lemma MulSign(x: real, y: real, d: real)
    requires x <= y
    ensures d >= 0.0 ==> x * d <= y * d
    ensures d <= 0.0 ==> x * d >= y * d
  {
    assert y * d - x * d == (y - x) * d;
    if d >= 0.0 {
      assert (y - x) * d >= 0.0;
    }
    if d <= 0.0 {
      assert (y - x) * (-d) >= 0.0;
      assert (y - x) * d <= 0.0;
    }
  }

  /** With a sound codec, the anchors exist once bg, fg and `base16[1..6]` are well-formed colours. */
  lemma AnchorsExist(k: Codec, base16: seq<string>, bg: string, fg: string)
    requires Sound(k) && |base16| >= 7
    requires Palette.IsLowerHexColor(bg) && Palette.IsLowerHexColor(fg)
    requires forall i :: 1 <= i < 7 ==> Palette.IsLowerHexColor(base16[i])
    ensures ExtendedPalette(k, base16, bg, fg).Generated?
  {
    assert Palette.IsLowerHexColor(base16[1]) && Palette.IsLowerHexColor(base16[2]);
    assert Palette.IsLowerHexColor(base16[3]) && Palette.IsLowerHexColor(base16[4]);
    assert Palette.IsLowerHexColor(base16[5]) && Palette.IsLowerHexColor(base16[6]);
  }

  /** Every colour of a palette record is a lower-case `#rrggbb` value. */
  predicate WellFormedColors(c: Palette.Colors)
  {
    forall role: Palette.Role :: Palette.IsLowerHexColor(Palette.RoleValue(c, role))
  }

  lemma VariantWellFormed(v: Palette.Variant)
    ensures WellFormedColors(Palette.PaletteOf(v))
  {
    forall role: Palette.Role ensures Palette.IsLowerHexColor(Palette.RoleValue(Palette.PaletteOf(v), role)) {
      Palette.AllValuesWellFormed(v, role);
    }
  }

  /** A well-formed palette record always produces the extended palette. */
  lemma WellFormedGenerates(k: Codec, c: Palette.Colors)
    requires Sound(k) && WellFormedColors(c)
    ensures ExtendedPalette(k, Base16Of(c), c.background, c.foreground).Generated?
  {
    var base16 := Base16Of(c);
    forall i | 1 <= i < 7 ensures Palette.IsLowerHexColor(base16[i]) {
      assert base16[i] == Palette.RoleValue(c, Base16Roles[i]);
    }
    assert Palette.IsLowerHexColor(Palette.RoleValue(c, Palette.Background));
    assert Palette.IsLowerHexColor(Palette.RoleValue(c, Palette.Foreground));
    AnchorsExist(k, base16, c.background, c.foreground);
  }

  /** Both variants always produce the extended palette, of 256 entries. */
  lemma VariantGenerates(k: Codec, v: Palette.Variant)
    requires Sound(k)
    ensures var p := Palette.PaletteOf(v);
      && ExtendedPalette(k, GetBase16(v), p.background, p.foreground).Generated?
      && |ExtendedPalette(k, GetBase16(v), p.background, p.foreground).values| == 256
  {
    var p := Palette.PaletteOf(v);
    VariantWellFormed(v);
    WellFormedGenerates(k, p);
    ExtendedPaletteLength(k, GetBase16(v), p.background, p.foreground);
  }

  // ---------------------------------------------------------------------------
  // Theme document

  datatype ThemeOptions = ThemeOptions(includeExtendedPalette: bool, enablePaletteGenerate: bool)

  const GenerateLine: string := "palette-generate = true"
  const PalettePrefix: string := "palette = "
  const AnsiComment: string := "# ANSI colors (0-15)"
  const ExtendedComment: string := "# Extended colors (16-255), " + "generated from ANSI colors in CIELAB"

  /** `palette = <i>=<value>`, the index in decimal. */
  function PaletteLine(i: nat, value: string): string
  {
    PalettePrefix + NatToString(i) + "=" + value
  }

  function VariantTitle(v: Palette.Variant): string
  {
    if v == Palette.Dark then "Dark" else "Light"
  }

  /** The comment and colour-declaration lines that open every theme. */
  function HeaderLines(v: Palette.Variant): seq<string>
  {
    var p := Palette.PaletteOf(v);
    ["# Scalar " + VariantTitle(v) + " - Ghostty Theme",
     "# Based on the Scalar default theme palette",
     "# https://github.com/scalar/scalar",
     "",
     "background = " + p.background,
     "foreground = " + p.foreground,
     "cursor-color = " + p.foreground,
     "cursor-text = " + p.background,
     "selection-background = " + p.highlight,
     "selection-foreground = " + p.foreground]
  }

  /** How many colours the document lists. */
  function ListedCount(o: ThemeOptions): nat
  {
    if o.includeExtendedPalette then 256 else 16
  }

  /** The `palette = i=...` lines for indices lo..hi-1. */
  function IndexedLines(values: seq<string>, lo: nat, hi: nat): (s: seq<string>)
    requires lo <= hi <= |values|
    ensures |s| == hi - lo
  {
    seq(hi - lo, j requires 0 <= j < hi - lo => PaletteLine(lo + j, values[lo + j]))
  }

  lemma IndexedLinesSplit(values: seq<string>, lo: nat, mid: nat, hi: nat)
    requires lo <= mid <= hi <= |values|
    ensures IndexedLines(values, lo, mid) + IndexedLines(values, mid, hi) == IndexedLines(values, lo, hi)
  {
  }

  lemma IndexedLinesSnoc(values: seq<string>, lo: nat, hi: nat)
    requires lo <= hi < |values|
    ensures IndexedLines(values, lo, hi + 1) == IndexedLines(values, lo, hi) + [PaletteLine(hi, values[hi])]
  {
  }

  /** The generate-flag line, when requested. */
  function GeneratePart(o: ThemeOptions): seq<string>
  {
    if o.enablePaletteGenerate then [GenerateLine] else []
  }

  /** The extended block: a blank line, its comment and indices 16..255, when included. */
  function ExtendedPart(o: ThemeOptions, values: seq<string>): seq<string>
    requires |values| >= ListedCount(o)
  {
    if o.includeExtendedPalette then ["", ExtendedComment] + IndexedLines(values, 16, 256) else []
  }

  /** The header, the optional generate flag, a blank line and the ANSI comment. */
  function Opening(header: seq<string>, o: ThemeOptions): seq<string>
  {
    header + GeneratePart(o) + ["", AnsiComment]
  }

  /** The lines of a document that opens with `header` and lists `values`. */
  function Assemble(header: seq<string>, o: ThemeOptions, values: seq<string>): seq<string>
    requires |values| >= ListedCount(o)
  {
    Opening(header, o) + IndexedLines(values, 0, 16) + ExtendedPart(o, values) + [""]
  }

  /** The lines of the variant's document listing `values`. */
  function DocumentLines(v: Palette.Variant, o: ThemeOptions, values: seq<string>): seq<string>
    requires |values| >= ListedCount(o)
  {
    Assemble(HeaderLines(v), o, values)
  }

  /** The colours `createGhosttyTheme` lists: the 256-colour palette, or the base 16. */
  function PaletteValues(k: Codec, v: Palette.Variant, o: ThemeOptions): (values: seq<string>)
    requires Sound(k)
    ensures |values| == ListedCount(o)
  {
    var p := Palette.PaletteOf(v);
    if o.includeExtendedPalette then
      VariantGenerates(k, v);
      ExtendedPalette(k, GetBase16(v), p.background, p.foreground).values
    else GetBase16(v)
  }

  /** The lines `createGhosttyTheme` joins. */
  function ThemeLines(k: Codec, v: Palette.Variant, o: ThemeOptions): seq<string>
    requires Sound(k)
  {
    DocumentLines(v, o, PaletteValues(k, v, o))
  }

  /** The ANSI block of `createGhosttyTheme`: a blank line, its comment and the loop over 0..15. */
  method AppendAnsi(start: seq<string>, paletteValues: seq<string>) returns (lines: seq<string>)
    requires |paletteValues| >= 16
    ensures lines == start + ["", AnsiComment] + IndexedLines(paletteValues, 0, 16)
  {
    lines := start + [""];
    lines := lines + [AnsiComment];
    ghost var opening := lines;
    for i := 0 to 16
      invariant lines == opening + IndexedLines(paletteValues, 0, i)
    {
      IndexedLinesSnoc(paletteValues, 0, i);
      lines := lines + [PaletteLine(i, paletteValues[i])];
    }
  }

  /** The extended block of `createGhosttyTheme`: a blank line, its comment and the loop over 16..255. */
  method AppendExtended(start: seq<string>, paletteValues: seq<string>) returns (lines: seq<string>)
    requires |paletteValues| >= 256
    ensures lines == start + ["", ExtendedComment] + IndexedLines(paletteValues, 16, 256)
  {
    lines := start + [""];
    lines := lines + [ExtendedComment];
    ghost var opening := lines;
    for i := 16 to 256
      invariant lines == opening + IndexedLines(paletteValues, 16, i)
    {
      IndexedLinesSnoc(paletteValues, 16, i);
      lines := lines + [PaletteLine(i, paletteValues[i])];
    }
  }

  /** The line-building part of `createGhosttyTheme` after the header. */
  method AppendBody(header: seq<string>, o: ThemeOptions, paletteValues: seq<string>) returns (lines: seq<string>)
    requires |paletteValues| >= ListedCount(o)
    ensures lines == Assemble(header, o, paletteValues)
  {
    lines := header;
    if o.enablePaletteGenerate {
      lines := lines + [GenerateLine];
    }
    assert lines == header + GeneratePart(o);
    lines := AppendAnsi(lines, paletteValues);
    assert lines == Opening(header, o) + IndexedLines(paletteValues, 0, 16);
    ghost var ansi := lines;
    if o.includeExtendedPalette {
      lines := AppendExtended(lines, paletteValues);
    }
    assert lines == ansi + ExtendedPart(o, paletteValues);
    lines := lines + [""];
  }

  /** The header, the body and the final join of `createGhosttyTheme`. */
  method RenderTheme(v: Palette.Variant, o: ThemeOptions, paletteValues: seq<string>) returns (text: string)
    requires |paletteValues| >= ListedCount(o)
    ensures text == Join(DocumentLines(v, o, paletteValues), "\n")
  {
    var lines := AppendBody(HeaderLines(v), o, paletteValues);
    text := Join(lines, "\n");
  }

  /** `createGhosttyTheme` with the source's colour conversions. */
  method CreateGhosttyTheme(m: MathLib, v: Palette.Variant, o: ThemeOptions) returns (text: string)
    ensures Sound(SourceCodec(m))
    ensures text == Join(ThemeLines(SourceCodec(m), v, o), "\n")
  {
    var k := SourceCodec(m);
    SourceCodecSound(m);
    var p := Palette.PaletteOf(v);
    var base16 := GetBase16(v);
    var paletteValues: seq<string>;
    if o.includeExtendedPalette {
      var generated := Generate256Palette(k, base16, p.background, p.foreground);
      VariantGenerates(k, v);
      paletteValues := generated.values;
    } else {
      paletteValues := base16;
    }
    assert paletteValues == PaletteValues(k, v, o);
    text := RenderTheme(v, o, paletteValues);
  }

  // ---------------------------------------------------------------------------
  // Properties of the document

  /** The lines that start with `palette = `, in order. */
  function PaletteLinesOf(lines: seq<string>): (r: seq<string>)
    ensures |r| <= |lines|
  {
    if lines == [] then []
    else (if StartsWith(lines[0], PalettePrefix) then [lines[0]] else []) + PaletteLinesOf(lines[1..])
  }

  /** How many lines equal `line`. */
  function CountLine(lines: seq<string>, line: string): nat
  {
    if lines == [] then 0
    else (if lines[0] == line then 1 else 0) + CountLine(lines[1..], line)
  }

  lemma {:induction false} PaletteLinesOfConcat(a: seq<string>, b: seq<string>)
    ensures PaletteLinesOf(a + b) == PaletteLinesOf(a) + PaletteLinesOf(b)
  {
    if a != [] {
      assert (a + b)[1..] == a[1..] + b;
      PaletteLinesOfConcat(a[1..], b);
    } else {
      assert a + b == b;
    }
  }

  lemma {:induction false} CountLineConcat(a: seq<string>, b: seq<string>, line: string)
    ensures CountLine(a + b, line) == CountLine(a, line) + CountLine(b, line)
  {
    if a != [] {
      assert (a + b)[1..] == a[1..] + b;
      CountLineConcat(a[1..], b, line);
    } else {
      assert a + b == b;
    }
  }

  lemma PaletteLineShape(i: nat, value: string)
    ensures StartsWith(PaletteLine(i, value), PalettePrefix)
    ensures PaletteLine(i, value) != GenerateLine
  {
    var s := PaletteLine(i, value);
    assert s[..|PalettePrefix|] == PalettePrefix;
    assert s[7] == ' ' && GenerateLine[7] == '-';
  }

  /** Indexed lines all start with `palette = ` and none is the generate flag. */
  lemma {:induction false} IndexedLinesFacts(values: seq<string>, lo: nat, hi: nat)
    requires lo <= hi <= |values|
    ensures PaletteLinesOf(IndexedLines(values, lo, hi)) == IndexedLines(values, lo, hi)
    ensures CountLine(IndexedLines(values, lo, hi), GenerateLine) == 0
    decreases hi - lo
  {
    var s := IndexedLines(values, lo, hi);
    if lo < hi {
      PaletteLineShape(lo, values[lo]);
      IndexedLinesFacts(values, lo + 1, hi);
      assert s[1..] == IndexedLines(values, lo + 1, hi);
    }
  }

  /** Lines none of which starts with `palette = ` or is the generate flag. */
  predicate Plain(h: seq<string>)
  {
    forall j :: 0 <= j < |h| ==> !StartsWith(h[j], PalettePrefix) && h[j] != GenerateLine
  }

  lemma {:induction false} PlainFacts(h: seq<string>)
    requires Plain(h)
    ensures PaletteLinesOf(h) == [] && CountLine(h, GenerateLine) == 0
  {
    if h != [] {
      PlainFacts(h[1..]);
    }
  }

  /** A line that begins with a character other than `p` is plain. */
  lemma NotPaletteLine(s: string)
    requires s == [] || s[0] != 'p'
    ensures !StartsWith(s, PalettePrefix) && s != GenerateLine
  {
  }

  lemma HeaderLinesPlain(v: Palette.Variant)
    ensures Plain(HeaderLines(v))
  {
    var h := HeaderLines(v);
    forall j | 0 <= j < |h| ensures !StartsWith(h[j], PalettePrefix) && h[j] != GenerateLine {
      NotPaletteLine(h[j]);
    }
  }

  /** The two comment blocks and the closing empty line are plain. */
  lemma CommentLinesPlain()
    ensures Plain(["", AnsiComment]) && Plain(["", ExtendedComment]) && Plain([""])
  {
    NotPaletteLine("");
    NotPaletteLine(AnsiComment);
    NotPaletteLine(ExtendedComment);
    var a: seq<string> := ["", AnsiComment];
    var e: seq<string> := ["", ExtendedComment];
    assert a[0] == "" && a[1] == AnsiComment;
    assert e[0] == "" && e[1] == ExtendedComment;
  }

  /** `PaletteLinesOf` and `CountLine` of the four parts of an assembled document. */
  lemma FourParts(a: seq<string>, b: seq<string>, c: seq<string>, d: seq<string>)
    ensures PaletteLinesOf(a + b + c + d)
      == PaletteLinesOf(a) + PaletteLinesOf(b) + PaletteLinesOf(c) + PaletteLinesOf(d)
    ensures CountLine(a + b + c + d, GenerateLine)
      == CountLine(a, GenerateLine) + CountLine(b, GenerateLine) + CountLine(c, GenerateLine)
       + CountLine(d, GenerateLine)
  {
    PaletteLinesOfConcat(a, b);
    PaletteLinesOfConcat(a + b, c);
    PaletteLinesOfConcat(a + b + c, d);
    CountLineConcat(a, b, GenerateLine);
    CountLineConcat(a + b, c, GenerateLine);
    CountLineConcat(a + b + c, d, GenerateLine);
  }

  lemma GeneratePartFacts(o: ThemeOptions)
    ensures PaletteLinesOf(GeneratePart(o)) == []
    ensures CountLine(GeneratePart(o), GenerateLine) == if o.enablePaletteGenerate then 1 else 0
  {
    if o.enablePaletteGenerate {
      assert GenerateLine[7] != PalettePrefix[7];
      assert GeneratePart(o)[1..] == [];
    }
  }

  lemma ExtendedPartFacts(o: ThemeOptions, values: seq<string>)
    requires |values| >= ListedCount(o)
    ensures PaletteLinesOf(ExtendedPart(o, values)) == if o.includeExtendedPalette then IndexedLines(values, 16, 256) else []
    ensures CountLine(ExtendedPart(o, values), GenerateLine) == 0
  {
    if o.includeExtendedPalette {
      CommentLinesPlain();
      PlainFacts(["", ExtendedComment]);
      PaletteLinesOfConcat(["", ExtendedComment], IndexedLines(values, 16, 256));
      CountLineConcat(["", ExtendedComment], IndexedLines(values, 16, 256), GenerateLine);
      IndexedLinesFacts(values, 16, 256);
    }
  }

  /** Behind a plain header the opening has no `palette = ` line, and the flag once exactly when requested. */
  lemma OpeningFacts(h: seq<string>, o: ThemeOptions)
    requires Plain(h)
    ensures PaletteLinesOf(Opening(h, o)) == []
    ensures CountLine(Opening(h, o), GenerateLine) == if o.enablePaletteGenerate then 1 else 0
  {
    CommentLinesPlain();
    PlainFacts(h);
    PlainFacts(["", AnsiComment]);
    GeneratePartFacts(o);
    PaletteLinesOfConcat(h, GeneratePart(o));
    PaletteLinesOfConcat(h + GeneratePart(o), ["", AnsiComment]);
    CountLineConcat(h, GeneratePart(o), GenerateLine);
    CountLineConcat(h + GeneratePart(o), ["", AnsiComment], GenerateLine);
  }

  /**
   * Behind a plain header, the `palette = ` lines of an assembled document
   * are `palette = i=<values[i]>` for i in ascending order, 0..15 or 0..255.
   */
  lemma AssemblePaletteLines(h: seq<string>, o: ThemeOptions, values: seq<string>)
    requires Plain(h) && |values| >= ListedCount(o)
    ensures PaletteLinesOf(Assemble(h, o, values)) == IndexedLines(values, 0, ListedCount(o))
  {
    var ansi := IndexedLines(values, 0, 16);
    CommentLinesPlain();
    PlainFacts([""]);
    OpeningFacts(h, o);
    ExtendedPartFacts(o, values);
    IndexedLinesFacts(values, 0, 16);
    FourParts(Opening(h, o), ansi, ExtendedPart(o, values), [""]);
    if o.includeExtendedPalette {
      IndexedLinesSplit(values, 0, 16, 256);
    }
  }

  /** The generate flag appears in an assembled document behind a plain header once exactly when requested. */
  lemma AssembleGenerateFlag(h: seq<string>, o: ThemeOptions, values: seq<string>)
    requires Plain(h) && |values| >= ListedCount(o)
    ensures CountLine(Assemble(h, o, values), GenerateLine) == if o.enablePaletteGenerate then 1 else 0
  {
    CommentLinesPlain();
    PlainFacts([""]);
    OpeningFacts(h, o);
    ExtendedPartFacts(o, values);
    IndexedLinesFacts(values, 0, 16);
    FourParts(Opening(h, o), IndexedLines(values, 0, 16), ExtendedPart(o, values), [""]);
  }

  /** An assembled document starts with its header and ends with an empty line. */
  lemma AssembleShape(h: seq<string>, o: ThemeOptions, values: seq<string>)
    requires |values| >= ListedCount(o)
    ensures var lines := Assemble(h, o, values);
      && |lines| >= |h| + 2 && lines[..|h|] == h && lines[|lines| - 1] == []
  {
  }

  /**
   * The document lists `palette = i=<values[i]>` for i = 0..15 in ascending
   * order, followed by 16..255 exactly when the extended palette is
   * included, and no other `palette = ` line; `palette-generate = true`
   * appears once when requested and never otherwise.
   */
  lemma DocumentPaletteLines(v: Palette.Variant, o: ThemeOptions, values: seq<string>)
    requires |values| >= ListedCount(o)
    ensures PaletteLinesOf(DocumentLines(v, o, values)) == IndexedLines(values, 0, ListedCount(o))
    ensures CountLine(DocumentLines(v, o, values), GenerateLine) == if o.enablePaletteGenerate then 1 else 0
  {
    HeaderLinesPlain(v);
    AssemblePaletteLines(HeaderLines(v), o, values);
    AssembleGenerateFlag(HeaderLines(v), o, values);
  }

  /** The joined text of an assembled document ends with a newline. */
  lemma AssembleEndsWithNewline(h: seq<string>, o: ThemeOptions, values: seq<string>)
    requires |values| >= ListedCount(o)
    ensures var text := Join(Assemble(h, o, values), "\n"); |text| >= 1 && text[|text| - 1] == '\n'
  {
    AssembleShape(h, o, values);
    JoinEndsWithSeparator(Assemble(h, o, values), "\n");
  }

  /**
   * The cursor is drawn in the foreground colour with background-coloured
   * text, and the document ends with a newline.
   */
  lemma DocumentCursorAndEnding(v: Palette.Variant, o: ThemeOptions, values: seq<string>)
    requires |values| >= ListedCount(o)
    ensures "cursor-color = " + Palette.PaletteOf(v).foreground in DocumentLines(v, o, values)
    ensures "cursor-text = " + Palette.PaletteOf(v).background in DocumentLines(v, o, values)
    ensures var text := Join(DocumentLines(v, o, values), "\n"); |text| >= 1 && text[|text| - 1] == '\n'
  {
    var h := HeaderLines(v);
    var lines := DocumentLines(v, o, values);
    AssembleShape(h, o, values);
    assert lines[6] == lines[..|h|][6] == h[6];
    assert lines[7] == lines[..|h|][7] == h[7];
    AssembleEndsWithNewline(h, o, values);
  }
}
