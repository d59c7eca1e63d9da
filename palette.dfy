// The Scalar-derived named palette: two variants, twelve semantic roles each.

module Palette {

  datatype Variant = Light | Dark

  /** The twelve semantic roles every variant defines. */
  datatype Role =
    | Background | Surface | Highlight | Foreground | Secondary | Muted
    | Green | Red | Yellow | Blue | Orange | Purple

  /** One variant's colours, each a `#rrggbb` string. */
  datatype Colors = Colors(
    background: string, surface: string, highlight: string, foreground: string,
    secondary: string, muted: string, green: string, red: string,
    yellow: string, blue: string, orange: string, purple: string)

  const AllVariants: seq<Variant> := [Light, Dark]

  const AllRoles: seq<Role> :=
    [Background, Surface, Highlight, Foreground, Secondary, Muted,
     Green, Red, Yellow, Blue, Orange, Purple]

  /** The constant `palette` table, indexed by variant. */
  function PaletteOf(v: Variant): Colors
  {
    match v
    case Light =>
      Colors(
        background := "#ffffff", surface := "#f6f6f6", highlight := "#e7e7e7",
        foreground := "#1b1b1b", secondary := "#757575", muted := "#7d7d7d",
        green := "#078657", red := "#ef0006", yellow := "#987100",
        blue := "#007ac2", orange := "#cc4700", purple := "#5203d1")
    case Dark =>
      Colors(
        background := "#0f0f0f", surface := "#1a1a1a", highlight := "#272727",
        foreground := "#e7e7e7", secondary := "#a4a4a4", muted := "#797979",
        green := "#00b648", red := "#e53b39", yellow := "#ffc90d",
        blue := "#4eb3ec", orange := "#ff8d4d", purple := "#b191f9")
  }

  /** Looks a role up in a variant's record (`palette[variant][role]`). */
  function RoleValue(c: Colors, role: Role): string
  {
    match role
    case Background => c.background
    case Surface => c.surface
    case Highlight => c.highlight
    case Foreground => c.foreground
    case Secondary => c.secondary
    case Muted => c.muted
    case Green => c.green
    case Red => c.red
    case Yellow => c.yellow
    case Blue => c.blue
    case Orange => c.orange
    case Purple => c.purple
  }

  /** `#` followed by exactly six lower-case hexadecimal digits. */
  predicate IsLowerHexColor(s: string)
  {
    |s| == 7 && s[0] == '#'
    && forall i :: 1 <= i < 7 ==> (('0' <= s[i] <= '9') || ('a' <= s[i] <= 'f'))
  }

  /** The position of a role in `AllRoles`. */
  function RoleIndex(r: Role): (i: nat)
    ensures i < |AllRoles| && AllRoles[i] == r
  {
    match r
    case Background => 0 case Surface => 1 case Highlight => 2 case Foreground => 3
    case Secondary => 4 case Muted => 5 case Green => 6 case Red => 7
    case Yellow => 8 case Blue => 9 case Orange => 10 case Purple => 11
  }

  /** Exactly two variants, and the role list names twelve distinct roles. */
  lemma VariantsAndRoles()
    ensures forall v: Variant :: v in AllVariants
    ensures |AllVariants| == 2 && AllVariants[0] != AllVariants[1]
    ensures forall r: Role :: r in AllRoles
    ensures |AllRoles| == 12
    ensures forall i, j :: 0 <= i < j < |AllRoles| ==> AllRoles[i] != AllRoles[j]
  {
    forall v: Variant ensures v in AllVariants {
      assert AllVariants[if v == Light then 0 else 1] == v;
    }
    forall r: Role ensures r in AllRoles {
      assert AllRoles[RoleIndex(r)] == r;
    }
  }

  /** Every value in the table is a well-formed lower-case `#rrggbb` colour. */
  lemma AllValuesWellFormed(v: Variant, role: Role)
    ensures IsLowerHexColor(RoleValue(PaletteOf(v), role))
  {
    if v == Light {
      LightValuesWellFormed(role);
    } else {
      DarkValuesWellFormed(role);
    }
  }

  lemma LightValuesWellFormed(role: Role)
    ensures IsLowerHexColor(RoleValue(PaletteOf(Light), role))
  {
  }

  lemma DarkValuesWellFormed(role: Role)
    ensures IsLowerHexColor(RoleValue(PaletteOf(Dark), role))
  {
  }

  /** The specific values the themes rely on. */
  lemma NotableValues()
    ensures PaletteOf(Light).muted == "#7d7d7d"
    ensures PaletteOf(Light).green == "#078657"
    ensures PaletteOf(Light).yellow == "#987100"
    ensures PaletteOf(Light).blue == "#007ac2"
    ensures PaletteOf(Light).orange == "#cc4700"
    ensures PaletteOf(Dark).red == "#e53b39"
  {
  }
}
