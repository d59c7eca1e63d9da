// The deterministic helpers of the Ghostty installer: version parsing and
// comparison, detection of `palette-generate` support, the theme flags it
// selects, the `theme =` config patch and the theme install directories.

module GhosttyInstaller {
  import opened Wrappers
  import opened Text
  import Color
  import Palette
  import GhosttyTheme

  // ---------------------------------------------------------------------------
  // parseSemver: the first `(\d+)\.(\d+)\.(\d+)` in a text
  // ---------------------------------------------------------------------------

  /** A version as the source's `[number, number, number]` tuple. */
  type Triple = s: seq<int> | |s| == 3 witness [0, 0, 0]

  /** The length of the run of decimal digits that starts at `p`. */
  function DigitRun(s: string, p: nat): (n: nat)
    requires p <= |s|
    ensures p + n <= |s|
    decreases |s| - p
  {
    if p < |s| && IsDecimalDigit(s[p]) then 1 + DigitRun(s, p + 1) else 0
  }

  /** The run is all digits and stops before a character that is not one. */
  lemma {:induction false} DigitRunFacts(s: string, p: nat)
    requires p <= |s|
    ensures forall i :: p <= i < p + DigitRun(s, p) ==> IsDecimalDigit(s[i])
    ensures p + DigitRun(s, p) == |s| || !IsDecimalDigit(s[p + DigitRun(s, p)])
    decreases |s| - p
  {
    if p < |s| && IsDecimalDigit(s[p]) {
      DigitRunFacts(s, p + 1);
    }
  }

  /** The digits `s[p..p + n]` read as a decimal number (`Number.parseInt(_, 10)` on a digit run). */
  function RunValue(s: string, p: nat, n: nat): int
    requires p + n <= |s|
  {
    if n == 0 then 0 else RunValue(s, p, n - 1) * 10 + (s[p + n - 1] as int - '0' as int)
  }

  /** `d` is written in `s` at `p`. */
  predicate OccursAt(s: string, p: nat, d: string)
  {
    p + |d| <= |s| && forall k :: 0 <= k < |d| ==> s[p + k] == d[k]
  }

  /** Read where it sits, a digit string has the value `DecimalValue` gives it. */
  lemma {:induction false} RunValueOf(s: string, p: nat, d: string)
    requires OccursAt(s, p, d) && AllDecimalDigits(d)
    ensures RunValue(s, p, |d|) == DecimalValue(d)
    decreases |d|
  {
    if d != [] {
      var d' := d[..|d| - 1];
      assert OccursAt(s, p, d');
      RunValueOf(s, p, d');
    }
  }

  /**
   * The values of `k` dot-separated digit groups starting at `p`, as the
   * pattern `(\d+)\.(\d+)\.(\d+)` reads them with `k == 3`. Each group takes
   * the whole digit run: a shorter group before a `.` would be followed by a
   * digit where the pattern needs `.`, and a shorter last group is never
   * tried because the greedy run already succeeds.
   */
  function Groups(s: string, p: nat, k: nat): (r: Option<seq<int>>)
    requires p <= |s| && k >= 1
    ensures r.Some? ==> |r.value| == k
    decreases k
  {
    var n := DigitRun(s, p);
    if n == 0 then None
    else if k == 1 then Some([RunValue(s, p, n)])
    else if p + n < |s| && s[p + n] == '.' then
      match Groups(s, p + n + 1, k - 1)
      case Some(rest) => Some([RunValue(s, p, n)] + rest)
      case None => None
    else None
  }

  /** The match of the version pattern that starts at `p`, if any. */
  function MatchAt(s: string, p: nat): Option<Triple>
    requires p <= |s|
  {
    match Groups(s, p, 3)
    case Some(g) => Some(g)
    case None => None
  }

  /** Where the leftmost match at or after `p` starts. */
  function MatchStartFrom(s: string, p: nat): (q: Option<nat>)
    requires p <= |s|
    ensures q.Some? ==> p <= q.value <= |s|
    decreases |s| - p
  {
    if MatchAt(s, p).Some? then Some(p)
    else if p == |s| then None
    else MatchStartFrom(s, p + 1)
  }

  /** `parseSemver(value)`: the three numbers of the first version-shaped run, or null. */
  function ParseSemver(value: string): Option<Triple>
  {
    match MatchStartFrom(value, 0)
    case Some(q) => MatchAt(value, q)
    case None => None
  }

  lemma {:induction false} MatchStartFromSpec(s: string, p: nat)
    requires p <= |s|
    ensures MatchStartFrom(s, p).None? <==> forall q :: p <= q <= |s| ==> MatchAt(s, q).None?
    ensures MatchStartFrom(s, p).Some? ==>
      var q := MatchStartFrom(s, p).value;
      MatchAt(s, q).Some? && forall q' :: p <= q' < q ==> MatchAt(s, q').None?
    decreases |s| - p
  {
    if MatchAt(s, p).None? && p < |s| {
      MatchStartFromSpec(s, p + 1);
      assert MatchStartFrom(s, p) == MatchStartFrom(s, p + 1);
    }
  }

  /** ParseSemver returns the leftmost match, and null exactly when nothing matches. */
  lemma ParseSemverSpec(value: string)
    ensures ParseSemver(value).None? <==> forall q :: 0 <= q <= |value| ==> MatchAt(value, q).None?
    ensures ParseSemver(value).Some? ==>
      var q := MatchStartFrom(value, 0).value;
      && MatchAt(value, q) == ParseSemver(value)
      && forall q' :: 0 <= q' < q ==> MatchAt(value, q').None?
  {
    MatchStartFromSpec(value, 0);
  }

  /** A match with no match before it is the one found. */
  lemma {:induction false} MatchStartFromAt(s: string, p: nat, q: nat)
    requires p <= q <= |s| && MatchAt(s, q).Some?
    requires forall q' :: p <= q' < q ==> MatchAt(s, q').None?
    ensures MatchStartFrom(s, p) == Some(q)
    decreases q - p
  {
    if p < q {
      MatchStartFromAt(s, p + 1, q);
    }
  }

  /** The text `a.b.c`. */
  function VersionText(v: Triple): string
    requires v[0] >= 0 && v[1] >= 0 && v[2] >= 0
  {
    NatToString(v[0]) + "." + NatToString(v[1]) + "." + NatToString(v[2])
  }

  lemma {:induction false} DigitRunOf(s: string, p: nat, d: string)
    requires OccursAt(s, p, d) && AllDecimalDigits(d)
    requires p + |d| == |s| || !IsDecimalDigit(s[p + |d|])
    ensures DigitRun(s, p) == |d|
    decreases |d|
  {
    if d != [] {
      assert s[p] == d[0];
      assert OccursAt(s, p + 1, d[1..]) by {
        forall k | 0 <= k < |d[1..]| ensures s[p + 1 + k] == d[1..][k] {
          assert s[p + (k + 1)] == d[k + 1];
        }
      }
      DigitRunOf(s, p + 1, d[1..]);
    }
  }

  /** Where `d` sits in `s`, the digit run there is `d` and reads as its value. */
  lemma RunOf(s: string, p: nat, d: string)
    requires OccursAt(s, p, d) && AllDecimalDigits(d)
    requires p + |d| == |s| || !IsDecimalDigit(s[p + |d|])
    ensures DigitRun(s, p) == |d| && RunValue(s, p, |d|) == DecimalValue(d)
  {
    DigitRunOf(s, p, d);
    RunValueOf(s, p, d);
  }

  lemma NoDigitNoMatch(s: string, q: nat)
    requires q < |s| && !IsDecimalDigit(s[q])
    ensures MatchAt(s, q).None?
  {
  }

  /**
   * A version printed as `a.b.c` inside text parses back to itself, when the
   * text before it has no digits and the text after it does not go on with
   * a digit (a banner such as `Ghostty 1.3.0\n`).
   */
  lemma ParseSemverOfVersionText(prefix: string, v: Triple, suffix: string)
    requires v[0] >= 0 && v[1] >= 0 && v[2] >= 0
    requires forall i :: 0 <= i < |prefix| ==> !IsDecimalDigit(prefix[i])
    requires suffix == [] || !IsDecimalDigit(suffix[0])
    ensures ParseSemver(prefix + VersionText(v) + suffix) == Some(v)
  {
    var t := VersionText(v);
    var s := prefix + t + suffix;
    var p := |prefix|;
    assert OccursAt(s, p, t) by {
      forall k | 0 <= k < |t| ensures s[p + k] == t[k] {
      }
    }
    assert p + |t| < |s| ==> s[p + |t|] == suffix[0];
    VersionTextMatch(s, p, v);
    forall q | 0 <= q < p ensures MatchAt(s, q).None? {
      assert s[q] == prefix[q];
      NoDigitNoMatch(s, q);
    }
    MatchStartFromAt(s, 0, p);
  }

  /** `a.b.c` written at `p`, and not followed by a digit, is the match there. */
  lemma VersionTextMatch(s: string, p: nat, v: Triple)
    requires v[0] >= 0 && v[1] >= 0 && v[2] >= 0
    requires OccursAt(s, p, VersionText(v))
    requires p + |VersionText(v)| == |s| || !IsDecimalDigit(s[p + |VersionText(v)|])
    ensures MatchAt(s, p) == Some(v)
  {
    var a, b, c := NatToString(v[0]), NatToString(v[1]), NatToString(v[2]);
    DottedRuns(s, p, a, b, c);
    GroupsMatch(s, p, |a|, |b|, |c|);
    assert [v[0], v[1], v[2]] == v;
  }

  /** The digit runs of `a.b.c` written at `p`: their lengths, their dots and their values. */
  lemma DottedRuns(s: string, p: nat, a: string, b: string, c: string)
    requires a != [] && b != [] && c != []
    requires AllDecimalDigits(a) && AllDecimalDigits(b) && AllDecimalDigits(c)
    requires OccursAt(s, p, a + "." + b + "." + c)
    requires var e := p + |a| + |b| + |c| + 2; e == |s| || !IsDecimalDigit(s[e])
    ensures p + |a| + |b| + |c| + 2 <= |s|
    ensures DigitRun(s, p) == |a| && s[p + |a|] == '.' && RunValue(s, p, |a|) == DecimalValue(a)
    ensures var q1 := p + |a| + 1;
      DigitRun(s, q1) == |b| && s[q1 + |b|] == '.' && RunValue(s, q1, |b|) == DecimalValue(b)
    ensures var q2 := p + |a| + 1 + |b| + 1;
      DigitRun(s, q2) == |c| && RunValue(s, q2, |c|) == DecimalValue(c)
  {
    DottedPieces(s, p, a, b, c);
    RunOf(s, p, a);
    RunOf(s, p + |a| + 1, b);
    RunOf(s, p + |a| + 1 + |b| + 1, c);
  }

  /** Three digit runs with a `.` between each are the match. */
  lemma GroupsMatch(s: string, p: nat, n1: nat, n2: nat, n3: nat)
    requires n1 >= 1 && n2 >= 1 && n3 >= 1 && p + n1 + n2 + n3 + 2 <= |s|
    requires DigitRun(s, p) == n1 && s[p + n1] == '.'
    requires DigitRun(s, p + n1 + 1) == n2 && s[p + n1 + 1 + n2] == '.'
    requires DigitRun(s, p + n1 + 1 + n2 + 1) == n3
    ensures MatchAt(s, p) == Some([RunValue(s, p, n1), RunValue(s, p + n1 + 1, n2), RunValue(s, p + n1 + 1 + n2 + 1, n3)])
  {
    var q1 := p + n1;
    var q2 := q1 + 1 + n2;
    var x, y, z := RunValue(s, p, n1), RunValue(s, q1 + 1, n2), RunValue(s, q2 + 1, n3);
    assert Groups(s, q2 + 1, 1) == Some([z]);
    assert [y] + [z] == [y, z];
    assert Groups(s, q1 + 1, 2) == Some([y, z]);
    assert [x] + [y, z] == [x, y, z];
    assert Groups(s, p, 3) == Some([x, y, z]);
  }

  /** Where `a.b.c` is written, so are its three pieces and its two dots. */
  lemma DottedPieces(s: string, p: nat, a: string, b: string, c: string)
    requires OccursAt(s, p, a + "." + b + "." + c)
    ensures OccursAt(s, p, a) && s[p + |a|] == '.'
    ensures OccursAt(s, p + |a| + 1, b) && s[p + |a| + 1 + |b|] == '.'
    ensures OccursAt(s, p + |a| + 1 + |b| + 1, c)
  {
    var t := a + "." + b + "." + c;
    var q1 := p + |a|;
    var q2 := q1 + 1 + |b|;
    assert OccursAt(s, p, a) by {
      forall k | 0 <= k < |a| ensures s[p + k] == a[k] {
        assert t[k] == a[k];
      }
    }
    assert s[q1] == '.' by {
      assert t[|a|] == '.';
    }
    assert OccursAt(s, q1 + 1, b) by {
      forall k | 0 <= k < |b| ensures s[q1 + 1 + k] == b[k] {
        assert t[|a| + 1 + k] == b[k];
        assert s[p + (|a| + 1 + k)] == t[|a| + 1 + k];
      }
    }
    assert s[q2] == '.' by {
      assert t[|a| + 1 + |b|] == '.';
      assert s[p + (|a| + 1 + |b|)] == t[|a| + 1 + |b|];
    }
    assert OccursAt(s, q2 + 1, c) by {
      forall k | 0 <= k < |c| ensures s[q2 + 1 + k] == c[k] {
        assert t[|a| + 1 + |b| + 1 + k] == c[k];
        assert s[p + (|a| + 1 + |b| + 1 + k)] == t[|a| + 1 + |b| + 1 + k];
      }
    }
  }

  // ---------------------------------------------------------------------------
  // semverGte
  // ---------------------------------------------------------------------------

  /** Lexicographic `current >= minimum` over the three components. */
  predicate AtLeast(current: Triple, minimum: Triple)
  {
    current[0] > minimum[0]
    || (current[0] == minimum[0]
        && (current[1] > minimum[1] || (current[1] == minimum[1] && current[2] >= minimum[2])))
  }

  /** `semverGte`: the first differing component decides; equal triples give true. */
  method SemverGte(current: Triple, minimum: Triple) returns (r: bool)
    ensures r == AtLeast(current, minimum)
  {
    for i := 0 to 3
      invariant forall j :: 0 <= j < i ==> current[j] == minimum[j]
    {
      if current[i] > minimum[i] {
        return true;
      }
      if current[i] < minimum[i] {
        return false;
      }
    }
    return true;
  }

  /** AtLeast is a total order on triples. */
  lemma AtLeastIsTotalOrder(a: Triple, b: Triple, c: Triple)
    ensures AtLeast(a, a)
    ensures AtLeast(a, b) || AtLeast(b, a)
    ensures AtLeast(a, b) && AtLeast(b, a) ==> a == b
    ensures AtLeast(a, b) && AtLeast(b, c) ==> AtLeast(a, c)
  {
    if AtLeast(a, b) && AtLeast(b, a) {
      assert a[0] == b[0] && a[1] == b[1] && a[2] == b[2];
      assert a == [a[0], a[1], a[2]] && b == [b[0], b[1], b[2]];
    }
  }

  /** `current < minimum` holds exactly when some component is below and all before it are equal. */
  lemma AtLeastIsLexicographic(current: Triple, minimum: Triple)
    ensures !AtLeast(current, minimum) <==>
      exists i :: 0 <= i < 3 && current[i] < minimum[i]
        && forall j :: 0 <= j < i ==> current[j] == minimum[j]
  {
    if !AtLeast(current, minimum) {
      var i := if current[0] < minimum[0] then 0 else if current[1] < minimum[1] then 1 else 2;
      assert current[i] < minimum[i] && forall j :: 0 <= j < i ==> current[j] == minimum[j];
    }
  }

  // ---------------------------------------------------------------------------
  // detectGhosttyPaletteGenerateSupport
  // ---------------------------------------------------------------------------

  /** The argument lists tried, in order. */
  const VersionCommands: seq<seq<string>> := [["+version"], ["--version"]]

  /** The first release with `palette-generate`. */
  const MinimumVersion: Triple := [1, 3, 0]

  /** An output of a version command that yields a version. */
  predicate Parsable(output: Option<string>)
  {
    output.Some? && ParseSemver(output.value).Some?
  }

  /** The version of the first parsable output, if any. */
  function FirstVersion(outputs: seq<Option<string>>): Option<Triple>
  {
    if outputs == [] then None
    else if Parsable(outputs[0]) then ParseSemver(outputs[0].value)
    else FirstVersion(outputs[1..])
  }

  /** The detection verdict for the commands' outputs: null, or whether that version is 1.3.0 or later. */
  function Detection(outputs: seq<Option<string>>): Option<bool>
  {
    match FirstVersion(outputs)
    case None => None
    case Some(v) => Some(AtLeast(v, MinimumVersion))
  }

  /** What running `ghostty` with each argument list gives (None: the command threw). */
  function Outputs(run: seq<string> -> Option<string>): (outputs: seq<Option<string>>)
    ensures |outputs| == |VersionCommands|
    ensures forall i :: 0 <= i < |outputs| ==> outputs[i] == run(VersionCommands[i])
  {
    seq(|VersionCommands|, i requires 0 <= i < |VersionCommands| => run(VersionCommands[i]))
  }

  /**
   * `detectGhosttyPaletteGenerateSupport`: tries each command in turn,
   * skipping one that throws or prints no version, and compares the first
   * version found with 1.3.0. `run` stands for `execFileSync("ghostty", args)`.
   */
  method DetectPaletteGenerateSupport(run: seq<string> -> Option<string>) returns (supported: Option<bool>)
    ensures supported == Detection(Outputs(run))
  {
    ghost var outputs := Outputs(run);
    for i := 0 to |VersionCommands|
      invariant FirstVersion(outputs) == FirstVersion(outputs[i..])
    {
      assert outputs[i..][1..] == outputs[i + 1..];
      var output := run(VersionCommands[i]);
      if output.None? {
        continue;
      }
      var version := ParseSemver(output.value);
      if version.None? {
        continue;
      }
      var generate := SemverGte(version.value, MinimumVersion);
      return Some(generate);
    }
    assert outputs[|VersionCommands|..] == [];
    return None;
  }

  /** Detection is null exactly when no output is parsable. */
  lemma {:induction false} DetectionNone(outputs: seq<Option<string>>)
    ensures Detection(outputs).None? <==> forall i :: 0 <= i < |outputs| ==> !Parsable(outputs[i])
  {
    if outputs != [] && !Parsable(outputs[0]) {
      DetectionNone(outputs[1..]);
      assert forall i :: 1 <= i < |outputs| ==> outputs[i] == outputs[1..][i - 1];
    }
  }

  /** Detection answers from the first parsable output; outputs before it were skipped and later ones are not consulted. */
  lemma {:induction false} DetectionFirstParsable(outputs: seq<Option<string>>, i: nat)
    requires i < |outputs| && Parsable(outputs[i])
    requires forall j :: 0 <= j < i ==> !Parsable(outputs[j])
    ensures Detection(outputs) == Some(AtLeast(ParseSemver(outputs[i].value).value, MinimumVersion))
  {
    if i > 0 {
      assert forall j :: 0 <= j < i - 1 ==> outputs[1..][j] == outputs[j + 1];
      DetectionFirstParsable(outputs[1..], i - 1);
    }
  }

  // ---------------------------------------------------------------------------
  // The theme flags (installGhostty, lines 44-64)
  // ---------------------------------------------------------------------------

  /** The options both themes are generated with, from the detection verdict. */
  function ThemeOptionsFor(supportsPaletteGenerate: Option<bool>): (o: GhosttyTheme.ThemeOptions)
    ensures o.includeExtendedPalette == !o.enablePaletteGenerate
    ensures o.enablePaletteGenerate <==> supportsPaletteGenerate == Some(true)
    ensures supportsPaletteGenerate.None? ==> o.includeExtendedPalette
  {
    var useGeneratedMode := supportsPaletteGenerate == Some(true);
    GhosttyTheme.ThemeOptions(includeExtendedPalette := !useGeneratedMode, enablePaletteGenerate := useGeneratedMode)
  }

  /**
   * The installed theme files: with palette-generate support they list the
   * 16 base colours and ask Ghostty to generate the rest; otherwise they list
   * all 256 colours and carry no generate line.
   */
  lemma InstalledTheme(k: Color.Codec, v: Palette.Variant, supportsPaletteGenerate: Option<bool>)
    requires Color.Sound(k)
    ensures var lines := GhosttyTheme.ThemeLines(k, v, ThemeOptionsFor(supportsPaletteGenerate));
      && |GhosttyTheme.PaletteLinesOf(lines)| == (if supportsPaletteGenerate == Some(true) then 16 else 256)
      && GhosttyTheme.CountLine(lines, GhosttyTheme.GenerateLine) == (if supportsPaletteGenerate == Some(true) then 1 else 0)
  {
    var o := ThemeOptionsFor(supportsPaletteGenerate);
    GhosttyTheme.DocumentPaletteLines(v, o, GhosttyTheme.PaletteValues(k, v, o));
  }

  // ---------------------------------------------------------------------------
  // The config patch (installGhostty, lines 80-87)
  // ---------------------------------------------------------------------------

  const ThemeLine: string := "theme = dark:scalar-dark,light:scalar-light"

  /** `p` is where a multiline `^` can match. */
  predicate AtLineStart(s: string, p: nat)
    requires p <= |s|
  {
    p == 0 || IsLineTerminator(s[p - 1])
  }

  /** `p` is where a multiline `$` can match. */
  predicate AtLineEnd(s: string, p: nat)
    requires p <= |s|
  {
    p == |s| || IsLineTerminator(s[p])
  }

  /**
   * Where `.+` starts once `\s*` has been tried from `lo` up to `hi`: the
   * greedy `\s*` gives back characters until `.` finds one that is not a
   * line terminator.
   */
  function BodyStart(s: string, lo: nat, hi: nat): (q: Option<nat>)
    requires lo <= hi <= |s|
    ensures q.Some? ==> lo <= q.value <= hi && q.value < |s| && !IsLineTerminator(s[q.value])
    decreases hi
  {
    if hi < |s| && !IsLineTerminator(s[hi]) then Some(hi)
    else if hi == lo then None
    else BodyStart(s, lo, hi - 1)
  }

  /**
   * The end of the match of `^theme\s*=\s*.+$` (flag `m`) that starts at `p`,
   * if any. The first `\s*` takes the whole white-space run, since `=` is
   * not white space; `.+` takes the rest of the line, where `$` holds.
   */
  function ThemeMatchAt(s: string, p: nat): Option<nat>
    requires p <= |s|
  {
    if !(AtLineStart(s, p) && p + 5 <= |s| && s[p..p + 5] == "theme") then None
    else
      var eq := SpaceEnd(s, p + 5);
      if eq >= |s| || s[eq] != '=' then None
      else
        match BodyStart(s, eq + 1, SpaceEnd(s, eq + 1))
        case None => None
        case Some(q) => Some(LineEnd(s, q))
  }

  /** A match: its start and end. */
  datatype Span = Span(start: nat, end: nat)

  /** Where the leftmost match at or after `p` starts. */
  function ThemeStartFrom(s: string, p: nat): (q: Option<nat>)
    requires p <= |s|
    ensures q.Some? ==> p <= q.value <= |s|
    decreases |s| - p
  {
    if ThemeMatchAt(s, p).Some? then Some(p)
    else if p == |s| then None
    else ThemeStartFrom(s, p + 1)
  }

  /** The first match of the theme-line pattern, as `test` and `replace` find it. */
  function ThemeMatch(s: string): Option<Span>
  {
    match ThemeStartFrom(s, 0)
    case Some(p) =>
      if ThemeMatchAt(s, p).Some? then Some(Span(p, ThemeMatchAt(s, p).value)) else None
    case None => None
  }

  lemma {:induction false} ThemeStartFromSpec(s: string, p: nat)
    requires p <= |s|
    ensures ThemeStartFrom(s, p).None? <==> forall q :: p <= q <= |s| ==> ThemeMatchAt(s, q).None?
    ensures ThemeStartFrom(s, p).Some? ==>
      var q := ThemeStartFrom(s, p).value;
      ThemeMatchAt(s, q).Some? && forall q' :: p <= q' < q ==> ThemeMatchAt(s, q').None?
    decreases |s| - p
  {
    if ThemeMatchAt(s, p).None? && p < |s| {
      ThemeStartFromSpec(s, p + 1);
      var r := ThemeStartFrom(s, p + 1);
      assert ThemeStartFrom(s, p) == r;
      if r.None? {
        forall q | p <= q <= |s| ensures ThemeMatchAt(s, q).None? {
          if q != p { assert p + 1 <= q; }
        }
      } else {
        forall q' | p <= q' < r.value ensures ThemeMatchAt(s, q').None? {
          if q' != p { assert p + 1 <= q'; }
        }
      }
    }
  }

  /** Every character of `s[lo..hi]` is white space. */
  predicate AllSpace(s: string, lo: nat, hi: nat)
    requires lo <= hi <= |s|
  {
    forall i :: lo <= i < hi ==> IsJsWhitespace(s[i])
  }

  /** No character of `s[lo..hi]` ends a line. */
  predicate NoLineTerminator(s: string, lo: nat, hi: nat)
    requires lo <= hi <= |s|
  {
    forall i :: lo <= i < hi ==> !IsLineTerminator(s[i])
  }

  /** A match starts with `theme` at a line start and ends at a line end. */
  lemma ThemeMatchAtBounds(s: string, p: nat)
    requires p <= |s| && ThemeMatchAt(s, p).Some?
    ensures var e := ThemeMatchAt(s, p).value;
      && p + 5 < e <= |s| && AtLineStart(s, p) && AtLineEnd(s, e)
      && s[p..p + 5] == "theme"
  {
  }

  /**
   * What a match at `p` covers: `theme`, white space, `=`, white space, then
   * at least one character and up to the line end, with no line terminator
   * in that last part.
   */
  lemma ThemeMatchAtShape(s: string, p: nat)
    requires p <= |s| && ThemeMatchAt(s, p).Some?
    ensures var e := ThemeMatchAt(s, p).value;
      exists eq, q :: p + 5 <= eq < q < e <= |s|
        && AllSpace(s, p + 5, eq) && s[eq] == '=' && AllSpace(s, eq + 1, q)
        && NoLineTerminator(s, q, e)
  {
    var eq := SpaceEnd(s, p + 5);
    var q := BodyStart(s, eq + 1, SpaceEnd(s, eq + 1)).value;
    SpaceEndFacts(s, p + 5);
    SpaceEndFacts(s, eq + 1);
    LineEndFacts(s, q);
    var e := LineEnd(s, q);
    assert ThemeMatchAt(s, p).value == e;
    assert q < e by {
      assert !AtLineEnd(s, q);
    }
    assert AllSpace(s, p + 5, eq);
    assert AllSpace(s, eq + 1, q);
    assert NoLineTerminator(s, q, e);
  }

  /** ThemeMatch finds the leftmost match, and none exactly when no position matches. */
  lemma ThemeMatchSpec(s: string)
    ensures ThemeMatch(s).None? <==> forall q :: 0 <= q <= |s| ==> ThemeMatchAt(s, q).None?
    ensures ThemeMatch(s).Some? ==>
      var m := ThemeMatch(s).value;
      && m.start <= |s| && ThemeMatchAt(s, m.start) == Some(m.end)
      && forall q :: 0 <= q < m.start ==> ThemeMatchAt(s, q).None?
  {
    ThemeStartFromSpec(s, 0);
  }

  /** `String.prototype.trimEnd`: drops trailing white space. */
  function TrimEnd(s: string): (t: string)
    ensures |t| <= |s| && t == s[..|t|]
    ensures forall i :: |t| <= i < |s| ==> IsJsWhitespace(s[i])
    ensures t == [] || !IsJsWhitespace(t[|t| - 1])
  {
    if s != [] && IsJsWhitespace(s[|s| - 1]) then TrimEnd(s[..|s| - 1]) else s
  }

  /** The updated config text (installGhostty, lines 85-87). */
  function PatchConfig(content: string): string
  {
    match ThemeMatch(content)
    case Some(m) =>
      ThemeMatchAtBounds(content, m.start);
      content[..m.start] + ThemeLine + content[m.end..]
    case None => TrimEnd(content) + "\n" + ThemeLine + "\n"
  }

  /** `line` occupies a whole line of `s`. */
  predicate HasLine(s: string, line: string)
  {
    exists p :: 0 <= p && p + |line| <= |s| && s[p..p + |line|] == line
      && AtLineStart(s, p) && AtLineEnd(s, p + |line|)
  }

  /** With a match, only the first match is replaced and the text around it is kept. */
  lemma PatchReplacesFirstMatch(content: string)
    requires ThemeMatch(content).Some?
    ensures var m := ThemeMatch(content).value;
      && m.start < m.end <= |content|
      && PatchConfig(content) == content[..m.start] + ThemeLine + content[m.end..]
      && forall q :: 0 <= q < m.start ==> ThemeMatchAt(content, q).None?
  {
    var m := ThemeMatch(content).value;
    ThemeMatchSpec(content);
    ThemeMatchAtBounds(content, m.start);
  }

  /** Without a match, the line is appended after the trimmed text. */
  lemma PatchAppends(content: string)
    requires ThemeMatch(content).None?
    ensures forall q :: 0 <= q <= |content| ==> ThemeMatchAt(content, q).None?
    ensures PatchConfig(content) == TrimEnd(content) + "\n" + ThemeLine + "\n"
  {
    ThemeMatchSpec(content);
  }

  /** A text placed between a line break (or the start) and a line break (or the end) is a whole line. */
  lemma WholeLine(before: string, line: string, after: string)
    requires before == [] || IsLineTerminator(before[|before| - 1])
    requires after == [] || IsLineTerminator(after[0])
    ensures HasLine(before + line + after, line)
  {
    var s := before + line + after;
    var p := |before|;
    assert s[p..p + |line|] == line;
    assert p > 0 ==> s[p - 1] == before[p - 1];
    assert p + |line| < |s| ==> s[p + |line|] == after[0];
    assert AtLineStart(s, p) && AtLineEnd(s, p + |line|);
  }

  /** Either way the updated config has the theme line as one of its lines. */
  lemma PatchHasThemeLine(content: string)
    ensures HasLine(PatchConfig(content), ThemeLine)
  {
    match ThemeMatch(content)
    case Some(m) =>
      ThemeMatchAtBounds(content, m.start);
      var before, after := content[..m.start], content[m.end..];
      assert m.start > 0 ==> before[|before| - 1] == content[m.start - 1];
      assert after != [] ==> after[0] == content[m.end];
      WholeLine(before, ThemeLine, after);
    case None =>
      WholeLine(TrimEnd(content) + "\n", ThemeLine, "\n");
      assert PatchConfig(content) == TrimEnd(content) + "\n" + ThemeLine + "\n";
  }

  // ---------------------------------------------------------------------------
  // The theme install directories (installGhostty, lines 23-27)
  // ---------------------------------------------------------------------------

  predicate NoDuplicates(xs: seq<string>)
  {
    forall i, j :: 0 <= i < j < |xs| ==> xs[i] != xs[j]
  }

  /** `Array.from(new Set(xs))`: each value once, at its first occurrence. */
  function Dedup(xs: seq<string>): (r: seq<string>)
    ensures NoDuplicates(r)
    ensures forall x :: x in r <==> x in xs
    ensures xs != [] ==> r != [] && r[0] == xs[0]
  {
    if xs == [] then []
    else
      var r := Dedup(xs[..|xs| - 1]);
      assert xs == xs[..|xs| - 1] + [xs[|xs| - 1]];
      if xs[|xs| - 1] in r then r else r + [xs[|xs| - 1]]
  }

  /** The position of the first occurrence of `x` in `xs`. */
  function FirstIndex(xs: seq<string>, x: string): (i: nat)
    requires x in xs
    ensures i < |xs| && xs[i] == x
    ensures forall k :: 0 <= k < i ==> xs[k] != x
  {
    var init := xs[..|xs| - 1];
    assert xs == init + [xs[|xs| - 1]];
    if x in init then FirstIndex(init, x) else |xs| - 1
  }

  /** Dedup lists the values in the order of their first occurrences in `xs`. */
  lemma {:induction false} DedupKeepsFirstOccurrenceOrder(xs: seq<string>)
    ensures forall i, j :: 0 <= i < j < |Dedup(xs)| ==> FirstIndex(xs, Dedup(xs)[i]) < FirstIndex(xs, Dedup(xs)[j])
  {
    if xs != [] {
      var init, last := xs[..|xs| - 1], xs[|xs| - 1];
      var r := Dedup(init);
      DedupKeepsFirstOccurrenceOrder(init);
      assert xs == init + [last];
      forall y | y in r ensures FirstIndex(xs, y) == FirstIndex(init, y) {
      }
      if last !in r {
        assert FirstIndex(xs, last) == |xs| - 1;
      }
    }
  }

  /** `configDirs`: the XDG directory, and the macOS one when defined. */
  function ConfigDirs(xdgConfigDir: string, macosConfigDir: Option<string>): seq<string>
  {
    [xdgConfigDir] + (if macosConfigDir.Some? then [macosConfigDir.value] else [])
  }

  function ThemeInstallDirs(xdgConfigDir: string, macosConfigDir: Option<string>): seq<string>
  {
    Dedup([xdgConfigDir] + ConfigDirs(xdgConfigDir, macosConfigDir))
  }

  /** The install directories start with the XDG one, repeat nothing and cover every config directory. */
  lemma ThemeInstallDirsFacts(xdgConfigDir: string, macosConfigDir: Option<string>)
    ensures var dirs := ThemeInstallDirs(xdgConfigDir, macosConfigDir);
      && dirs != [] && dirs[0] == xdgConfigDir
      && NoDuplicates(dirs)
      && (forall d :: d in ConfigDirs(xdgConfigDir, macosConfigDir) ==> d in dirs)
      && (forall d :: d in dirs ==> d == xdgConfigDir || macosConfigDir == Some(d))
      && (macosConfigDir.None? || macosConfigDir.value == xdgConfigDir ==> dirs == [xdgConfigDir])
      && (macosConfigDir.Some? && macosConfigDir.value != xdgConfigDir ==> dirs == [xdgConfigDir, macosConfigDir.value])
  {
    var x := xdgConfigDir;
    assert [x][..0] == [];
    assert Dedup([x]) == [x];
    assert [x, x][..1] == [x];
    assert Dedup([x, x]) == [x];
    if macosConfigDir.Some? {
      var m := macosConfigDir.value;
      assert [x] + ConfigDirs(x, macosConfigDir) == [x, x, m];
      assert [x, x, m][..2] == [x, x];
      assert Dedup([x, x, m]) == if m == x then [x] else [x, m];
    } else {
      assert [x] + ConfigDirs(x, macosConfigDir) == [x, x];
    }
  }
}
