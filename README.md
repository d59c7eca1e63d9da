# scalar-themes in Dafny

`scalar-themes` is a command-line tool. It installs a colour theme derived from the Scalar design palette into several terminals and editors: Ghostty, Neovim, Zed, OpenCode and Warp. Most of the tool writes files. This project models, and proves properties of, its deterministic parts:

- **Palette** (`palette.dfy`): the constant light/dark table of twelve colour roles.
- **Colour codec** (`color.dfy`): parsing and writing `#rrggbb`, the sRGB and CIE LAB conversions with their clamp-then-round, and LAB interpolation.
  - Arithmetic is exact over `real`.
  - `Math.pow` / `**` and `Math.cbrt` are a `MathLib` parameter, so every property holds for any implementation of them.
  - A JavaScript `NaN` channel (from `Number.parseInt` on non-hex text) is modelled as a failed parse, `None`.
- **Ghostty theme generator** (`ghostty_theme.dfy`):
  - the 16-slot base palette;
  - the 256-colour synthesis, a 6x6x6 LAB cube plus a 24-step grey ramp, written as the source's nested loops and proved equal to a specification function;
  - the theme document renderer, also a loop, proved against the line list it builds.
  - The synthesis is parameterised by a `Codec`, the pair of conversions it composes.
- **Ghostty installer helpers** (`ghostty_installer.dfy`):
  - `parseSemver`, a search for the leftmost match of `(\d+)\.(\d+)\.(\d+)`;
  - `semverGte`, the loop over the three components;
  - version detection over the two `ghostty` commands, whose outputs come in as a `run` parameter;
  - the two theme flags;
  - the config patch, the leftmost multiline match of `^theme\s*=\s*.+$`, either replaced or appended after `trimEnd`;
  - the de-duplicated theme install directories.
- **Multi-select prompt** (`prompt.dfy`): the key handler as a class with `cursor` and `selected` fields.
  - The source's `Set<number>` becomes a `set<nat>`. Insertion order does not matter, because Enter sorts the indices before reading them out.
  - `sort()` without a comparator orders the indices as decimal strings, so `10` comes before `2`. The model does the same.
  - The source field `label` is called `title`, because `label` is a Dafny keyword.
- **CLI selection rule** (`cli.dfy`): how the arguments (or the prompt's answer) become the list of installers to run, the exit status, and the install loop's order.
- **JSONC stripper** (`jsonc.dfy`): the three regular-expression passes of Zed's `stripJsonc`, written as scanners:
  - line comments;
  - block comments, shortest match;
  - a comma followed by white space and a closing bracket.
  - Like the source, the passes know nothing about strings: `"a://b"` loses everything after `a:`.
  - The lemma `Jsonc.LineCommentInStringExample` records this behaviour.

`common.dfy` holds shared helpers:

- `Option`;
- decimal and hex digits, `String(n)`;
- ECMAScript white space and line terminators;
- `Array.prototype.join`;
- JavaScript string order.

## Model

| member | source | states |
|---|---|---|
| Text.NatToString | src/generators/ghostty.ts:203 | `String(i)` is a non-empty digit string without leading zero whose decimal value is `i` |
| Text.StringLessIrreflexive | src/prompt.ts:114 | string order used by `sort()` is irreflexive |
| Text.StringLessAsymmetric | src/prompt.ts:114 | string order is asymmetric |
| Text.StringLessTotal | src/prompt.ts:114 | any two distinct strings are ordered one way or the other |
| Text.StringLessTransitive | src/prompt.ts:114 | string order is transitive |
| Text.JoinEndsWithSeparator | src/generators/ghostty.ts:214-215 | joining lines whose last one is empty ends with the separator |
| Palette.RoleIndex | src/palette.ts:8-37 | every role has a position in the role list |
| Palette.VariantsAndRoles | src/palette.ts:8-37 | two variants and twelve distinct roles, each listed |
| Palette.AllValuesWellFormed | src/palette.ts:9-36 | every entry of both variants is a lower-case `#rrggbb` |
| Palette.NotableValues | src/palette.ts:15-31 | selected entries of the table have their literal values |
| Color.Round | src/generators/ghostty.ts:41 | `Math.round` is the integer n with n <= x + 1/2 < n + 1 |
| Color.LinearToSrgb | src/generators/ghostty.ts:37-42 | the channel is an integer in [0,255]; 0 when the companded value is <= 0, 255 when >= 1 |
| Color.LabToRgb | src/generators/ghostty.ts:68-86 | every channel of a converted colour is in [0,255], whatever pow and cbrt return |
| Color.LerpLab | src/generators/ghostty.ts:88-94 | t = 0 gives the start and t = 1 gives the end, componentwise |
| Color.RgbToLab | src/generators/ghostty.ts:44-66 | the model of `rgbToLab`, with `srgbToLinear` and `f`; it carries no contract of its own, since `**` and `Math.cbrt` are the `MathLib` parameter; the codec properties proved for it are `Color.SourceCodecSound` and `GhosttyTheme.ExtensionWellFormed` |
| Color.HexDigitPrefix | src/generators/ghostty.ts:99-101 | the longest run of hex digits at the front, as `parseInt(_, 16)` reads it |
| Color.HexToRgb | src/generators/ghostty.ts:96-103 | the model of `hexToRgb`, `None` standing for a `NaN` channel; its properties are `Color.ParsesToChannels`, `Color.GrayChannels`, `Color.HexRoundTrip` and `Color.CanonicalRoundTrip` |
| Color.RgbToHex | src/generators/ghostty.ts:105-108 | the model of `rgbToHex`; its properties are `Color.RgbToHexFormat`, `Color.HexRoundTrip` and `Color.CanonicalRoundTrip` |
| Color.RgbToHexFormat | src/generators/ghostty.ts:105-108 | for channels in range, `#` then two zero-padded lower-case digits per channel, a well-formed colour |
| Color.ParsesToChannels | src/generators/ghostty.ts:96-103 | six hex digits, with or without `#`, in either case, parse to their channel values |
| Color.HexRoundTrip | src/generators/ghostty.ts:96-108 | `hexToRgb(rgbToHex(c)) == c` for channels in range, with or without the `#` |
| Color.CanonicalRoundTrip | src/generators/ghostty.ts:96-108 | `rgbToHex(hexToRgb(h))` is the lower-case `#`-prefixed form of a well-formed h |
| Color.LowerHexColorIsCanonical | src/generators/ghostty.ts:96-108 | a lower-case `#rrggbb` is a fixed point of the parse-then-write round trip |
| Color.PaletteValuesRoundTrip | src/palette.ts:8-37 | every palette colour parses and writes back to itself |
| Color.BackgroundForegroundOrder | src/palette.ts:10-27 | both variants' background and foreground are greys that parse to their channels: dark 0x0f on 0xe7, light 0xff on 0x1b |
| Color.GrayChannels | src/generators/ghostty.ts:96-103 | a `#xyxyxy` grey parses to three equal channels |
| Color.SourceCodecSound | src/generators/ghostty.ts:136-161 | the source's conversions accept every well-formed colour and write only well-formed colours |
| GhosttyTheme.GetBase16 | src/generators/ghostty.ts:110-131 | 16 entries, each the value of its slot's role in the variant's palette |
| GhosttyTheme.Base16Slots | src/generators/ghostty.ts:113-130 | slot order: surface 0, red 1, green 2/10, yellow 3/11, blue 4/6/12/14, purple 5/13, secondary 7, muted 8, orange 9, foreground 15; background and highlight unused |
| GhosttyTheme.GridBlockAt | src/generators/ghostty.ts:140-157 | the nested loops visit point k as (k/36, k/6 mod 6, k mod 6): red-major order |
| GhosttyTheme.CubeIndex | src/generators/ghostty.ts:140-157 | 36r + 6g + b is below 216 and decodes back to (r, g, b) |
| GhosttyTheme.RampPrefixIsRamp | src/generators/ghostty.ts:159-162 | the ramp built step by step is the 24-entry ramp |
| GhosttyTheme.ExtendedPalette | src/generators/ghostty.ts:133-165 | the specification of `generate256Palette`, error cases included; `GhosttyTheme.Generate256Palette` is proved equal to it, and its properties are `GhosttyTheme.ExtendedPaletteLength`, `GhosttyTheme.ExtensionShape`, `GhosttyTheme.OnlyAnchorsInfluenceExtension`, `GhosttyTheme.CubeCorners` and `GhosttyTheme.AnchorsExist` |
| GhosttyTheme.AppendCube | src/generators/ghostty.ts:140-157 | the three nested loops append exactly the cube, in order |
| GhosttyTheme.AppendPlane | src/generators/ghostty.ts:147-156 | the inner two loops append one red plane of the cube |
| GhosttyTheme.AppendRamp | src/generators/ghostty.ts:159-162 | the ramp loop appends exactly the ramp |
| GhosttyTheme.Generate256Palette | src/generators/ghostty.ts:133-165 | the method's result is the generated palette function, error cases included |
| GhosttyTheme.ExtendedPaletteLength | src/generators/ghostty.ts:134-162 | a generated palette is the input verbatim followed by 240 entries |
| GhosttyTheme.ExtensionShape | src/generators/ghostty.ts:140-162 | entry 36r+6g+b after the input is cube point (r,g,b); entry 216+i is the ramp blend at (i+1)/25 |
| GhosttyTheme.ExtensionWellFormed | src/generators/ghostty.ts:152-161 | with a sound codec every synthesised entry is a well-formed colour |
| GhosttyTheme.OnlyAnchorsInfluenceExtension | src/generators/ghostty.ts:136-161 | inputs agreeing on `base16[1..6]`, bg and fg give the same 240 synthesised entries; `base16[0]` and `base16[7]` are unused |
| GhosttyTheme.CubeCorners | src/generators/ghostty.ts:141-153 | the eight cube corners are bg, `base16[1..6]` and fg |
| GhosttyTheme.RampLightnessMonotone | src/generators/ghostty.ts:159-162 | ramp fractions lie strictly in (0,1) and the ramp lightness moves monotonically from bg towards fg |
| GhosttyTheme.AnchorsExist | src/generators/ghostty.ts:136-138 | with a sound codec, well-formed anchors always generate |
| GhosttyTheme.VariantGenerates | src/generators/ghostty.ts:177-179 | both variants always generate a 256-entry palette |
| GhosttyTheme.PaletteValues | src/generators/ghostty.ts:178-180 | 256 values when the extended palette is included, 16 otherwise |
| GhosttyTheme.AppendAnsi | src/generators/ghostty.ts:199-204 | the ANSI loop appends a blank line, its comment and `palette = i=<value>` for 0..15 |
| GhosttyTheme.AppendExtended | src/generators/ghostty.ts:206-212 | the extended loop appends a blank line, its comment and the lines for 16..255 |
| GhosttyTheme.AppendBody | src/generators/ghostty.ts:195-214 | the lines after the header are the assembled document |
| GhosttyTheme.ThemeLines | src/generators/ghostty.ts:182-214 | the lines `createGhosttyTheme` builds; `GhosttyTheme.RenderTheme` is proved to join them, and their properties are `GhosttyTheme.DocumentPaletteLines`, `GhosttyTheme.AssembleShape` and `GhosttyTheme.DocumentCursorAndEnding` |
| GhosttyTheme.RenderTheme | src/generators/ghostty.ts:182-215 | the text is the document's lines joined with newlines |
| GhosttyTheme.CreateGhosttyTheme | src/generators/ghostty.ts:172-216 | the theme text is the join of the specified lines, with the source's conversions |
| GhosttyTheme.IndexedLinesFacts | src/generators/ghostty.ts:202-211 | indexed lines are all `palette = ` lines and none is the generate flag |
| GhosttyTheme.DocumentPaletteLines | src/generators/ghostty.ts:182-215 | the `palette = ` lines are exactly 0..15, then 16..255 iff extended, in ascending order; `palette-generate = true` is present once iff enabled |
| GhosttyTheme.AssembleShape | src/generators/ghostty.ts:182-214 | the document starts with its header and ends with an empty line |
| GhosttyTheme.DocumentCursorAndEnding | src/generators/ghostty.ts:189-215 | `cursor-color` is the foreground, `cursor-text` the background, and the text ends with a newline |
| GhosttyInstaller.DigitRunFacts | src/installers/ghostty.ts:97 | a `\d+` run is maximal: all digits, followed by a non-digit or the end |
| GhosttyInstaller.RunValueOf | src/installers/ghostty.ts:103-105 | `parseInt(_, 10)` of a digit run is its decimal value, read exactly (the double rounding of long runs is under "Left out") |
| GhosttyInstaller.ParseSemver | src/installers/ghostty.ts:96-107 | the model of `parseSemver`; its properties are `GhosttyInstaller.ParseSemverSpec` and `GhosttyInstaller.ParseSemverOfVersionText` |
| GhosttyInstaller.ParseSemverSpec | src/installers/ghostty.ts:96-107 | null exactly when no position matches; otherwise the leftmost match's three groups |
| GhosttyInstaller.ParseSemverOfVersionText | src/installers/ghostty.ts:96-107 | a version written between non-digits parses back to its three numbers; in the source this holds for components up to 2^53 |
| GhosttyInstaller.SemverGte | src/installers/ghostty.ts:109-123 | the loop computes lexicographic `>=` over the three components |
| GhosttyInstaller.AtLeastIsTotalOrder | src/installers/ghostty.ts:109-123 | `>=` is reflexive (equal triples give true), total, antisymmetric and transitive |
| GhosttyInstaller.AtLeastIsLexicographic | src/installers/ghostty.ts:113-122 | `current < minimum` iff some component is smaller and all before it are equal |
| GhosttyInstaller.Detection | src/installers/ghostty.ts:125-146 | the specification of `detectGhosttyPaletteGenerateSupport` over the two command outputs; `GhosttyInstaller.DetectPaletteGenerateSupport` is proved equal to it, and its properties are `GhosttyInstaller.DetectionNone` and `GhosttyInstaller.DetectionFirstParsable` |
| GhosttyInstaller.DetectPaletteGenerateSupport | src/installers/ghostty.ts:125-146 | the loop over the two commands returns the specified detection result |
| GhosttyInstaller.DetectionNone | src/installers/ghostty.ts:125-146 | null exactly when no command output contains a version |
| GhosttyInstaller.DetectionFirstParsable | src/installers/ghostty.ts:134-139 | otherwise the first parsable output decides, compared against 1.3.0 |
| GhosttyInstaller.ThemeOptionsFor | src/installers/ghostty.ts:44-64 | generate mode iff detection is true; the extended palette is included iff not in generate mode, so also when detection fails |
| GhosttyInstaller.InstalledTheme | src/installers/ghostty.ts:44-64 | the installed theme lists 16 colours and the generate flag once when supported, else 256 colours and no flag |
| GhosttyInstaller.ThemeMatchAtShape | src/installers/ghostty.ts:10 | a match is `theme`, white space, `=`, white space, and a non-empty rest of the line |
| GhosttyInstaller.ThemeMatchAtBounds | src/installers/ghostty.ts:10 | a match starts at a line start with `theme` and ends at a line end |
| GhosttyInstaller.ThemeMatchSpec | src/installers/ghostty.ts:10-86 | the match found is the leftmost one; none exactly when no position matches |
| GhosttyInstaller.TrimEnd | src/installers/ghostty.ts:87 | `trimEnd` keeps a prefix, drops only white space and leaves no trailing white space |
| GhosttyInstaller.PatchConfig | src/installers/ghostty.ts:80-87 | the model of the config update; its properties are `GhosttyInstaller.PatchReplacesFirstMatch`, `GhosttyInstaller.PatchAppends` and `GhosttyInstaller.PatchHasThemeLine` |
| GhosttyInstaller.PatchReplacesFirstMatch | src/installers/ghostty.ts:85-86 | with a match, only the first match is replaced and the text around it is kept |
| GhosttyInstaller.PatchAppends | src/installers/ghostty.ts:85-87 | without a match, the theme line is appended after the trimmed text and a newline |
| GhosttyInstaller.PatchHasThemeLine | src/installers/ghostty.ts:80-87 | either way the theme line is a whole line of the result |
| GhosttyInstaller.Dedup | src/installers/ghostty.ts:27 | `Array.from(new Set(xs))` has no duplicates, the same members, and the first element first |
| GhosttyInstaller.DedupKeepsFirstOccurrenceOrder | src/installers/ghostty.ts:27 | the de-duplicated values come in the order of their first occurrences in the input |
| GhosttyInstaller.ThemeInstallDirs | src/installers/ghostty.ts:23-27 | the model of `themeInstallDirs`; its properties are `GhosttyInstaller.ThemeInstallDirsFacts`, `GhosttyInstaller.Dedup` and `GhosttyInstaller.DedupKeepsFirstOccurrenceOrder` |
| GhosttyInstaller.ThemeInstallDirsFacts | src/installers/ghostty.ts:23-27 | the install directories start with the XDG one, repeat nothing, hold exactly the config directories, one or two entries |
| Prompt.KeyClassesDisjoint | src/prompt.ts:82-124 | the handled key classes are mutually exclusive |
| Prompt.CursorUp | src/prompt.ts:83-87 | the model of `(cursor - 1 + n) % n`; its properties are in `Prompt.CursorMoves` |
| Prompt.CursorDown | src/prompt.ts:90-94 | the model of `(cursor + 1) % n`; its properties are in `Prompt.CursorMoves` |
| Prompt.CursorMoves | src/prompt.ts:83-94 | up and down stay in range, wrap at the ends, and undo each other |
| Prompt.AllIndices | src/prompt.ts:28 | the initial selection holds exactly the indices below n |
| Prompt.Toggle | src/prompt.ts:97-105 | the model of the Space branch on the set; its properties are in `Prompt.ToggleFacts` |
| Prompt.ToggleFacts | src/prompt.ts:97-105 | Space flips membership of the cursor index only; two toggles restore the set |
| Prompt.IndexLessIsStrictTotalOrder | src/prompt.ts:114 | the default `sort()` order on indices is a strict total order |
| Prompt.IndexLessOnDigits | src/prompt.ts:114 | below 10 the string order is the numeric one |
| Prompt.AscendingIndices | src/prompt.ts:114 | the selected indices in increasing order, each below n |
| Prompt.InsertByStringSorted | src/prompt.ts:114 | insertion keeps the sequence sorted and adds exactly the element |
| Prompt.SortByStringSorted | src/prompt.ts:114 | the sort result is sorted and a permutation of its input |
| Prompt.ConfirmedIndices | src/prompt.ts:114 | the model of `[...selected].sort()`; its properties are `Prompt.ConfirmedIndicesFacts`, `Prompt.ConfirmedIndicesUnique`, `Prompt.ConfirmedIndicesNumericBelowTen` and `Prompt.ConfirmedIndicesStringOrder` |
| Prompt.ConfirmedIndicesFacts | src/prompt.ts:114 | the Enter result's indices are sorted by string, distinct, below n, and exactly the selected ones |
| Prompt.ConfirmedIndicesUnique | src/prompt.ts:114 | the sorted indices are determined by the set alone, so insertion order does not matter |
| Prompt.ConfirmedIndicesNumericBelowTen | src/prompt.ts:114 | with at most ten choices the result is in numeric order |
| Prompt.ConfirmedIndicesStringOrder | src/prompt.ts:114 | with eleven choices index 10 sorts before index 2 |
| Prompt.ConfirmedValues | src/prompt.ts:114 | one value per confirmed index |
| Prompt.ConfirmedValuesFacts | src/prompt.ts:114 | as many values as selected indices, each the value of a selected choice |
| Prompt.DistinctCardinality | src/prompt.ts:114 | a duplicate-free sequence of a set's members covering it has the set's size |
| Prompt.MultiSelect.constructor | src/prompt.ts:28-29 | a fresh prompt selects everything with the cursor on the first choice |
| Prompt.MultiSelect.HandleKey | src/prompt.ts:79-125 | per key class: cursor wrap up/down, toggle, confirm with the sorted values, abort, or ignore; nothing else changes |
| Prompt.FreshPromptConfirmsAll | src/prompt.ts:28-114 | Enter on a fresh prompt confirms every choice once |
| Cli.ToolTable | src/index.ts:20-31 | the five ids in table order, distinct, none equal to `--all` |
| Cli.InvalidArgsMembers | src/index.ts:50 | the unknown arguments are exactly those neither a tool id nor `--all` |
| Cli.ValidArgsOfValid | src/index.ts:58 | filtering all-valid arguments keeps them whole, order and duplicates included |
| Cli.FindTool | src/index.ts:78 | `tools.find` finds a tool with that id exactly when the id is valid |
| Cli.SelectionFor | src/index.ts:46-68 | the model of the choice between `--all`, the checked arguments and the prompt; its properties are `Cli.InvalidArgsMembers`, `Cli.ValidArgsOfValid`, `Cli.AllFlagInstallsEverything` and `Cli.UnknownArgumentFails` |
| Cli.RunOutcome | src/index.ts:46-84 | the specification of a whole run; `Cli.Run` is proved equal to it, and its properties are `Cli.ValidArgumentsInstallThemselves`, `Cli.EmptySelectionInstallsNothing` and `Cli.PromptSelectionInstalls` |
| Cli.InstallLogOfValid | src/index.ts:77-84 | all-valid ids run their installers once per occurrence, in order |
| Cli.Run | src/index.ts:33-84 | the run's outcome is the specified one; the install loop invokes exactly the installers of the log |
| Cli.AllFlagInstallsEverything | src/index.ts:46-47 | `--all` anywhere installs every tool in table order, exit 0 |
| Cli.UnknownArgumentFails | src/index.ts:48-56 | any unknown argument without `--all` reports exactly the unknown ones, exit 1 |
| Cli.ValidArgumentsInstallThemselves | src/index.ts:48-84 | valid arguments install themselves in order, duplicates twice, exit 0 |
| Cli.DuplicateInstallsTwice | src/index.ts:58-84 | `zed zed` runs the Zed installer twice |
| Cli.EmptySelectionInstallsNothing | src/index.ts:70-73 | an empty selection installs nothing and exits 0 |
| Cli.PromptSelectionInstalls | src/index.ts:59-84 | confirming the prompt installs exactly the selected tools in table order, or nothing when none is selected |
| Text.LineEnd | src/installers/zed.ts:12 | where `.*$` stops (flag `m`): a line terminator or the end of the text |
| Text.LineEndFacts | src/installers/zed.ts:12 | `.*` crosses no line terminator on its way to the line end |
| Jsonc.StripLineComments | src/installers/zed.ts:12 | the model of `replace(/\/\/.*$/gm, "")`; its properties are the `Jsonc.StripLineComments...` and `Jsonc.LineComment...` rows below |
| Jsonc.StripLineCommentsKeepsPlain | src/installers/zed.ts:12 | text with no `//` is copied through |
| Jsonc.LineCommentRemoved | src/installers/zed.ts:12 | a `//` comment is removed up to, not including, its line terminator |
| Jsonc.StripLineCommentsShorter | src/installers/zed.ts:12 | the pass never lengthens the text |
| Jsonc.StripLineCommentsLeavesNone | src/installers/zed.ts:12 | no `//` is left after the pass |
| Jsonc.StripLineCommentsUnchanged | src/installers/zed.ts:12 | text without `//` is unchanged |
| Jsonc.StripLineCommentsIdempotent | src/installers/zed.ts:12 | applying the pass twice equals applying it once |
| Jsonc.StripLineCommentsKeepsLines | src/installers/zed.ts:12 | every line terminator is kept, in order |
| Jsonc.LineCommentExample | src/installers/zed.ts:12 | `1, // c` newline `}` becomes `1, ` newline `}` |
| Jsonc.LineCommentInStringExample | src/installers/zed.ts:12 | a `//` inside a JSON string is treated as a comment too |
| Jsonc.FindCloseFacts | src/installers/zed.ts:12 | the lazy `[\s\S]*?` stops at the first closing `*/` |
| Jsonc.StripBlockComments | src/installers/zed.ts:12 | the model of `replace(/\/\*[\s\S]*?\*\//g, "")`; its properties are the `Jsonc.StripBlockComments...` and `Jsonc.BlockComment...` rows below, with `Jsonc.UnclosedBlockKept` |
| Jsonc.StripBlockCommentsShorter | src/installers/zed.ts:12 | the block pass never lengthens the text |
| Jsonc.StripBlockCommentsUnchanged | src/installers/zed.ts:12 | text without `/*` is unchanged |
| Jsonc.BlockCommentShortest | src/installers/zed.ts:12 | a block comment ends at the first `*/` after its opening |
| Jsonc.UnclosedBlockKept | src/installers/zed.ts:12 | an opening `/*` with no closing one is kept |
| Jsonc.StripBlockCommentsKeepsPlain | src/installers/zed.ts:12 | text with no `/*` is copied through by the block pass |
| Jsonc.BlockCommentExample | src/installers/zed.ts:12 | a comment spanning lines is removed whole |
| Text.SpaceEndFacts | src/installers/zed.ts:13 | the greedy `\s*` takes only white space and stops at a character that is not, or at the end |
| Jsonc.StripTrailingCommas | src/installers/zed.ts:13 | the model of `replace(/,(\s*[}\]])/g, "$1")`; `Jsonc.StripTrailingCommasIsReference` proves it removes exactly the trailing commas |
| Jsonc.KeepNonTrailing | src/installers/zed.ts:13 | the reference form of the comma pass: every character is kept, except a comma followed by white space and then `}` or `]` |
| Jsonc.StripTrailingCommasIsReference | src/installers/zed.ts:13 | the scan equals the reference form for every input, so exactly the trailing commas are deleted and nothing else |
| Jsonc.StripTrailingCommasShorter | src/installers/zed.ts:13 | the comma pass never lengthens the text |
| Jsonc.StripTrailingCommasOnlyCommas | src/installers/zed.ts:13 | the comma pass removes only commas: the comma-free text is unchanged |
| Jsonc.StripTrailingCommasUnchanged | src/installers/zed.ts:13 | text with no trailing comma is unchanged |
| Jsonc.TrailingCommaExample | src/installers/zed.ts:13 | `[1,` newline `]` becomes `[1` newline `]`; the white space is kept |
| Jsonc.StripJsonc | src/installers/zed.ts:11-14 | the model of `stripJsonc`: line comments, then block comments, then trailing commas; its properties are `Jsonc.StripJsoncShorter`, `Jsonc.StripJsoncUnchanged`, `Jsonc.StripJsoncOnlyCommas` and `Jsonc.CommentBeforeBracketExample` |
| Jsonc.StripJsoncShorter | src/installers/zed.ts:11-14 | stripping never lengthens the text |
| Jsonc.StripJsoncUnchanged | src/installers/zed.ts:11-14 | text with no `/` and no trailing comma is unchanged |
| Jsonc.StripJsoncOnlyCommas | src/installers/zed.ts:11-14 | text without `/` loses only commas |
| Jsonc.CommentBeforeBracketExample | src/installers/zed.ts:12-13 | a comma before a block comment and a bracket is removed once the comment is gone |

## Left out

- Floating point: colour arithmetic is exact over `real`. `Math.pow`, `**` and `Math.cbrt` are the `MathLib` parameter, so rounding differences from IEEE doubles are not modelled.
- `NaN`: a channel that `Number.parseInt` cannot parse makes `HexToRgb` return `None`. If such a colour feeds the cube, generation returns an error value; the source would carry `NaN` on and write it into the theme.
- Reading a missing field: fewer than seven base colours give an error value, `MissingAnchor`, where the source throws a `TypeError`.
- I/O is left out:
  - file-system reads and writes, `mkdirSync` and `existsSync`;
  - the active-config filter of `installGhostty` (`src/installers/ghostty.ts:29-38`);
  - the loops that write theme files and config files;
  - log output;
  - `process.exit`, modelled as the `Outcome` value and `ExitCode`.
- `execFileSync`: the command outputs are the `run` parameter. A thrown error is a `None` output.
- Terminal handling in the prompt:
  - readline, raw mode, cursor hiding and rendering (`src/prompt.ts:31-77`);
  - the promise plumbing around the prompt.
  - The Ctrl+C `process.exit(0)` is the `Abort` reaction.
- Prompt.MultiSelect.constructor requires at least one choice. With none, the source computes `% 0`, which is `NaN`. The CLI always passes five choices.
- An aborted prompt: `RunOutcome` and `Cli.Run` take the prompt's answer as a list, so a Ctrl+C during the prompt (`src/prompt.ts:119-124`) is not one of their inputs. Its effect, exit 0 with nothing installed, is the same as an empty answer apart from the log output.
- The installers' own effects: `Cli.Run` reports which installers it invoked, in order. The `run().catch` path is not modelled.
- Text encoding: each `char` stands for one UTF-16 code unit. Strings that hold surrogate code units, meaning astral characters or lone surrogates, are outside the model.
- GhosttyInstaller.RunValue reads a digit run as an exact, unbounded integer. The source's `Number.parseInt(_, 10)` returns a double: a run above 2^53 is rounded to a nearby double, so "9007199254740993" becomes 9007199254740992, and a run of about 309 digits or more becomes `Infinity`. The comparison with 1.3.0 does not change, since rounding keeps the order and every such value is far above 1.
- GhosttyInstaller.RunValueOf inherits this: for a component above 2^53 it gives the exact value, where the source gives the rounded one.
- GhosttyInstaller.ParseSemver inherits this: for a component above 2^53 it gives the exact value, where the source gives the rounded one.
- GhosttyInstaller.ParseSemverOfVersionText inherits this: for a component above 2^53 it gives the exact value, where the source gives the rounded one.
- GhosttyInstaller.ThemeMatchAtShape states soundness only: every match has the pattern's shape. The converse, that every line of that shape is matched at its start, is not stated.
- These files are not part of this model:
  - `src/paths.ts`, `src/log.ts`, `src/installers/opencode.ts` and `src/installers/warp.ts`;
  - the Neovim installer;
  - Zed's `JSON.parse`/`JSON.stringify` and settings merge around `stripJsonc`;
  - `scripts/check-theme-consistency.mjs`.
