// The JSONC stripper that prepares Zed's settings for `JSON.parse`: three
// global regular-expression replacements applied in order, each modelled as
// the left-to-right scan the regular-expression engine performs.
//
//   1. `//` through the end of its line is deleted (the terminator stays);
//   2. `/*` through the nearest following `*/` is deleted;
//   3. a `,` followed by white space and then `}` or `]` is deleted.
//
// The passes know nothing of JSON string literals, so a `//` inside a string
// (a URL, say) is removed like a comment.

module Jsonc {
  import opened Wrappers
  import opened Text

  // ---------------------------------------------------------------------
  // Pass 1: line comments.
  // ---------------------------------------------------------------------

  /** Two slashes start at `p`. */
  predicate LineCommentAt(s: string, p: nat)
  {
    p + 1 < |s| && s[p] == '/' && s[p + 1] == '/'
  }

  /** `replace(/\/\/.*$/gm, "")` on the text from `p` on. */
  function StripLineCommentsFrom(s: string, p: nat): string
    requires p <= |s|
    decreases |s| - p
  {
    if p == |s| then []
    else if LineCommentAt(s, p) then StripLineCommentsFrom(s, LineEnd(s, p + 2))
    else [s[p]] + StripLineCommentsFrom(s, p + 1)
  }

  function StripLineComments(s: string): string
  {
    StripLineCommentsFrom(s, 0)
  }

  /** A scan that does not start at a comment begins with the character it stands on. */
  lemma StripLineCommentsHead(s: string, p: nat)
    requires p < |s| && !LineCommentAt(s, p)
    ensures StripLineCommentsFrom(s, p) != [] && StripLineCommentsFrom(s, p)[0] == s[p]
  {
  }

  /** Text with no comment start in `[p, q)` is copied through up to `q`. */
  lemma {:induction false} StripLineCommentsKeepsPlain(s: string, p: nat, q: nat)
    requires p <= q <= |s|
    requires forall i :: p <= i < q ==> !LineCommentAt(s, i)
    ensures StripLineCommentsFrom(s, p) == s[p..q] + StripLineCommentsFrom(s, q)
    decreases q - p
  {
    if p < q {
      StripLineCommentsKeepsPlain(s, p + 1, q);
      var rest := StripLineCommentsFrom(s, q);
      assert StripLineCommentsFrom(s, p) == [s[p]] + StripLineCommentsFrom(s, p + 1);
      assert s[p..q] + rest == [s[p]] + (s[p + 1..q] + rest);
    }
  }

  /** A comment starting at `p` and running to `e` is dropped whole. */
  lemma LineCommentRemoved(s: string, p: nat, e: nat)
    requires LineCommentAt(s, p) && p + 2 <= e <= |s|
    requires forall k :: p + 2 <= k < e ==> !IsLineTerminator(s[k])
    requires e == |s| || IsLineTerminator(s[e])
    ensures StripLineCommentsFrom(s, p) == StripLineCommentsFrom(s, e)
  {
    LineEndFacts(s, p + 2);
  }

  /** The pass never lengthens the text. */
  lemma {:induction false} StripLineCommentsShorter(s: string, p: nat)
    requires p <= |s|
    ensures |StripLineCommentsFrom(s, p)| <= |s| - p
    decreases |s| - p
  {
    if p < |s| {
      if LineCommentAt(s, p) {
        StripLineCommentsShorter(s, LineEnd(s, p + 2));
      } else {
        StripLineCommentsShorter(s, p + 1);
      }
    }
  }

  /** No two adjacent slashes anywhere. */
  predicate NoLineComment(s: string)
  {
    forall i :: 0 <= i < |s| - 1 ==> !(s[i] == '/' && s[i + 1] == '/')
  }

  /** No `//` survives the pass. */
  lemma {:induction false} StripLineCommentsLeavesNone(s: string, p: nat)
    requires p <= |s|
    ensures NoLineComment(StripLineCommentsFrom(s, p))
    decreases |s| - p
  {
    if p < |s| {
      if LineCommentAt(s, p) {
        StripLineCommentsLeavesNone(s, LineEnd(s, p + 2));
      } else {
        StripLineCommentsLeavesNone(s, p + 1);
        var rest := StripLineCommentsFrom(s, p + 1);
        var r := [s[p]] + rest;
        if rest != [] && s[p] == '/' {
          StripLineCommentsHead(s, p + 1);
        }
        forall i | 0 <= i < |r| - 1 ensures !(r[i] == '/' && r[i + 1] == '/') {
          if i > 0 {
            assert r[i] == rest[i - 1] && r[i + 1] == rest[i];
          }
        }
      }
    }
  }

  /** Text without `//` passes through unchanged. */
  lemma {:induction false} StripLineCommentsUnchanged(s: string, p: nat)
    requires p <= |s| && NoLineComment(s)
    ensures StripLineCommentsFrom(s, p) == s[p..]
    decreases |s| - p
  {
    if p < |s| {
      StripLineCommentsUnchanged(s, p + 1);
      assert s[p..] == [s[p]] + s[p + 1..];
    }
  }

  /** Running the pass twice is running it once. */
  lemma StripLineCommentsIdempotent(s: string)
    ensures StripLineComments(StripLineComments(s)) == StripLineComments(s)
  {
    var t := StripLineComments(s);
    StripLineCommentsLeavesNone(s, 0);
    StripLineCommentsUnchanged(t, 0);
  }

  /** The line terminators of a text, in order. */
  function Terminators(s: string): (t: string)
    ensures |t| <= |s|
  {
    if s == [] then []
    else (if IsLineTerminator(s[0]) then [s[0]] else []) + Terminators(s[1..])
  }

  lemma {:induction false} TerminatorsOfSuffix(s: string, p: nat)
    requires p < |s|
    ensures Terminators(s[p..]) == (if IsLineTerminator(s[p]) then [s[p]] else []) + Terminators(s[p + 1..])
  {
    assert s[p..][1..] == s[p + 1..];
  }

  /** A stretch without terminators contributes none. */
  lemma {:induction false} TerminatorsSkip(s: string, p: nat, e: nat)
    requires p <= e <= |s|
    requires forall k :: p <= k < e ==> !IsLineTerminator(s[k])
    ensures Terminators(s[p..]) == Terminators(s[e..])
    decreases e - p
  {
    if p < e {
      TerminatorsOfSuffix(s, p);
      TerminatorsSkip(s, p + 1, e);
    }
  }

  /** Every line terminator is kept, so the text keeps its line structure. */
  lemma {:induction false} StripLineCommentsKeepsLines(s: string, p: nat)
    requires p <= |s|
    ensures Terminators(StripLineCommentsFrom(s, p)) == Terminators(s[p..])
    decreases |s| - p
  {
    if p < |s| {
      TerminatorsOfSuffix(s, p);
      if LineCommentAt(s, p) {
        var e := LineEnd(s, p + 2);
        LineEndFacts(s, p + 2);
        StripLineCommentsKeepsLines(s, e);
        TerminatorsSkip(s, p, e);
      } else {
        StripLineCommentsKeepsLines(s, p + 1);
        var r := [s[p]] + StripLineCommentsFrom(s, p + 1);
        assert r[0] == s[p] && r[1..] == StripLineCommentsFrom(s, p + 1);
      }
    }
  }

  /** A comment runs to the end of its line; the line break and what follows stay. */
  lemma LineCommentExample()
    ensures StripLineComments("1, // c\n}") == "1, \n}"
  {
    var s := "1, // c\n}";
    StripLineCommentsKeepsPlain(s, 0, 3);
    LineCommentRemoved(s, 3, 7);
    StripLineCommentsKeepsPlain(s, 7, 9);
    assert s[0..3] == "1, " && s[7..9] == "\n}";
  }

  /** A `//` inside a string literal is removed just the same. */
  lemma LineCommentInStringExample()
    ensures StripLineComments("\"a://b\"") == "\"a:"
  {
    var s := "\"a://b\"";
    StripLineCommentsKeepsPlain(s, 0, 3);
    LineCommentRemoved(s, 3, 7);
    assert s[0..3] == "\"a:";
  }

  // ---------------------------------------------------------------------
  // Pass 2: block comments.
  // ---------------------------------------------------------------------

  predicate BlockOpenAt(s: string, p: nat)
  {
    p + 1 < |s| && s[p] == '/' && s[p + 1] == '*'
  }

  predicate BlockCloseAt(s: string, k: nat)
  {
    k + 1 < |s| && s[k] == '*' && s[k + 1] == '/'
  }

  // The nearest closing `*` `/` at or after `q` (the lazy `[\s\S]*?`), if any.
  function FindClose(s: string, q: nat): (k: Option<nat>)
    requires q <= |s|
    ensures k.Some? ==> q <= k.value && BlockCloseAt(s, k.value)
    decreases |s| - q
  {
    if q + 1 >= |s| then None
    else if BlockCloseAt(s, q) then Some(q)
    else FindClose(s, q + 1)
  }

  /** `FindClose` finds the nearest closing marker, and reports none only when there is none. */
  lemma {:induction false} FindCloseFacts(s: string, q: nat)
    requires q <= |s|
    ensures FindClose(s, q).Some? ==> forall j :: q <= j < FindClose(s, q).value ==> !BlockCloseAt(s, j)
    ensures FindClose(s, q).None? ==> forall j :: q <= j ==> !BlockCloseAt(s, j)
    decreases |s| - q
  {
    if q + 1 < |s| && !BlockCloseAt(s, q) {
      FindCloseFacts(s, q + 1);
    }
  }

  /** `replace(/\/\*[\s\S]*?\*\//g, "")` on the text from `p` on. */
  function StripBlockCommentsFrom(s: string, p: nat): string
    requires p <= |s|
    decreases |s| - p
  {
    if p == |s| then []
    else if BlockOpenAt(s, p) && FindClose(s, p + 2).Some? then
      StripBlockCommentsFrom(s, FindClose(s, p + 2).value + 2)
    else [s[p]] + StripBlockCommentsFrom(s, p + 1)
  }

  function StripBlockComments(s: string): string
  {
    StripBlockCommentsFrom(s, 0)
  }

  lemma {:induction false} StripBlockCommentsShorter(s: string, p: nat)
    requires p <= |s|
    ensures |StripBlockCommentsFrom(s, p)| <= |s| - p
    decreases |s| - p
  {
    if p < |s| {
      if BlockOpenAt(s, p) && FindClose(s, p + 2).Some? {
        StripBlockCommentsShorter(s, FindClose(s, p + 2).value + 2);
      } else {
        StripBlockCommentsShorter(s, p + 1);
      }
    }
  }

  // No opening `/` `*` anywhere.
  predicate NoBlockOpen(s: string)
  {
    forall i :: 0 <= i < |s| - 1 ==> !(s[i] == '/' && s[i + 1] == '*')
  }

  lemma {:induction false} StripBlockCommentsUnchanged(s: string, p: nat)
    requires p <= |s| && NoBlockOpen(s)
    ensures StripBlockCommentsFrom(s, p) == s[p..]
    decreases |s| - p
  {
    if p < |s| {
      StripBlockCommentsUnchanged(s, p + 1);
      assert s[p..] == [s[p]] + s[p + 1..];
    }
  }

  // A comment opened at `p` ends at the NEAREST closing marker after the
  // opening, so everything up to and including that marker goes and the scan
  // resumes right after it; the removed stretch may span lines.
  lemma BlockCommentShortest(s: string, p: nat, k: nat)
    requires BlockOpenAt(s, p)
    requires p + 2 <= k && BlockCloseAt(s, k)
    requires forall j :: p + 2 <= j < k ==> !BlockCloseAt(s, j)
    ensures StripBlockCommentsFrom(s, p) == StripBlockCommentsFrom(s, k + 2)
  {
    FindCloseFacts(s, p + 2);
  }

  /** An opening with no closing marker after it is ordinary text. */
  lemma UnclosedBlockKept(s: string, p: nat)
    requires BlockOpenAt(s, p)
    requires forall j :: p + 2 <= j ==> !BlockCloseAt(s, j)
    ensures StripBlockCommentsFrom(s, p) == [s[p]] + StripBlockCommentsFrom(s, p + 1)
  {
    FindCloseFacts(s, p + 2);
  }

  /** Text with no opening marker in `[p, q)` is copied through up to `q`. */
  lemma {:induction false} StripBlockCommentsKeepsPlain(s: string, p: nat, q: nat)
    requires p <= q <= |s|
    requires forall i :: p <= i < q ==> !BlockOpenAt(s, i)
    ensures StripBlockCommentsFrom(s, p) == s[p..q] + StripBlockCommentsFrom(s, q)
    decreases q - p
  {
    if p < q {
      StripBlockCommentsKeepsPlain(s, p + 1, q);
      var rest := StripBlockCommentsFrom(s, q);
      assert StripBlockCommentsFrom(s, p) == [s[p]] + StripBlockCommentsFrom(s, p + 1);
      assert s[p..q] + rest == [s[p]] + (s[p + 1..q] + rest);
    }
  }

  /** A block comment spanning two lines is removed along with its line break. */
  lemma BlockCommentExample()
    ensures StripBlockComments("a/*\n*/b") == "ab"
  {
    var s := "a/*\n*/b";
    StripBlockCommentsKeepsPlain(s, 0, 1);
    BlockCommentShortest(s, 1, 4);
    StripBlockCommentsKeepsPlain(s, 6, 7);
    assert s[0..1] == "a" && s[6..7] == "b";
  }

  // ---------------------------------------------------------------------
  // Pass 3: trailing commas.
  // ---------------------------------------------------------------------

  predicate IsClosingBracket(c: char)
  {
    c == '}' || c == ']'
  }

  /** A comma at `p` followed by white space and then a closing bracket. */
  predicate TrailingCommaAt(s: string, p: nat)
    requires p < |s|
  {
    s[p] == ',' && SpaceEnd(s, p + 1) < |s| && IsClosingBracket(s[SpaceEnd(s, p + 1)])
  }

  /** `replace(/,(\s*[}\]])/g, "$1")` on the text from `p` on. */
  function StripTrailingCommasFrom(s: string, p: nat): string
    requires p <= |s|
    decreases |s| - p
  {
    if p == |s| then []
    else if TrailingCommaAt(s, p) then
      var b := SpaceEnd(s, p + 1);
      s[p + 1..b + 1] + StripTrailingCommasFrom(s, b + 1)
    else [s[p]] + StripTrailingCommasFrom(s, p + 1)
  }

  function StripTrailingCommas(s: string): string
  {
    StripTrailingCommasFrom(s, 0)
  }

  lemma {:induction false} StripTrailingCommasShorter(s: string, p: nat)
    requires p <= |s|
    ensures |StripTrailingCommasFrom(s, p)| <= |s| - p
    decreases |s| - p
  {
    if p < |s| {
      if TrailingCommaAt(s, p) {
        StripTrailingCommasShorter(s, SpaceEnd(s, p + 1) + 1);
      } else {
        StripTrailingCommasShorter(s, p + 1);
      }
    }
  }

  /** The text with its commas left out. */
  function WithoutCommas(s: string): (t: string)
    ensures |t| <= |s|
  {
    if s == [] then [] else (if s[0] == ',' then [] else [s[0]]) + WithoutCommas(s[1..])
  }

  lemma {:induction false} WithoutCommasAppend(a: string, b: string)
    ensures WithoutCommas(a + b) == WithoutCommas(a) + WithoutCommas(b)
  {
    if a == [] {
      assert a + b == b;
    } else {
      assert (a + b)[0] == a[0];
      assert (a + b)[1..] == a[1..] + b;
      WithoutCommasAppend(a[1..], b);
      var h := if a[0] == ',' then [] else [a[0]];
      assert WithoutCommas(a + b) == h + WithoutCommas(a[1..] + b);
      assert WithoutCommas(a) == h + WithoutCommas(a[1..]);
    }
  }

  lemma {:induction false} WithoutCommasOfSuffix(s: string, p: nat)
    requires p < |s|
    ensures WithoutCommas(s[p..]) == (if s[p] == ',' then [] else [s[p]]) + WithoutCommas(s[p + 1..])
  {
    assert s[p..][1..] == s[p + 1..];
  }

  lemma WithoutCommasSkipComma(s: string, p: nat, b: nat)
    requires p < b < |s| && s[p] == ','
    ensures WithoutCommas(s[p..]) == WithoutCommas(s[p + 1..b + 1]) + WithoutCommas(s[b + 1..])
  {
    WithoutCommasOfSuffix(s, p);
    assert s[p + 1..] == s[p + 1..b + 1] + s[b + 1..];
    WithoutCommasAppend(s[p + 1..b + 1], s[b + 1..]);
  }

  /** Only commas are deleted: every other character is kept, in order. */
  lemma {:induction false} StripTrailingCommasOnlyCommas(s: string, p: nat)
    requires p <= |s|
    ensures WithoutCommas(StripTrailingCommasFrom(s, p)) == WithoutCommas(s[p..])
    decreases |s| - p
  {
    if p < |s| {
      if TrailingCommaAt(s, p) {
        StripTrailingCommasOnlyCommas(s, SpaceEnd(s, p + 1) + 1);
        OnlyCommasCaseComma(s, p);
      } else {
        StripTrailingCommasOnlyCommas(s, p + 1);
        OnlyCommasCaseOther(s, p);
      }
    }
  }

  lemma OnlyCommasCaseComma(s: string, p: nat)
    requires p < |s| && TrailingCommaAt(s, p)
    requires WithoutCommas(StripTrailingCommasFrom(s, SpaceEnd(s, p + 1) + 1))
      == WithoutCommas(s[SpaceEnd(s, p + 1) + 1..])
    ensures WithoutCommas(StripTrailingCommasFrom(s, p)) == WithoutCommas(s[p..])
  {
    var b := SpaceEnd(s, p + 1);
    StripTrailingCommasAtComma(s, p);
    OnlyCommasAtTrailing(s, p, b, StripTrailingCommasFrom(s, b + 1), StripTrailingCommasFrom(s, p));
  }

  lemma OnlyCommasCaseOther(s: string, p: nat)
    requires p < |s| && !TrailingCommaAt(s, p)
    requires WithoutCommas(StripTrailingCommasFrom(s, p + 1)) == WithoutCommas(s[p + 1..])
    ensures WithoutCommas(StripTrailingCommasFrom(s, p)) == WithoutCommas(s[p..])
  {
    StripTrailingCommasElsewhere(s, p);
    OnlyCommasAtOther(s, p, StripTrailingCommasFrom(s, p + 1), StripTrailingCommasFrom(s, p));
  }

  lemma StripTrailingCommasAtComma(s: string, p: nat)
    requires p < |s| && TrailingCommaAt(s, p)
    ensures StripTrailingCommasFrom(s, p)
      == s[p + 1..SpaceEnd(s, p + 1) + 1] + StripTrailingCommasFrom(s, SpaceEnd(s, p + 1) + 1)
  {
  }

  lemma StripTrailingCommasElsewhere(s: string, p: nat)
    requires p < |s| && !TrailingCommaAt(s, p)
    ensures StripTrailingCommasFrom(s, p) == [s[p]] + StripTrailingCommasFrom(s, p + 1)
  {
  }

  lemma OnlyCommasAtTrailing(s: string, p: nat, b: nat, rest: string, out: string)
    requires p < b < |s| && s[p] == ','
    requires out == s[p + 1..b + 1] + rest
    requires WithoutCommas(rest) == WithoutCommas(s[b + 1..])
    ensures WithoutCommas(out) == WithoutCommas(s[p..])
  {
    WithoutCommasAppend(s[p + 1..b + 1], rest);
    WithoutCommasSkipComma(s, p, b);
  }

  lemma OnlyCommasAtOther(s: string, p: nat, rest: string, out: string)
    requires p < |s| && out == [s[p]] + rest
    requires WithoutCommas(rest) == WithoutCommas(s[p + 1..])
    ensures WithoutCommas(out) == WithoutCommas(s[p..])
  {
    WithoutCommasAppend([s[p]], rest);
    WithoutCommasOfSuffix(s, p);
  }

  /** The reference form of the comma pass: each character is kept unless it is a trailing comma. */
  function KeepNonTrailing(s: string, p: nat): (t: string)
    requires p <= |s|
    ensures |t| <= |s| - p
    decreases |s| - p
  {
    if p == |s| then []
    else (if TrailingCommaAt(s, p) then [] else [s[p]]) + KeepNonTrailing(s, p + 1)
  }

  /** A span without commas holds no trailing comma, so the reference form copies it. */
  lemma {:induction false} KeepNonTrailingCopies(s: string, lo: nat, hi: nat)
    requires lo <= hi <= |s|
    requires forall k :: lo <= k < hi ==> s[k] != ','
    ensures KeepNonTrailing(s, lo) == s[lo..hi] + KeepNonTrailing(s, hi)
    decreases hi - lo
  {
    if lo < hi {
      KeepNonTrailingCopies(s, lo + 1, hi);
      assert s[lo] != ',';
      KeepNonTrailingElsewhere(s, lo);
      assert s[lo..hi] == [s[lo]] + s[lo + 1..hi];
    }
  }

  /**
   * The scan removes exactly the trailing commas of the text and nothing else.
   * The white space and bracket after a removed comma hold no comma, so
   * skipping them in one match loses no trailing comma.
   */
  lemma {:induction false} StripTrailingCommasIsReference(s: string, p: nat)
    requires p <= |s|
    ensures StripTrailingCommasFrom(s, p) == KeepNonTrailing(s, p)
    decreases |s| - p
  {
    if p < |s| {
      if TrailingCommaAt(s, p) {
        StripTrailingCommasIsReference(s, SpaceEnd(s, p + 1) + 1);
        ReferenceCaseComma(s, p);
      } else {
        StripTrailingCommasIsReference(s, p + 1);
        ReferenceCaseOther(s, p);
      }
    }
  }

  lemma ReferenceCaseComma(s: string, p: nat)
    requires p < |s| && TrailingCommaAt(s, p)
    requires StripTrailingCommasFrom(s, SpaceEnd(s, p + 1) + 1) == KeepNonTrailing(s, SpaceEnd(s, p + 1) + 1)
    ensures StripTrailingCommasFrom(s, p) == KeepNonTrailing(s, p)
  {
    var b := SpaceEnd(s, p + 1);
    MatchSpanHasNoComma(s, p);
    KeepNonTrailingCopies(s, p + 1, b + 1);
    StripTrailingCommasAtComma(s, p);
    KeepNonTrailingAtComma(s, p);
  }

  lemma ReferenceCaseOther(s: string, p: nat)
    requires p < |s| && !TrailingCommaAt(s, p)
    requires StripTrailingCommasFrom(s, p + 1) == KeepNonTrailing(s, p + 1)
    ensures StripTrailingCommasFrom(s, p) == KeepNonTrailing(s, p)
  {
    StripTrailingCommasElsewhere(s, p);
    KeepNonTrailingElsewhere(s, p);
  }

  lemma KeepNonTrailingAtComma(s: string, p: nat)
    requires p < |s| && TrailingCommaAt(s, p)
    ensures KeepNonTrailing(s, p) == KeepNonTrailing(s, p + 1)
  {
  }

  lemma KeepNonTrailingElsewhere(s: string, p: nat)
    requires p < |s| && !TrailingCommaAt(s, p)
    ensures KeepNonTrailing(s, p) == [s[p]] + KeepNonTrailing(s, p + 1)
  {
  }

  /** The white space and the bracket that follow a trailing comma hold no comma. */
  lemma MatchSpanHasNoComma(s: string, p: nat)
    requires p < |s| && TrailingCommaAt(s, p)
    ensures forall k :: p + 1 <= k < SpaceEnd(s, p + 1) + 1 ==> s[k] != ','
  {
    var b := SpaceEnd(s, p + 1);
    SpaceEndFacts(s, p + 1);
    forall k | p + 1 <= k < b + 1 ensures s[k] != ',' {
      if k < b {
        assert IsJsWhitespace(s[k]);
      }
    }
  }

  /** No comma anywhere is followed by white space and a closing bracket. */
  predicate NoTrailingComma(s: string)
  {
    forall p :: 0 <= p < |s| ==> !TrailingCommaAt(s, p)
  }

  lemma {:induction false} StripTrailingCommasUnchanged(s: string, p: nat)
    requires p <= |s| && NoTrailingComma(s)
    ensures StripTrailingCommasFrom(s, p) == s[p..]
    decreases |s| - p
  {
    if p < |s| {
      assert !TrailingCommaAt(s, p);
      StripTrailingCommasUnchanged(s, p + 1);
      assert s[p..] == [s[p]] + s[p + 1..];
    }
  }

  /** A trailing comma goes; the white space and the bracket after it stay. */
  lemma TrailingCommaExample()
    ensures StripTrailingCommas("[1,\n]") == "[1\n]"
  {
    var s := "[1,\n]";
    assert SpaceEnd(s, 3) == 4 by {
      assert IsJsWhitespace(s[3]) && !IsJsWhitespace(s[4]);
      assert SpaceEnd(s, 4) == 4;
    }
    assert TrailingCommaAt(s, 2);
    assert StripTrailingCommasFrom(s, 2) == s[3..5] + StripTrailingCommasFrom(s, 5);
    assert s[3..5] == "\n]";
  }

  // ---------------------------------------------------------------------
  // The three passes together.
  // ---------------------------------------------------------------------

  /** `stripJsonc`: comments first, then trailing commas. */
  function StripJsonc(input: string): string
  {
    StripTrailingCommas(StripBlockComments(StripLineComments(input)))
  }

  /** The output is never longer than the input. */
  lemma StripJsoncShorter(input: string)
    ensures |StripJsonc(input)| <= |input|
  {
    StripLineCommentsShorter(input, 0);
    StripBlockCommentsShorter(StripLineComments(input), 0);
    StripTrailingCommasShorter(StripBlockComments(StripLineComments(input)), 0);
  }

  predicate NoSlash(s: string)
  {
    forall i :: 0 <= i < |s| ==> s[i] != '/'
  }

  /** Text with no `/` and no trailing comma is returned as it is. */
  lemma StripJsoncUnchanged(input: string)
    requires NoSlash(input) && NoTrailingComma(input)
    ensures StripJsonc(input) == input
  {
    StripLineCommentsUnchanged(input, 0);
    StripBlockCommentsUnchanged(input, 0);
    StripTrailingCommasUnchanged(input, 0);
  }

  /** Only commas are ever removed from comment-free text. */
  lemma StripJsoncOnlyCommas(input: string)
    requires NoSlash(input)
    ensures WithoutCommas(StripJsonc(input)) == WithoutCommas(input)
  {
    StripLineCommentsUnchanged(input, 0);
    StripBlockCommentsUnchanged(input, 0);
    StripTrailingCommasOnlyCommas(input, 0);
  }

  /** Comments go before commas are looked at, so a comma separated from its bracket by a comment still goes. */
  lemma CommentBeforeBracketExample()
    ensures StripJsonc("[1,/**/]") == "[1]"
  {
    var s := "[1,/**/]";
    StripLineCommentsUnchanged(s, 0);
    EmptyBlockRemoved();
    var t := "[1,]";
    assert TrailingCommaAt(t, 2) && SpaceEnd(t, 3) == 3;
  }

  lemma EmptyBlockRemoved()
    ensures StripBlockComments("[1,/**/]") == "[1,]"
  {
    var s := "[1,/**/]";
    StripBlockCommentsKeepsPlain(s, 0, 3);
    BlockCommentShortest(s, 3, 5);
    StripBlockCommentsKeepsPlain(s, 7, 8);
    assert s[0..3] == "[1," && s[7..8] == "]";
  }
}
