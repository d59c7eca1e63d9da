// The interactive multi-select prompt: a cursor over the choices, a set of
// selected indices that starts full, and a key handler that moves, toggles,
// confirms or aborts.

module Prompt {
  import opened Text

  /** One line of the prompt (the source's `label` is `title` here: `label` is a Dafny keyword). */
  datatype Choice = Choice(title: string, value: string, description: string)

  /** What the key handler does with the prompt after one key. */
  datatype Reaction =
    | Continue                      // keep listening
    | Confirm(values: seq<string>)  // resolve the prompt with these values
    | Abort                         // Ctrl+C: the process exits with status 0

  const UpArrow: string := "\U{1B}[A"
  const DownArrow: string := "\U{1B}[B"
  const CtrlC: string := "\U{03}"

  predicate IsUpKey(key: string) { key == UpArrow || key == "k" }
  predicate IsDownKey(key: string) { key == DownArrow || key == "j" }
  predicate IsToggleKey(key: string) { key == " " }
  predicate IsConfirmKey(key: string) { key == "\r" || key == "\n" }
  predicate IsAbortKey(key: string) { key == CtrlC }

  /** A key the handler reacts to at all; every other key is ignored. */
  predicate IsKnownKey(key: string)
  {
    IsUpKey(key) || IsDownKey(key) || IsToggleKey(key) || IsConfirmKey(key) || IsAbortKey(key)
  }

  /** The five key classes do not overlap. */
  lemma KeyClassesDisjoint(key: string)
    ensures IsUpKey(key) ==> !IsDownKey(key) && !IsToggleKey(key) && !IsConfirmKey(key) && !IsAbortKey(key)
    ensures IsDownKey(key) ==> !IsToggleKey(key) && !IsConfirmKey(key) && !IsAbortKey(key)
    ensures IsToggleKey(key) ==> !IsConfirmKey(key) && !IsAbortKey(key)
    ensures IsConfirmKey(key) ==> !IsAbortKey(key)
  {
  }

  // ---------------------------------------------------------------------
  // Cursor movement: `(cursor - 1 + n) % n` and `(cursor + 1) % n`.
  // ---------------------------------------------------------------------

  function CursorUp(c: nat, n: nat): nat
    requires n >= 1
  {
    (c - 1 + n) % n
  }

  function CursorDown(c: nat, n: nat): nat
    requires n >= 1
  {
    (c + 1) % n
  }

  /** Both moves stay on the list, wrap around at its ends and undo each other. */
  lemma CursorMoves(c: nat, n: nat)
    requires c < n
    ensures CursorUp(c, n) == (if c == 0 then n - 1 else c - 1)
    ensures CursorDown(c, n) == (if c == n - 1 then 0 else c + 1)
    ensures CursorUp(c, n) < n && CursorDown(c, n) < n
    ensures CursorUp(CursorDown(c, n), n) == c
    ensures CursorDown(CursorUp(c, n), n) == c
  {
    CursorUpValue(c, n);
    CursorDownValue(c, n);
    CursorUpValue(CursorDown(c, n), n);
    CursorDownValue(CursorUp(c, n), n);
  }

  lemma CursorUpValue(c: nat, n: nat)
    requires c < n
    ensures CursorUp(c, n) == (if c == 0 then n - 1 else c - 1)
  {
    if c == 0 {
      ModSmall(n - 1, n);
    } else {
      ModWrap(c - 1 + n, n);
    }
  }

  lemma CursorDownValue(c: nat, n: nat)
    requires c < n
    ensures CursorDown(c, n) == (if c == n - 1 then 0 else c + 1)
  {
    if c == n - 1 {
      ModWrap(n, n);
    } else {
      ModSmall(c + 1, n);
    }
  }

  lemma ModSmall(x: int, n: int)
    requires 0 <= x < n
    ensures x % n == x
  {
  }

  lemma ModWrap(x: int, n: int)
    requires n <= x < 2 * n
    ensures x % n == x - n
  {
  }

  // ---------------------------------------------------------------------
  // Selection: a set of indices, toggled at the cursor.
  // ---------------------------------------------------------------------

  /** `new Set(choices.map((_, i) => i))`: every index selected. */
  function AllIndices(n: nat): (s: set<nat>)
    ensures forall i: nat :: i in s <==> i < n
    ensures |s| == n
  {
    if n == 0 then {} else AllIndices(n - 1) + {n - 1}
  }

  /** Space: delete the index under the cursor when selected, add it otherwise. */
  function Toggle(selected: set<nat>, c: nat): set<nat>
  {
    if c in selected then selected - {c} else selected + {c}
  }

  /** A toggle flips exactly the cursor's index, and toggling twice restores the selection. */
  lemma ToggleFacts(selected: set<nat>, c: nat)
    ensures c in Toggle(selected, c) <==> c !in selected
    ensures forall i: nat :: i != c ==> (i in Toggle(selected, c) <==> i in selected)
    ensures Toggle(Toggle(selected, c), c) == selected
  {
  }

  // ---------------------------------------------------------------------
  // Confirmation: `[...selected].sort().map(idx => choices[idx].value)`.
  // With no comparator, `sort` compares the indices as strings, so index
  // 10 precedes index 2.
  // ---------------------------------------------------------------------

  /** The default sort order of `sort()` on numbers: their decimal strings compared. */
  predicate IndexLess(i: nat, j: nat)
  {
    StringLess(NatToString(i), NatToString(j))
  }

  lemma IndexLessIsStrictTotalOrder(i: nat, j: nat, k: nat)
    ensures !IndexLess(i, i)
    ensures i != j ==> IndexLess(i, j) || IndexLess(j, i)
    ensures IndexLess(i, j) ==> !IndexLess(j, i)
    ensures IndexLess(i, j) && IndexLess(j, k) ==> IndexLess(i, k)
  {
    StringLessIrreflexive(NatToString(i));
    if i != j {
      assert DecimalValue(NatToString(i)) != DecimalValue(NatToString(j));
      StringLessTotal(NatToString(i), NatToString(j));
    }
    StringLessAsymmetric(NatToString(i), NatToString(j));
    if IndexLess(i, j) && IndexLess(j, k) {
      StringLessTransitive(NatToString(i), NatToString(j), NatToString(k));
    }
  }

  /** Below ten the string order is the numeric order. */
  lemma IndexLessOnDigits(i: nat, j: nat)
    requires i < 10 && j < 10
    ensures IndexLess(i, j) <==> i < j
  {
    DecimalDigitValue(i);
    DecimalDigitValue(j);
    var a, b := DecimalDigit(i), DecimalDigit(j);
    assert NatToString(i) == [a] && NatToString(j) == [b];
    assert [a][1..] == [] && [b][1..] == [];
    assert StringLess([a], [b]) <==> a < b;
    assert a < b <==> i < j;
  }

  predicate StrictlySorted(xs: seq<nat>)
  {
    forall p, q :: 0 <= p < q < |xs| ==> IndexLess(xs[p], xs[q])
  }

  /** The selected indices below `n`, in increasing numeric order (the iteration order is irrelevant once sorted). */
  function AscendingIndices(selected: set<nat>, n: nat): (xs: seq<nat>)
    ensures forall i: nat :: i in xs <==> i in selected && i < n
    ensures forall p :: 0 <= p < |xs| ==> xs[p] < n
    ensures forall p, q :: 0 <= p < q < |xs| ==> xs[p] < xs[q]
  {
    if n == 0 then []
    else AscendingIndices(selected, n - 1) + (if n - 1 in selected then [n - 1] else [])
  }

  function InsertByString(x: nat, ys: seq<nat>): seq<nat>
  {
    if ys == [] then [x]
    else if IndexLess(x, ys[0]) then [x] + ys
    else [ys[0]] + InsertByString(x, ys[1..])
  }

  /** Insertion sort by the default string order. */
  function SortByString(xs: seq<nat>): seq<nat>
  {
    if xs == [] then [] else InsertByString(xs[0], SortByString(xs[1..]))
  }

  /** A sorted list's head precedes every later element. */
  lemma SortedSplit(xs: seq<nat>)
    requires StrictlySorted(xs) && xs != []
    ensures StrictlySorted(xs[1..])
    ensures forall i: nat :: i in xs[1..] ==> IndexLess(xs[0], i)
    ensures forall i: nat :: i in xs <==> i == xs[0] || i in xs[1..]
  {
    var t := xs[1..];
    forall p, q | 0 <= p < q < |t| ensures IndexLess(t[p], t[q]) {
      assert t[p] == xs[p + 1] && t[q] == xs[q + 1];
    }
    forall i: nat | i in t ensures IndexLess(xs[0], i) {
      var q :| 0 <= q < |t| && t[q] == i;
      assert xs[q + 1] == i;
    }
    assert xs == [xs[0]] + t;
  }

  /** Putting an element in front of a sorted list it precedes keeps it sorted. */
  lemma ConsSorted(h: nat, t: seq<nat>)
    requires StrictlySorted(t)
    requires forall i: nat :: i in t ==> IndexLess(h, i)
    ensures StrictlySorted([h] + t)
  {
    var r := [h] + t;
    forall p, q | 0 <= p < q < |r| ensures IndexLess(r[p], r[q]) {
      assert r[q] == t[q - 1];
      if p > 0 {
        assert r[p] == t[p - 1];
      } else {
        assert t[q - 1] in t;
      }
    }
  }

  lemma {:induction false} InsertByStringSorted(x: nat, ys: seq<nat>)
    requires StrictlySorted(ys) && x !in ys
    ensures multiset(InsertByString(x, ys)) == multiset(ys) + multiset{x}
    ensures forall i: nat :: i in InsertByString(x, ys) <==> i == x || i in ys
    ensures StrictlySorted(InsertByString(x, ys))
  {
    if ys == [] {
    } else {
      SortedSplit(ys);
      if IndexLess(x, ys[0]) {
        forall i: nat | i in ys ensures IndexLess(x, i) {
          if i != ys[0] {
            IndexLessIsStrictTotalOrder(x, ys[0], i);
          }
        }
        ConsSorted(x, ys);
      } else {
        IndexLessIsStrictTotalOrder(x, ys[0], x);
        assert ys == [ys[0]] + ys[1..];
        InsertByStringSorted(x, ys[1..]);
        ConsSorted(ys[0], InsertByString(x, ys[1..]));
      }
    }
  }

  /** Sorting a duplicate-free list yields a strictly sorted permutation of it. */
  lemma {:induction false} SortByStringSorted(xs: seq<nat>)
    requires forall p, q :: 0 <= p < q < |xs| ==> xs[p] != xs[q]
    ensures multiset(SortByString(xs)) == multiset(xs)
    ensures StrictlySorted(SortByString(xs))
  {
    if xs != [] {
      var rest := xs[1..];
      assert xs == [xs[0]] + rest;
      SortByStringSorted(rest);
      assert xs[0] !in multiset(rest);
      assert xs[0] !in SortByString(rest) by {
        assert xs[0] !in multiset(SortByString(rest));
      }
      InsertByStringSorted(xs[0], SortByString(rest));
    }
  }

  /** The indices the confirmed values come from, in the order they are reported. */
  function ConfirmedIndices(selected: set<nat>, n: nat): seq<nat>
  {
    SortByString(AscendingIndices(selected, n))
  }

  /** The indices `Enter` reports are the selected ones, each once, in string order. */
  lemma ConfirmedIndicesFacts(selected: set<nat>, n: nat)
    ensures StrictlySorted(ConfirmedIndices(selected, n))
    ensures forall i: nat :: i in ConfirmedIndices(selected, n) <==> i in selected && i < n
    ensures forall p :: 0 <= p < |ConfirmedIndices(selected, n)| ==> ConfirmedIndices(selected, n)[p] < n
    ensures forall p, q :: 0 <= p < q < |ConfirmedIndices(selected, n)| ==>
      ConfirmedIndices(selected, n)[p] != ConfirmedIndices(selected, n)[q]
  {
    var xs := AscendingIndices(selected, n);
    SortByStringSorted(xs);
    var ys := ConfirmedIndices(selected, n);
    forall i: nat ensures i in ys <==> i in selected && i < n {
      assert i in ys <==> i in multiset(ys);
      assert i in xs <==> i in multiset(xs);
    }
    forall p | 0 <= p < |ys| ensures ys[p] < n {
      assert ys[p] in ys;
    }
    forall p, q | 0 <= p < q < |ys| ensures ys[p] != ys[q] {
      IndexLessIsStrictTotalOrder(ys[p], ys[q], ys[q]);
    }
  }

  /** Two strictly sorted lists of the same indices are the same list. */
  lemma {:induction false} StrictlySortedUnique(xs: seq<nat>, ys: seq<nat>)
    requires StrictlySorted(xs) && StrictlySorted(ys)
    requires forall i: nat :: i in xs <==> i in ys
    ensures xs == ys
    decreases |xs|
  {
    if ys != [] {
      assert ys[0] in xs;
    }
    if xs != [] {
      assert xs[0] in ys;
      SortedSplit(xs);
      SortedSplit(ys);
      IndexLessIsStrictTotalOrder(xs[0], ys[0], ys[0]);
      assert xs[0] == ys[0];
      forall i: nat ensures i in xs[1..] <==> i in ys[1..] {
        IndexLessIsStrictTotalOrder(i, i, i);
      }
      StrictlySortedUnique(xs[1..], ys[1..]);
      assert xs == [xs[0]] + xs[1..] && ys == [ys[0]] + ys[1..];
    }
  }

  /**
   * The reported order depends on the selected set alone: any strictly
   * string-sorted listing of the selection is the one `Enter` reports, so
   * the order in which indices were toggled does not matter.
   */
  lemma ConfirmedIndicesUnique(selected: set<nat>, n: nat, order: seq<nat>)
    requires StrictlySorted(order)
    requires forall i: nat :: i in order <==> i in selected && i < n
    ensures ConfirmedIndices(selected, n) == order
  {
    ConfirmedIndicesFacts(selected, n);
    StrictlySortedUnique(ConfirmedIndices(selected, n), order);
  }

  /** With fewer than eleven choices the values come out in list order. */
  lemma ConfirmedIndicesNumericBelowTen(selected: set<nat>, n: nat)
    requires n <= 10
    ensures forall p, q :: 0 <= p < q < |ConfirmedIndices(selected, n)| ==>
      ConfirmedIndices(selected, n)[p] < ConfirmedIndices(selected, n)[q]
  {
    ConfirmedIndicesFacts(selected, n);
    var ys := ConfirmedIndices(selected, n);
    forall p, q | 0 <= p < q < |ys| ensures ys[p] < ys[q] {
      assert ys[p] in ys && ys[q] in ys;
      IndexLessOnDigits(ys[p], ys[q]);
    }
  }

  /** With eleven or more choices, index 10 is reported before index 2. */
  lemma ConfirmedIndicesStringOrder()
    ensures ConfirmedIndices({2, 10}, 11) == [10, 2]
  {
    assert NatToString(2) == "2";
    assert NatToString(10) == "10";
    assert IndexLess(10, 2);
    var order: seq<nat> := [10, 2];
    forall i: nat ensures i in order <==> i in {2, 10} && i < 11 {
    }
    ConfirmedIndicesUnique({2, 10}, 11, order);
  }

  /** The values of the choices at `indices`, in that order. */
  function ValuesAt(choices: seq<Choice>, indices: seq<nat>): (vs: seq<string>)
    requires forall p :: 0 <= p < |indices| ==> indices[p] < |choices|
    ensures |vs| == |indices|
    ensures forall p :: 0 <= p < |indices| ==> vs[p] == choices[indices[p]].value
  {
    seq(|indices|, p requires 0 <= p < |indices| => choices[indices[p]].value)
  }

  /** The values `Enter` resolves with. */
  function ConfirmedValues(choices: seq<Choice>, selected: set<nat>): (vs: seq<string>)
    ensures |vs| == |ConfirmedIndices(selected, |choices|)|
  {
    ConfirmedIndicesFacts(selected, |choices|);
    ValuesAt(choices, ConfirmedIndices(selected, |choices|))
  }

  /**
   * The confirmed values are those of exactly the selected choices: one per
   * selected index, taken from that index's choice.
   */
  lemma ConfirmedValuesFacts(choices: seq<Choice>, selected: set<nat>)
    requires forall i: nat :: i in selected ==> i < |choices|
    ensures |ConfirmedValues(choices, selected)| == |selected|
    ensures forall i: nat :: i in selected <==> i in ConfirmedIndices(selected, |choices|)
    ensures forall p :: 0 <= p < |ConfirmedIndices(selected, |choices|)| ==>
      ConfirmedIndices(selected, |choices|)[p] < |choices|
    ensures forall p :: 0 <= p < |ConfirmedIndices(selected, |choices|)| ==>
      ConfirmedValues(choices, selected)[p] == choices[ConfirmedIndices(selected, |choices|)[p]].value
  {
    var n := |choices|;
    ConfirmedIndicesFacts(selected, n);
    var ys := ConfirmedIndices(selected, n);
    DistinctCardinality(ys, selected);
  }

  lemma {:induction false} DistinctCardinality(ys: seq<nat>, s: set<nat>)
    requires forall p, q :: 0 <= p < q < |ys| ==> ys[p] != ys[q]
    requires forall i: nat :: i in ys <==> i in s
    ensures |ys| == |s|
    decreases |ys|
  {
    if ys != [] {
      var last := ys[|ys| - 1];
      var init := ys[..|ys| - 1];
      assert ys == init + [last];
      assert last !in init;
      forall i: nat ensures i in init <==> i in s - {last} {
        assert i in ys <==> i in init || i == last;
      }
      DistinctCardinality(init, s - {last});
      assert s == (s - {last}) + {last};
    }
  }

  // ---------------------------------------------------------------------
  // The prompt's state and its key handler.
  // ---------------------------------------------------------------------

  class MultiSelect {
    const choices: seq<Choice>
    var cursor: nat
    var selected: set<nat>

    /** The cursor is on a choice and only choices' indices are selected. */
    ghost predicate Valid()
      reads this
    {
      |choices| >= 1 && cursor < |choices| && forall i: nat :: i in selected ==> i < |choices|
    }

    /** A fresh prompt: everything selected, the cursor on the first choice. */
    constructor (choices: seq<Choice>)
      requires |choices| >= 1
      ensures Valid()
      ensures this.choices == choices && cursor == 0 && selected == AllIndices(|choices|)
    {
      this.choices := choices;
      cursor := 0;
      selected := AllIndices(|choices|);
    }

    /** One keypress. */
    method HandleKey(key: string) returns (r: Reaction)
      requires Valid()
      modifies this
      ensures Valid()
      ensures IsUpKey(key) ==>
        cursor == CursorUp(old(cursor), |choices|) && selected == old(selected) && r == Continue
      ensures IsDownKey(key) ==>
        cursor == CursorDown(old(cursor), |choices|) && selected == old(selected) && r == Continue
      ensures IsToggleKey(key) ==>
        cursor == old(cursor) && selected == Toggle(old(selected), old(cursor)) && r == Continue
      ensures IsConfirmKey(key) ==>
        cursor == old(cursor) && selected == old(selected) && r == Confirm(ConfirmedValues(choices, selected))
      ensures IsAbortKey(key) ==> cursor == old(cursor) && selected == old(selected) && r == Abort
      ensures !IsKnownKey(key) ==> cursor == old(cursor) && selected == old(selected) && r == Continue
    {
      var n := |choices|;
      if key == UpArrow || key == "k" {
        cursor := (cursor - 1 + n) % n;
        return Continue;
      }
      if key == DownArrow || key == "j" {
        cursor := (cursor + 1) % n;
        return Continue;
      }
      if key == " " {
        if cursor in selected {
          selected := selected - {cursor};
        } else {
          selected := selected + {cursor};
        }
        return Continue;
      }
      if key == "\r" || key == "\n" {
        return Confirm(ConfirmedValues(choices, selected));
      }
      if key == CtrlC {
        return Abort;
      }
      return Continue;
    }
  }

  /** Pressing `Enter` on a fresh prompt confirms every choice, each once. */
  lemma FreshPromptConfirmsAll(choices: seq<Choice>)
    requires |choices| >= 1
    ensures |ConfirmedValues(choices, AllIndices(|choices|))| == |choices|
    ensures forall i: nat :: i < |choices| ==> i in ConfirmedIndices(AllIndices(|choices|), |choices|)
  {
    ConfirmedValuesFacts(choices, AllIndices(|choices|));
  }
}
