// String and list helpers the components share: `toLowerCase`, `includes`,
// the `[...new Set(xs)]` de-duplication and `filter(Boolean)` on strings.
module Text {

  /**
   * `toLowerCase` on one character, for the alphabets the tracker's data is
   * written in: ASCII A-Z and the Russian capitals А-Я and Ё. Every other
   * character is left as it is.
   */
  function LowerChar(c: char): (r: char)
    ensures 'A' <= c <= 'Z' ==> r as int == c as int + 32
    ensures 'А' <= c <= 'Я' ==> r as int == c as int + 32
    ensures c == 'Ё' ==> r == 'ё'
    ensures !('A' <= c <= 'Z' || 'А' <= c <= 'Я' || c == 'Ё') ==> r == c
  {
    if 'A' <= c <= 'Z' || 'А' <= c <= 'Я' then (c as int + 32) as char
    else if c == 'Ё' then 'ё'
    else c
  }

  /** `toLowerCase` on a string, character by character. */
  function Lower(s: string): (r: string)
    ensures |r| == |s|
    ensures forall i :: 0 <= i < |s| ==> r[i] == LowerChar(s[i])
  {
    if s == [] then [] else [LowerChar(s[0])] + Lower(s[1..])
  }

  /** A string whose characters are those of `s` lower-cased one by one is `Lower(s)`. */
  lemma LowerPointwise(s: string, t: string)
    requires |t| == |s|
    requires forall i :: 0 <= i < |s| ==> t[i] == LowerChar(s[i])
    ensures Lower(s) == t
  {
  }

  /** `t` is spelt by the window of `s` that starts at `i`. */
  predicate OccursAt(s: string, t: string, i: int)
  {
    0 <= i <= |s| - |t| && s[i..i + |t|] == t
  }

  /** `s.includes(t)`: some window of `s` spells `t`. */
  function Contains(s: string, t: string): (r: bool)
    ensures r <==> exists i :: OccursAt(s, t, i)
  {
    if t <= s then
      assert OccursAt(s, t, 0);
      true
    else if s == [] then
      false
    else
      var r := Contains(s[1..], t);
      if r then
        var i :| OccursAt(s[1..], t, i);
        assert s[i + 1..i + 1 + |t|] == s[1..][i..i + |t|];
        assert OccursAt(s, t, i + 1);
        true
      else
        forall i | OccursAt(s, t, i) && i > 0 ensures OccursAt(s[1..], t, i - 1) {
          assert s[1..][i - 1..i - 1 + |t|] == s[i..i + |t|];
        }
        false
  }

  lemma ContainsEmpty(s: string)
    ensures Contains(s, "")
  {
    assert OccursAt(s, "", 0);
  }

  /** A term whose first character starts no window of `s` occurs nowhere in it. */
  lemma FirstCharAbsent(s: string, t: string)
    requires t != []
    requires forall i :: 0 <= i <= |s| - |t| ==> s[i] != t[0]
    ensures !Contains(s, t)
  {
    forall i ensures !OccursAt(s, t, i) {
      if 0 <= i <= |s| - |t| {
        assert s[i..i + |t|][0] == s[i];
      }
    }
  }

  /** `xs.filter(Boolean)` on strings: drops the empty ones. */
  function NonEmpty(xs: seq<string>): (r: seq<string>)
    ensures forall s :: s in r <==> s in xs && s != ""
    ensures |r| <= |xs|
  {
    if xs == [] then [] else (if xs[0] != "" then [xs[0]] else []) + NonEmpty(xs[1..])
  }

  lemma {:induction false} NonEmptyAppend(xs: seq<string>, ys: seq<string>)
    ensures NonEmpty(xs + ys) == NonEmpty(xs) + NonEmpty(ys)
  {
    if xs != [] {
      assert (xs + ys)[1..] == xs[1..] + ys;
      NonEmptyAppend(xs[1..], ys);
    } else {
      assert xs + ys == ys;
    }
  }

  /**
   * The elements of `xs` that are not repeats of an earlier one, in the order
   * of their first occurrence: the reference definition of de-duplication.
   */
  function FirstOccurrences(xs: seq<string>): (r: seq<string>)
    ensures forall x :: x in r <==> x in xs
    ensures forall i, j :: 0 <= i < j < |r| ==> r[i] != r[j]
  {
    if xs == [] then []
    else
      var init, last := xs[..|xs| - 1], xs[|xs| - 1];
      assert xs == init + [last];
      FirstOccurrences(init) + if last in init then [] else [last]
  }

  lemma FirstOccurrencesSnoc(xs: seq<string>, y: string)
    ensures FirstOccurrences(xs + [y]) == FirstOccurrences(xs) + if y in xs then [] else [y]
  {
    assert (xs + [y])[..|xs + [y]| - 1] == xs;
  }

  /**
   * `[...new Set(xs)]` as the Set builds it: walk `xs` left to right and
   * append each element not seen before to `seen`.
   */
  function DedupFrom(xs: seq<string>, seen: seq<string>): seq<string>
  {
    if xs == [] then seen
    else DedupFrom(xs[1..], if xs[0] in seen then seen else seen + [xs[0]])
  }

  function Dedup(xs: seq<string>): seq<string>
  {
    DedupFrom(xs, [])
  }

  lemma MoveHead(xs: seq<string>, ys: seq<string>)
    requires ys != []
    ensures (xs + [ys[0]]) + ys[1..] == xs + ys
  {
    assert ys == [ys[0]] + ys[1..];
  }

  lemma {:induction false} DedupFromFirstOccurrences(xs: seq<string>, ys: seq<string>)
    ensures DedupFrom(ys, FirstOccurrences(xs)) == FirstOccurrences(xs + ys)
    decreases |ys|
  {
    if ys == [] {
      assert xs + ys == xs;
    } else {
      var y, rest := ys[0], ys[1..];
      var fo := FirstOccurrences(xs);
      FirstOccurrencesSnoc(xs, y);
      assert DedupFrom(ys, fo) == DedupFrom(rest, if y in fo then fo else fo + [y]);
      assert (if y in fo then fo else fo + [y]) == FirstOccurrences(xs + [y]);
      DedupFromFirstOccurrences(xs + [y], rest);
      MoveHead(xs, ys);
    }
  }

  /**
   * The Set-based de-duplication keeps exactly the first occurrences, in
   * order: no element twice, nothing lost, nothing added.
   */
  lemma DedupIsFirstOccurrences(xs: seq<string>)
    ensures Dedup(xs) == FirstOccurrences(xs)
    ensures forall x :: x in Dedup(xs) <==> x in xs
    ensures forall i, j :: 0 <= i < j < |Dedup(xs)| ==> Dedup(xs)[i] != Dedup(xs)[j]
  {
    assert FirstOccurrences([]) == [];
    DedupFromFirstOccurrences([], xs);
    assert [] + xs == xs;
  }

  /**
   * Dropping empty strings before or after de-duplication gives the same
   * list, so `[...new Set(xs.filter(Boolean))]` and
   * `[...new Set(xs)].filter(Boolean)` agree.
   */
  lemma {:induction false} NonEmptyCommutesWithFirstOccurrences(xs: seq<string>)
    ensures FirstOccurrences(NonEmpty(xs)) == NonEmpty(FirstOccurrences(xs))
  {
    if xs != [] {
      var init, last := xs[..|xs| - 1], xs[|xs| - 1];
      assert xs == init + [last];
      FirstOccurrencesSnoc(init, last);
      NonEmptyCommutesWithFirstOccurrences(init);
      NonEmptyAppend(init, [last]);
      assert NonEmpty([last]) == if last != "" then [last] else [];
      var fo := FirstOccurrences(init);
      NonEmptyAppend(fo, if last in init then [] else [last]);
      if last != "" {
        FirstOccurrencesSnoc(NonEmpty(init), last);
      } else {
        assert NonEmpty(xs) == NonEmpty(init);
      }
    }
  }

  lemma DedupNonEmptyCommute(xs: seq<string>)
    ensures Dedup(NonEmpty(xs)) == NonEmpty(Dedup(xs))
  {
    DedupIsFirstOccurrences(xs);
    DedupIsFirstOccurrences(NonEmpty(xs));
    NonEmptyCommutesWithFirstOccurrences(xs);
  }
}
