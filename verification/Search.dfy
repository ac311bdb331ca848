/** Searching for a pattern in a sequence: first match, last match, and Python's str.split. */
module Search {
  import opened Wrappers

  predicate MatchesAt<T(==)>(s: seq<T>, pattern: seq<T>, i: int) {
    0 <= i <= |s| - |pattern| && forall k :: 0 <= k < |pattern| ==> s[i + k] == pattern[k]
  }

  /** The start of the first window equal to the pattern, searching from index i. */
  function FirstMatch<T(==)>(s: seq<T>, pattern: seq<T>, i: nat := 0): (r: Option<nat>)
    requires i <= |s|
    ensures r.Some? ==> i <= r.value && MatchesAt(s, pattern, r.value)
    ensures r.Some? ==> forall q :: i <= q < r.value ==> !MatchesAt(s, pattern, q)
    ensures r.None? ==> forall q :: i <= q <= |s| ==> !MatchesAt(s, pattern, q)
    decreases |s| - i
  {
    if MatchesAt(s, pattern, i) then Some(i)
    else if i < |s| then FirstMatch(s, pattern, i + 1)
    else None
  }

  /** pattern in s */
  predicate Has<T(==)>(s: seq<T>, pattern: seq<T>) {
    FirstMatch(s, pattern).Some?
  }

  /** The start of the last window equal to the pattern, at or before index i (str.rfind). */
  function LastMatch<T(==)>(s: seq<T>, pattern: seq<T>, i: nat := |s|): (r: Option<nat>)
    requires i <= |s|
    ensures r.Some? ==> r.value <= i && MatchesAt(s, pattern, r.value)
    ensures r.Some? ==> forall q :: r.value < q <= i ==> !MatchesAt(s, pattern, q)
    ensures r.None? ==> forall q :: 0 <= q <= i ==> !MatchesAt(s, pattern, q)
  {
    if MatchesAt(s, pattern, i) then Some(i)
    else if i > 0 then LastMatch(s, pattern, i - 1)
    else None
  }

  /** The pieces between the matches, taken from the left without overlap (str.split). */
  function Split(s: string, sep: string): (r: seq<string>)
    requires |sep| > 0
    ensures |r| > 0
  {
    var m := FirstMatch(s, sep);
    if m.None? then [s]
    else [s[..m.value]] + Split(s[m.value + |sep|..], sep)
  }

  /** Removes the pattern, scanning from the left (str.replace with an empty replacement). */
  function Delete(s: string, pattern: string): string
    requires |pattern| > 0
  {
    if s == [] then []
    else if MatchesAt(s, pattern, 0) then Delete(s[|pattern|..], pattern)
    else [s[0]] + Delete(s[1..], pattern)
  }

  /** Two occurrences of the pattern never overlap. */
  ghost predicate NoOverlap(pattern: string) {
    forall d :: 0 < d < |pattern| ==> pattern[d..] != pattern[..|pattern| - d]
  }

  lemma MatchInSuffix(s: string, pattern: string, k: nat, i: int)
    requires k <= |s| && i >= 0
    ensures MatchesAt(s[k..], pattern, i) == MatchesAt(s, pattern, k + i)
  {
    if k + i + |pattern| <= |s| {
      assert s[k..][i..i + |pattern|] == s[k + i..k + i + |pattern|];
    }
  }

  /** A pattern in two parts matches exactly where its parts match side by side. */
  lemma MatchConcat(s: string, a: string, b: string, q: nat)
    ensures MatchesAt(s, a + b, q) <==> MatchesAt(s, a, q) && MatchesAt(s, b, q + |a|)
  {
    var p := a + b;
    if MatchesAt(s, p, q) {
      forall k | 0 <= k < |b|
        ensures s[q + |a| + k] == b[k]
      {
        assert s[q + (|a| + k)] == p[|a| + k];
      }
      forall k | 0 <= k < |a|
        ensures s[q + k] == a[k]
      {
        assert s[q + k] == p[k];
      }
    }
    if MatchesAt(s, a, q) && MatchesAt(s, b, q + |a|) {
      forall k | 0 <= k < |p|
        ensures s[q + k] == p[k]
      {
        if k >= |a| {
          assert s[q + |a| + (k - |a|)] == b[k - |a|];
        }
      }
    }
  }

  lemma Overlap(s: string, pattern: string, i: int, d: nat)
    requires d < |pattern| && MatchesAt(s, pattern, i) && MatchesAt(s, pattern, i + d)
    ensures pattern[d..] == pattern[..|pattern| - d]
  {
    assert pattern[d..] == s[i + d..i + |pattern|];
    assert pattern[..|pattern| - d] == s[i + d..i + |pattern|];
  }

  /** After a match the later matches are those of the rest. */
  lemma LastMatchOfRest(s: string, pattern: string, i: nat)
    requires |pattern| > 0 && NoOverlap(pattern)
    requires MatchesAt(s, pattern, i)
    ensures var k := i + |pattern|;
            var m, m' := LastMatch(s, pattern), LastMatch(s[k..], pattern);
            && m.Some?
            && (m'.None? ==> m.value == i || m.value < i)
            && (m'.Some? ==> m.value == k + m'.value)
  {
    var k := i + |pattern|;
    var m, m' := LastMatch(s, pattern), LastMatch(s[k..], pattern);
    if i < m.value < k {
      Overlap(s, pattern, i, m.value - i);
    }
    if m.value >= k {
      MatchInSuffix(s, pattern, k, m.value - k);
    }
    if m'.Some? {
      MatchInSuffix(s, pattern, k, m'.value);
    }
  }

  lemma SplitAt(s: string, sep: string, f: nat, rest: string)
    requires |sep| > 0 && FirstMatch(s, sep) == Some(f) && s[f + |sep|..] == rest
    ensures Split(s, sep) == [s[..f]] + Split(rest, sep)
  {
  }

  /** The last piece is what follows the last match. */
  lemma {:induction false} LastPiece(s: string, sep: string)
    requires |sep| > 0 && NoOverlap(sep)
    ensures var r, m := Split(s, sep), LastMatch(s, sep);
            && (m.None? ==> r == [s])
            && (m.Some? ==> |r| > 1 && r[|r| - 1] == s[m.value + |sep|..])
    decreases |s|
  {
    match FirstMatch(s, sep)
    case None =>
    case Some(f) =>
      SplitAt(s, sep, f, s[f + |sep|..]);
      LastPiece(s[f + |sep|..], sep);
      LastMatchOfRest(s, sep, f);
      SuffixOfSuffix(s, f + |sep|);
  }

  lemma SuffixOfSuffix(s: string, k: nat)
    requires k <= |s|
    ensures forall n: nat :: n <= |s| - k ==> s[k..][n..] == s[k + n..]
  {
  }

  lemma HasMatch(s: string, pattern: string, i: int)
    requires MatchesAt(s, pattern, i)
    ensures Has(s, pattern) && LastMatch(s, pattern).Some? && LastMatch(s, pattern).value >= i
  {
  }

  ghost predicate IsLast(s: string, pattern: string, i: int) {
    MatchesAt(s, pattern, i) && forall q :: i < q <= |s| ==> !MatchesAt(s, pattern, q)
  }

  lemma LastMatchIs(s: string, pattern: string, i: nat)
    requires IsLast(s, pattern, i)
    ensures LastMatch(s, pattern) == Some(i)
  {
  }

  /** The last match of a pattern, seen as the end of a longer pattern. */
  lemma LastWithFront(s: string, front: string, pattern: string, i: nat)
    requires IsLast(s, pattern, i) && |front| <= i && MatchesAt(s, front, i - |front|)
    ensures IsLast(s, front + pattern, i - |front|)
  {
    MatchConcat(s, front, pattern, i - |front|);
    forall q | i - |front| < q <= |s|
      ensures !MatchesAt(s, front + pattern, q)
    {
      MatchConcat(s, front, pattern, q);
    }
  }

  /** The last match of a pattern, seen as the front of a longer pattern. */
  lemma LastWithEnd(s: string, pattern: string, end: string, i: nat)
    requires IsLast(s, pattern, i) && MatchesAt(s, end, i + |pattern|)
    ensures IsLast(s, pattern + end, i)
  {
    MatchConcat(s, pattern, end, i);
    forall q | i < q <= |s|
      ensures !MatchesAt(s, pattern + end, q)
    {
      MatchConcat(s, pattern, end, q);
    }
  }

  lemma MatchInPrefix(a: string, b: string, pattern: string, i: int)
    requires i + |pattern| <= |a|
    ensures MatchesAt(a + b, pattern, i) == MatchesAt(a, pattern, i)
  {
    if i >= 0 {
      assert (a + b)[i..i + |pattern|] == a[i..i + |pattern|];
    }
  }

  lemma MatchInTail(a: string, b: string, pattern: string, i: int)
    requires i >= 0
    ensures MatchesAt(a + b, pattern, |a| + i) == MatchesAt(b, pattern, i)
  {
    MatchInSuffix(a + b, pattern, |a|, i);
    assert (a + b)[|a|..] == b;
  }

  /** No match begins in a and ends in b. */
  ghost predicate NoStraddle(a: string, b: string, pattern: string) {
    forall q :: 0 <= q < |a| < q + |pattern| ==> !MatchesAt(a + b, pattern, q)
  }

  lemma RestNoStraddle(a: string, b: string, pattern: string, k: nat)
    requires k <= |a| && NoStraddle(a, b, pattern)
    ensures (a + b)[k..] == a[k..] + b
    ensures NoStraddle(a[k..], b, pattern)
  {
    assert (a + b)[k..] == a[k..] + b;
    forall q | 0 <= q < |a[k..]| < q + |pattern|
      ensures !MatchesAt(a[k..] + b, pattern, q)
    {
      MatchInSuffix(a + b, pattern, k, q);
    }
  }

  /** Where no match crosses from a into b, the first match in a is the first in a + b. */
  lemma FirstMatchInFront(a: string, b: string, pattern: string)
    requires |pattern| > 0 && NoStraddle(a, b, pattern)
    ensures Has(a, pattern) ==> FirstMatch(a + b, pattern) == FirstMatch(a, pattern)
    ensures !Has(a, pattern) && MatchesAt(a + b, pattern, |a|) ==> FirstMatch(a + b, pattern) == Some(|a|)
    ensures forall q :: 0 <= q < |a| ==> MatchesAt(a + b, pattern, q) == MatchesAt(a, pattern, q)
  {
    forall q | 0 <= q < |a|
      ensures MatchesAt(a + b, pattern, q) == MatchesAt(a, pattern, q)
    {
      if q + |pattern| <= |a| {
        MatchInPrefix(a, b, pattern, q);
      }
    }
  }

  lemma {:induction false} DeleteConcat(a: string, b: string, pattern: string)
    requires |pattern| > 0 && NoStraddle(a, b, pattern)
    ensures Delete(a + b, pattern) == Delete(a, pattern) + Delete(b, pattern)
    decreases |a|
  {
    if a == [] {
      assert a + b == b;
    } else {
      var k := if MatchesAt(a + b, pattern, 0) then |pattern| else 1;
      if |pattern| <= |a| {
        MatchInPrefix(a, b, pattern, 0);
      }
      RestNoStraddle(a, b, pattern, k);
      DeleteConcat(a[k..], b, pattern);
    }
  }

  lemma {:induction false} DeleteShrinks(s: string, pattern: string)
    requires |pattern| > 0
    ensures |Delete(s, pattern)| <= |s|
    ensures Has(s, pattern) ==> |Delete(s, pattern)| <= |s| - |pattern|
    decreases |s|
  {
    if s != [] {
      if MatchesAt(s, pattern, 0) {
        DeleteShrinks(s[|pattern|..], pattern);
      } else {
        DeleteShrinks(s[1..], pattern);
        HasAfterFirst(s, pattern);
      }
    }
  }

  lemma {:induction false} DeleteNothing(s: string, pattern: string)
    requires |pattern| > 0 && !Has(s, pattern)
    ensures Delete(s, pattern) == s
  {
    if s != [] {
      assert !MatchesAt(s, pattern, 0);
      HasAfterFirst(s, pattern);
      DeleteNothing(s[1..], pattern);
    }
  }

  lemma HasAfterFirst(s: string, pattern: string)
    requires |s| > 0 && !MatchesAt(s, pattern, 0)
    ensures Has(s, pattern) == Has(s[1..], pattern)
  {
    if Has(s, pattern) {
      var i := FirstMatch(s, pattern).value;
      MatchInSuffix(s, pattern, 1, i - 1);
      HasMatch(s[1..], pattern, i - 1);
    }
    if Has(s[1..], pattern) {
      var i := FirstMatch(s[1..], pattern).value;
      MatchInSuffix(s, pattern, 1, i);
      HasMatch(s, pattern, i + 1);
    }
  }

  /** Text that shares no character with the pattern: no match touches it. */
  ghost predicate Disjoint(text: string, pattern: string) {
    forall x :: x in text ==> x !in pattern
  }

  lemma MatchCharacter(s: string, pattern: string, i: int, t: int)
    requires MatchesAt(s, pattern, i) && i <= t < i + |pattern|
    ensures s[t] in pattern
  {
    assert s[i + (t - i)] == pattern[t - i];
  }

  lemma DisjointNoStraddle(a: string, b: string, pattern: string)
    requires |pattern| > 0
    requires (|b| > 0 && b[0] !in pattern) || (|a| > 0 && a[|a| - 1] !in pattern)
    ensures NoStraddle(a, b, pattern)
  {
    forall q | 0 <= q < |a| < q + |pattern|
      ensures !MatchesAt(a + b, pattern, q)
    {
      if MatchesAt(a + b, pattern, q) {
        MatchCharacter(a + b, pattern, q, if |b| > 0 && b[0] !in pattern then |a| else |a| - 1);
      }
    }
  }

  /** Disjoint text between two parts is kept as it is. */
  lemma DeleteAround(a: string, text: string, b: string, pattern: string)
    requires |pattern| > 0 && |text| > 0 && Disjoint(text, pattern)
    ensures Delete(a + text + b, pattern) == Delete(a, pattern) + text + Delete(b, pattern)
  {
    assert text[0] in text && text[|text| - 1] in text;
    assert a + text + b == a + (text + b);
    DisjointNoStraddle(a, text + b, pattern);
    DeleteConcat(a, text + b, pattern);
    DisjointNoStraddle(text, b, pattern);
    DeleteConcat(text, b, pattern);
    DisjointHasNone(text, pattern);
    DeleteNothing(text, pattern);
  }

  lemma DisjointHasNone(text: string, pattern: string)
    requires |pattern| > 0 && Disjoint(text, pattern)
    ensures !Has(text, pattern)
  {
    forall i
      ensures !MatchesAt(text, pattern, i)
    {
      if MatchesAt(text, pattern, i) {
        MatchCharacter(text, pattern, i, i);
      }
    }
  }

  /** Deleting a pattern keeps the matches of a pattern that shares no character with it. */
  lemma DeleteKeeps(s: string, pattern: string, other: string)
    requires |pattern| > 0 && |other| > 0 && Disjoint(other, pattern)
    requires Has(s, other)
    ensures Has(Delete(s, pattern), other)
  {
    var i := FirstMatch(s, other).value;
    var a, b := s[..i], s[i + |other|..];
    assert s == a + other + b;
    DeleteAround(a, other, b, pattern);
    assert MatchesAt(Delete(a, pattern) + other + Delete(b, pattern), other, |Delete(a, pattern)|);
  }

  lemma HasInTail(a: string, b: string, pattern: string)
    requires Has(b, pattern)
    ensures Has(a + b, pattern)
    ensures LastMatch(a + b, pattern).Some? && LastMatch(a + b, pattern).value >= |a|
  {
    var i := FirstMatch(b, pattern).value;
    MatchInTail(a, b, pattern, i);
    HasMatch(a + b, pattern, |a| + i);
  }

  lemma HasInside(a: string, s: string, b: string, pattern: string)
    requires Has(s, pattern)
    ensures Has(a + s + b, pattern)
  {
    var i := FirstMatch(s, pattern).value;
    MatchInPrefix(s, b, pattern, i);
    HasMatch(s + b, pattern, i);
    HasInTail(a, s + b, pattern);
    assert a + s + b == a + (s + b);
  }

  lemma LacksCharacter(s: string, pattern: string, k: nat)
    requires k < |pattern| && pattern[k] !in s
    ensures !Has(s, pattern)
  {
  }

  /** The first piece of the split, up to a separator that is preceded by a character outside of it. */
  lemma FirstPieceEnds(a: string, sep: string, b: string)
    requires |sep| > 0 && |a| > 0 && a[|a| - 1] !in sep
    ensures Split(a + sep + b, sep)[0] == Split(a, sep)[0]
    ensures !Has(a, sep) ==> Split(a + sep + b, sep) == [a] + Split(b, sep)
  {
    var s := a + sep + b;
    assert s == a + (sep + b);
    assert MatchesAt(s, sep, |a|);
    DisjointNoStraddle(a, sep + b, sep);
    FirstMatchInFront(a, sep + b, sep);
    assert s[..|a|] == a && s[|a| + |sep|..] == b;
  }

  // ---- splitting, joining and deleting ----

  /** sep.join(pieces) */
  function JoinPieces(pieces: seq<string>, sep: string): string {
    if |pieces| == 0 then ""
    else if |pieces| == 1 then pieces[0]
    else pieces[0] + sep + JoinPieces(pieces[1..], sep)
  }

  /** Joining the pieces gives the text back, and no piece has the separator in it. */
  lemma {:induction false} SplitJoins(s: string, sep: string)
    requires |sep| > 0
    ensures JoinPieces(Split(s, sep), sep) == s
    ensures forall k :: 0 <= k < |Split(s, sep)| ==> !Has(Split(s, sep)[k], sep)
    decreases |s|
  {
    match FirstMatch(s, sep)
    case None =>
    case Some(f) =>
      var rest := s[f + |sep|..];
      SplitAt(s, sep, f, rest);
      SplitJoins(rest, sep);
      FrontHasNone(s, sep, f);
      assert s[f..f + |sep|] == sep;
      assert s == s[..f] + sep + rest;
      assert ([s[..f]] + Split(rest, sep))[1..] == Split(rest, sep);
  }

  lemma FrontHasNone(s: string, sep: string, f: nat)
    requires |sep| > 0 && FirstMatch(s, sep) == Some(f)
    ensures !Has(s[..f], sep)
  {
    if Has(s[..f], sep) {
      var q := FirstMatch(s[..f], sep).value;
      assert s == s[..f] + s[f..];
      MatchInPrefix(s[..f], s[f..], sep, q);
    }
  }

  /** Deleting a pattern is joining the pieces around it with nothing. */
  lemma {:induction false} DeleteIsSplit(s: string, pattern: string)
    requires |pattern| > 0
    ensures Delete(s, pattern) == JoinPieces(Split(s, pattern), "")
    decreases |s|
  {
    match FirstMatch(s, pattern)
    case None =>
      DeleteNothing(s, pattern);
    case Some(f) =>
      DeleteUpTo(s, pattern, f);
      DeleteIsSplit(s[f + |pattern|..], pattern);
      SplitAt(s, pattern, f, s[f + |pattern|..]);
      assert ([s[..f]] + Split(s[f + |pattern|..], pattern))[1..] == Split(s[f + |pattern|..], pattern);
  }

  lemma {:induction false} DeleteUpTo(s: string, pattern: string, f: nat)
    requires |pattern| > 0 && FirstMatch(s, pattern) == Some(f)
    ensures Delete(s, pattern) == s[..f] + Delete(s[f + |pattern|..], pattern)
    decreases f
  {
    if f > 0 {
      FirstInRest(s, pattern, f);
      DeleteUpTo(s[1..], pattern, f - 1);
      assert s[1..][f - 1 + |pattern|..] == s[f + |pattern|..];
      assert s[..f] == [s[0]] + s[1..][..f - 1];
    } else {
      assert s[..0] == "";
    }
  }

  lemma FirstInRest(s: string, pattern: string, f: nat)
    requires |pattern| > 0 && FirstMatch(s, pattern) == Some(f) && f > 0
    ensures FirstMatch(s[1..], pattern) == Some(f - 1)
  {
    MatchInSuffix(s, pattern, 1, f - 1);
    forall q | 0 <= q < f - 1
      ensures !MatchesAt(s[1..], pattern, q)
    {
      MatchInSuffix(s, pattern, 1, q);
    }
  }
}
