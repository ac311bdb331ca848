/**
 The printer of training samples, _format_cot_answer (src/stage1/data.py), and the parser that has to read its
 text back, extract_answer (eval_utils/parser.py).
 */
module CotAnswer {
  import opened Wrappers
  import opened Search
  import opened BoxedAnswers

  const KI := "\U{043A}\U{0438}"
  const THEREFORE := "\n\nTherefore, the final answer is "

  function FormatCotAnswer(cot: string, answer: string): string {
    if Has(cot, BACKSLASH_BOXED) then cot
    else
      var boxedAnswer := if Has(answer, BACKSLASH_BOXED) then answer else HEADER + answer + "}";
      cot + THEREFORE + boxedAnswer + "."
  }

  /** re.sub(r"\n\s*", "", s) */
  function RemoveNewlines(s: string): (r: string)
    ensures |r| <= |s|
    decreases |s|
  {
    if s == [] then []
    else if s[0] == '\n' then RemoveNewlines(DropSpaces(s[1..]))
    else [s[0]] + RemoveNewlines(s[1..])
  }

  /** Drops one leading colon, then one trailing period, then one trailing slash. */
  function Trim(s: string): (r: string)
    ensures |r| <= |s|
  {
    var p := if s != "" && s[0] == ':' then s[1..] else s;
    var q := if p != "" && p[|p| - 1] == '.' then p[..|p| - 1] else p;
    if q != "" && q[|q| - 1] == '/' then q[..|q| - 1] else q
  }

  function Clean(s: string): (r: string)
    ensures |r| <= |s|
  {
    Trim(RemoveNewlines(s))
  }

  function ExtractAnswer(text: string): string {
    var s := Delete(text, KI);
    if Has(s, BOXED) then Clean(Boxed(LastOf(Split(s, BOXED)))) else ""
  }

  method ParseAnswer(text: string) returns (pred: string)
    ensures pred == ExtractAnswer(text)
  {
    var s := Delete(text, KI);
    pred := "";
    if Has(s, BOXED) {
      pred := FindBox(s);
    }
    pred := RemoveNewlines(pred);
    if pred != "" && pred[0] == ':' {
      pred := pred[1..];
    }
    if pred != "" && pred[|pred| - 1] == '.' {
      pred := pred[..|pred| - 1];
    }
    if pred != "" && pred[|pred| - 1] == '/' {
      pred := pred[..|pred| - 1];
    }
  }

  // ---- what the cleaning keeps ----

  /** Nothing for the cleaning to remove. */
  predicate Clear(s: string) {
    '\n' !in s && (s != "" ==> s[0] != ':' && s[|s| - 1] != '.' && s[|s| - 1] != '/')
  }

  lemma {:induction false} NewlinesRemoved(s: string)
    ensures '\n' in s ==> |RemoveNewlines(s)| < |s|
    ensures '\n' !in s ==> RemoveNewlines(s) == s
    decreases |s|
  {
    if s != [] && s[0] != '\n' {
      NewlinesRemoved(s[1..]);
    }
  }

  /** A line break, or a space in a run of spaces that follows one. */
  ghost predicate AfterBreak(s: string, i: int) {
    exists j :: 0 <= j <= i < |s| && s[j] == '\n' && forall q :: j <= q <= i ==> IsSpace(s[q])
  }

  /** The characters from index i on that are no such spaces, in order. */
  ghost function Remaining(s: string, i: nat): string
    requires i <= |s|
    decreases |s| - i
  {
    if i == |s| then "" else (if AfterBreak(s, i) then "" else [s[i]]) + Remaining(s, i + 1)
  }

  /** Line breaks and the spaces behind them go; everything else stays, in order. */
  lemma NewlinesIs(s: string)
    ensures RemoveNewlines(s) == Remaining(s, 0)
  {
    KeepFrom(s, 0);
    assert s[0..] == s;
  }

  lemma {:induction false} KeepFrom(s: string, i: nat)
    requires i <= |s| && !AfterBreak(s, i - 1)
    ensures RemoveNewlines(s[i..]) == Remaining(s, i)
    decreases |s| - i
  {
    if i < |s| {
      assert s[i..][1..] == s[i + 1..];
      if s[i] == '\n' {
        assert AfterBreak(s, i);
        DropFrom(s, i + 1);
      } else {
        NoBreak(s, i);
        KeepFrom(s, i + 1);
      }
    }
  }

  lemma NoBreak(s: string, i: nat)
    requires i < |s| && s[i] != '\n' && (!IsSpace(s[i]) || !AfterBreak(s, i - 1))
    ensures !AfterBreak(s, i)
  {
    if AfterBreak(s, i) {
      BreakBefore(s, i);
    }
  }

  lemma BreakBefore(s: string, i: nat)
    requires i < |s| && s[i] != '\n' && AfterBreak(s, i)
    ensures IsSpace(s[i]) && AfterBreak(s, i - 1)
  {
    var j :| 0 <= j <= i && s[j] == '\n' && forall q :: j <= q <= i ==> IsSpace(s[q]);
    assert j <= i - 1;
  }

  lemma {:induction false} DropFrom(s: string, i: nat)
    requires 0 < i <= |s| && AfterBreak(s, i - 1)
    ensures RemoveNewlines(DropSpaces(s[i..])) == Remaining(s, i)
    decreases |s| - i
  {
    if i < |s| {
      assert s[i..][1..] == s[i + 1..];
      if IsSpace(s[i]) {
        var j :| 0 <= j <= i - 1 && s[j] == '\n' && forall q :: j <= q <= i - 1 ==> IsSpace(s[q]);
        assert AfterBreak(s, i);
        DropFrom(s, i + 1);
      } else {
        NoBreak(s, i);
        KeepFrom(s, i + 1);
      }
    }
  }

  /** The order of the trimming: a colon, then a period, then a slash, one of each. */
  lemma TrimOrder(t: string)
    requires t != "" && t[0] != ':' && t[|t| - 1] != '.' && t[|t| - 1] != '/'
    ensures Trim(":" + t + "/.") == t && Trim(t + "./") == t + "." && Trim("::" + t + "..") == ":" + t + "."
  {
    assert (":" + t + "/.")[1..] == t + "/." && (t + "/.")[..|t + "/"|] == t + "/" && (t + "/")[..|t|] == t;
    assert (t + "./")[..|t + "."|] == t + ".";
    assert ("::" + t + "..")[1..] == ":" + t + ".." && (":" + t + "..")[..|":" + t + "."|] == ":" + t + ".";
  }

  lemma CleanKeeps(s: string)
    ensures Clean(s) == s <==> Clear(s)
  {
    NewlinesRemoved(s);
  }

  lemma {:induction false} NewlinesKeepPeriod(s: string)
    requires s != "" && s[|s| - 1] == '.'
    ensures RemoveNewlines(s) != "" && RemoveNewlines(s)[|RemoveNewlines(s)| - 1] == '.'
    decreases |s|
  {
    if s[0] == '\n' {
      SpacesKeepPeriod(s[1..]);
      NewlinesKeepPeriod(DropSpaces(s[1..]));
    } else if |s| > 1 {
      NewlinesKeepPeriod(s[1..]);
    }
  }

  lemma {:induction false} SpacesKeepPeriod(s: string)
    requires s != "" && s[|s| - 1] == '.'
    ensures DropSpaces(s) != "" && DropSpaces(s)[|DropSpaces(s)| - 1] == '.'
  {
    if IsSpace(s[0]) {
      SpacesKeepPeriod(s[1..]);
    }
  }

  lemma PeriodIsLost(s: string)
    requires s != "" && s[|s| - 1] == '.'
    ensures |Clean(s)| < |s|
  {
    NewlinesKeepPeriod(s);
    TrimPeriod(RemoveNewlines(s));
  }

  lemma TrimPeriod(s: string)
    requires s != "" && s[|s| - 1] == '.'
    ensures |Trim(s)| < |s|
  {
  }

  lemma DepthOfRest(s: string)
    requires s != "" && s[0] != '{' && s[0] != '}'
    ensures Depth(s[1..]) == Depth(s)
  {
    assert s == [s[0]] + s[1..];
    DepthConcat([s[0]], s[1..]);
    NoBraces([s[0]]);
  }

  lemma {:induction false} SpacesKeepDepth(s: string)
    ensures Depth(DropSpaces(s)) == Depth(s)
  {
    if s != [] && IsSpace(s[0]) {
      DepthOfRest(s);
      SpacesKeepDepth(s[1..]);
    }
  }

  lemma {:induction false} NewlinesKeepDepth(s: string)
    ensures Depth(RemoveNewlines(s)) == Depth(s)
    decreases |s|
  {
    if s == [] {
    } else if s[0] == '\n' {
      DepthOfRest(s);
      SpacesKeepDepth(s[1..]);
      NewlinesKeepDepth(DropSpaces(s[1..]));
    } else {
      assert s == [s[0]] + s[1..];
      DepthConcat([s[0]], s[1..]);
      NewlinesKeepDepth(s[1..]);
      DepthConcat([s[0]], RemoveNewlines(s[1..]));
    }
  }

  lemma CleanKeepsDepth(s: string)
    ensures Depth(Clean(s)) == Depth(s)
  {
    NewlinesKeepDepth(s);
    TrimKeepsDepth(RemoveNewlines(s));
  }

  lemma DepthOfFront(s: string)
    requires s != "" && s[|s| - 1] != '{' && s[|s| - 1] != '}'
    ensures Depth(s[..|s| - 1]) == Depth(s)
  {
  }

  lemma TrimKeepsDepth(s: string)
    ensures Depth(Trim(s)) == Depth(s)
  {
    if s != "" && s[0] == ':' {
      DepthOfRest(s);
    }
    var p := if s != "" && s[0] == ':' then s[1..] else s;
    if p != "" && p[|p| - 1] == '.' {
      DepthOfFront(p);
    }
    var q := if p != "" && p[|p| - 1] == '.' then p[..|p| - 1] else p;
    if q != "" && q[|q| - 1] == '/' {
      DepthOfFront(q);
    }
  }

  // ---- the parsed text ----

  /** Deleting touches only the chain of thought and the answer. */
  lemma FormattedDeleted(cot: string, middle: string, answer: string, end: string)
    requires |middle| > 0 && |end| > 0 && Disjoint(middle, KI) && Disjoint(end, KI)
    ensures Delete(cot + middle + (answer + end), KI) == Delete(cot, KI) + middle + (Delete(answer, KI) + end)
  {
    DeleteAround(cot, middle, answer + end, KI);
    assert end[0] in end;
    DisjointNoStraddle(answer, end, KI);
    DeleteConcat(answer, end, KI);
    DisjointHasNone(end, KI);
    DeleteNothing(end, KI);
  }

  lemma BoxInAnswer(before: string, x: string, end: string)
    requires Has(x, BOXED)
    ensures Has(before + (x + end), BOXED)
    ensures |LastOf(Split(before + (x + end), BOXED))| <= |x| + |end| - |BOXED|
  {
    var s := before + (x + end);
    HasInside(before, x, end, BOXED);
    assert before + x + end == s;
    var i := FirstMatch(x, BOXED).value;
    MatchInPrefix(x, end, BOXED, i);
    HasMatch(x + end, BOXED, i);
    HasInTail(before, x + end, BOXED);
    PatternsDoNotOverlap();
    LastPiece(s, BOXED);
  }

  lemma BoxedShrinks(ans: string)
    ensures |Boxed(ans)| <= |ans|
  {
    if ans != "" && ans[0] != '{' {
      FirstPiece(ans, "$");
    }
  }

  lemma FirstPiece(s: string, sep: string)
    requires |sep| > 0
    ensures |Split(s, sep)[0]| <= |s|
  {
  }

  /** An answer that still says "boxed" comes back shorter. */
  lemma BoxInAnswerIsLost(before: string, answer: string, end: string)
    requires Has(Delete(answer, KI), BOXED) && |end| <= 2
    ensures var s := before + (Delete(answer, KI) + end);
            Has(s, BOXED) && |Clean(Boxed(LastOf(Split(s, BOXED))))| < |answer|
  {
    var x := Delete(answer, KI);
    BoxInAnswer(before, x, end);
    DeleteShrinks(answer, KI);
    BoxedShrinks(LastOf(Split(before + (x + end), BOXED)));
  }

  lemma NoBoxAcross(x: string)
    requires !Has(x, BOXED)
    ensures !Has(x + "}.", BOXED)
  {
    var end := "}.";
    assert forall k :: 0 <= k < |BOXED| ==> BOXED[k] != '}' && BOXED[k] != '.';
    if Has(x + end, BOXED) {
      var i := FirstMatch(x + end, BOXED).value;
      if i + |BOXED| > |x| {
        MatchCharacter(x + end, BOXED, i, i + |BOXED| - 1);
      } else {
        MatchInPrefix(x, end, BOXED, i);
      }
    }
  }

  // ---- the braces of the answer ----

  ghost predicate Balanced(s: string) {
    NeverCloses(s) && Depth(s) == 0
  }

  lemma DepthOfPrefix(x: string, end: string, j: nat)
    requires j <= |x|
    ensures Depth((x + end)[..j]) == Depth(x[..j])
  {
    assert (x + end)[..j] == x[..j];
  }

  lemma DepthOfEnd(x: string)
    ensures Depth((x + "}.")[..|x| + 1]) == Depth(x) - 1
    ensures Depth(x + "}.") == Depth(x) - 1
  {
    var t := x + "}.";
    assert t[..|x| + 1][..|x|] == x;
    assert t[..|t| - 1] == t[..|x| + 1];
  }

  lemma ContentClosedEarly(x: string, m: nat)
    requires ClosesAt(x, m)
    ensures |Content(x + "}.")| < |x|
  {
    var t := x + "}.";
    forall j | 0 <= j <= m + 1
      ensures Depth(t[..j]) == Depth(x[..j])
    {
      DepthOfPrefix(x, "}.", j);
    }
    CloseIs(t, m);
  }

  lemma ContentBalanced(x: string)
    requires Balanced(x)
    ensures Content(x + "}.") == x
  {
    var t := x + "}.";
    forall j | 0 <= j <= |x|
      ensures Depth(t[..j]) == Depth(x[..j])
    {
      DepthOfPrefix(x, "}.", j);
    }
    DepthOfEnd(x);
    CloseIs(t, |x|);
    assert t[..|x|] == x;
  }

  lemma ContentOpen(x: string)
    requires NeverCloses(x) && Depth(x) > 0
    ensures Content(x + "}.") == x + "}."
  {
    var t := x + "}.";
    DepthOfEnd(x);
    forall j | 0 <= j <= |t|
      ensures Depth(t[..j]) >= 0
    {
      if j <= |x| {
        DepthOfPrefix(x, "}.", j);
      } else if j == |t| {
        assert t[..j] == t;
      }
    }
    NeverClosed(t);
  }

  lemma NeverClosed(t: string)
    requires NeverCloses(t)
    ensures Close(t) == None
  {
  }

  // ---- round trip ----

  /** The answers that survive: no "boxed", nothing the parser deletes or trims, and balanced braces. */
  ghost predicate Faithful(answer: string) {
    !Has(answer, BOXED) && !Has(answer, KI) && Balanced(answer) && Clear(answer)
  }

  /** The content of the placed box gives back the answer exactly when its braces balance and it is clear. */
  lemma ContentRoundTrip(answer: string)
    ensures Clean(Content(answer + "}.")) == answer <==> Balanced(answer) && Clear(answer)
  {
    if Balanced(answer) {
      ContentBalanced(answer);
      CleanKeeps(answer);
    } else if NeverCloses(answer) {
      assert answer[..|answer|] == answer;
      ContentOpen(answer);
      DepthOfEnd(answer);
      CleanKeepsDepth(answer + "}.");
    } else {
      ContentClosedEarly(answer, Close(answer).value);
    }
  }

  lemma ContentTooShort(x: string)
    ensures |Clean(Content(x + "}."))| < |x| + 2
  {
    var t := x + "}.";
    if Close(t).None? {
      PeriodIsLost(t);
    }
  }

  lemma BodyRoundTrip(before: string, answer: string)
    ensures var s := before + HEADER + (Delete(answer, KI) + "}.");
            Has(s, BOXED) && (Clean(Boxed(LastOf(Split(s, BOXED)))) == answer <==> Faithful(answer))
  {
    var x := Delete(answer, KI);
    if Has(x, BOXED) {
      BoxInAnswerIsLost(before + HEADER, answer, "}.");
      if !Has(answer, KI) {
        DeleteNothing(answer, KI);
      }
    } else {
      PlainBodyRoundTrip(before, answer);
    }
  }

  lemma PlainBodyRoundTrip(before: string, answer: string)
    requires !Has(Delete(answer, KI), BOXED)
    ensures var s := before + HEADER + (Delete(answer, KI) + "}.");
            Has(s, BOXED) && (Clean(Boxed(LastOf(Split(s, BOXED)))) == answer <==> Faithful(answer))
  {
    var x := Delete(answer, KI);
    var s := before + HEADER + (x + "}.");
    NoBoxAcross(x);
    PlacedMatch(before, x + "}.");
    HasMatch(s, BOXED, |before| + 1);
    SameStart(before, x + "}.");
    BoxedOfPiece(s, x + "}.");
    if Has(answer, KI) {
      DeleteShrinks(answer, KI);
      ContentTooShort(x);
    } else {
      DeleteNothing(answer, KI);
      ContentRoundTrip(answer);
    }
  }

  lemma BackslashBoxedHasBoxed(s: string)
    requires Has(s, BACKSLASH_BOXED)
    ensures Has(s, BOXED)
  {
    var i := FirstMatch(s, BACKSLASH_BOXED).value;
    BoxedInside(s, i);
    HasMatch(s, BOXED, i + 1);
  }

  lemma ParseOfBoxedAnswer(cot: string, answer: string)
    requires Has(answer, BACKSLASH_BOXED)
    ensures |ExtractAnswer(cot + THEREFORE + (answer + "."))| < |answer|
  {
    FormattedDeleted(cot, THEREFORE, answer, ".");
    DeleteKeeps(answer, KI, BACKSLASH_BOXED);
    BackslashBoxedHasBoxed(Delete(answer, KI));
    BoxInAnswerIsLost(Delete(cot, KI) + THEREFORE, answer, ".");
  }

  lemma ConstantsDisjoint()
    ensures Disjoint(THEREFORE, KI) && Disjoint(THEREFORE + HEADER, KI)
  {
  }

  lemma Associate(a: string, b: string, c: string)
    ensures a + (b + c) == a + b + c
  {
  }

  lemma ParseOfPlainAnswer(cot: string, answer: string)
    ensures ExtractAnswer(cot + (THEREFORE + HEADER) + (answer + "}.")) == answer <==> Faithful(answer)
  {
    ConstantsDisjoint();
    FormattedDeleted(cot, THEREFORE + HEADER, answer, "}.");
    BodyRoundTrip(Delete(cot, KI) + THEREFORE, answer);
    Associate(Delete(cot, KI), THEREFORE, HEADER);
  }

  lemma FormatOfBoxed(cot: string, answer: string)
    requires !Has(cot, BACKSLASH_BOXED) && Has(answer, BACKSLASH_BOXED)
    ensures FormatCotAnswer(cot, answer) == cot + THEREFORE + (answer + ".")
  {
    Associate(cot + THEREFORE, answer, ".");
  }

  lemma Regroup(a: string, b: string, c: string, d: string, e: string, f: string)
    ensures a + b + (c + d + e) + f == a + (b + c) + (d + (e + f))
  {
    Associate(d, e, f);
    Associate(a + b, c + d + e, f);
  }

  lemma FormatOfPlain(cot: string, answer: string)
    requires !Has(cot, BACKSLASH_BOXED) && !Has(answer, BACKSLASH_BOXED)
    ensures FormatCotAnswer(cot, answer) == cot + (THEREFORE + HEADER) + (answer + "}.")
  {
    Regroup(cot, THEREFORE, HEADER, answer, "}", ".");
    assert "}" + "." == "}.";
  }

  /** The parser reads an answer back exactly when it is faithful, whatever the chain of thought says without a box. */
  lemma RoundTripExactlyWhen(cot: string, answer: string)
    requires !Has(cot, BACKSLASH_BOXED)
    ensures ExtractAnswer(FormatCotAnswer(cot, answer)) == answer <==> Faithful(answer)
  {
    if Has(answer, BACKSLASH_BOXED) {
      FormatOfBoxed(cot, answer);
      BackslashBoxedHasBoxed(answer);
      ParseOfBoxedAnswer(cot, answer);
    } else {
      FormatOfPlain(cot, answer);
      ParseOfPlainAnswer(cot, answer);
    }
  }
}
