/**
 The boxed-answer scanners of the repository: find_box and extract_answer (eval_utils/parser.py),
 last_boxed_only_string and remove_boxed (eval/eval_high_tasks_sglang.py), and extract_boxed_answers
 (the reasoning benchmark's answer_extraction.py).
 */
module BoxedAnswers {
  import opened Wrappers
  import opened Search

  const BOXED := "boxed"
  const BACKSLASH_BOXED := "\\boxed"
  const BOXED_SPACE := "\\boxed "
  const BOXED_BRACE := "boxed{"
  const FBOX := "\\fbox"

  // ---- braces ----

  /** Opening minus closing braces. */
  function Depth(s: string): int {
    if |s| == 0 then 0
    else Depth(s[..|s| - 1]) + if s[|s| - 1] == '{' then 1 else if s[|s| - 1] == '}' then -1 else 0
  }

  lemma {:induction false} DepthIsDifference(s: string)
    ensures Depth(s) == multiset(s)['{'] as int - multiset(s)['}'] as int
  {
    if |s| > 0 {
      DepthIsDifference(s[..|s| - 1]);
      assert s == s[..|s| - 1] + [s[|s| - 1]];
    }
  }

  /** The brace at m closes a brace that was open before the text. */
  ghost predicate ClosesAt(t: string, m: int) {
    0 <= m < |t| && Depth(t[..m + 1]) == -1 && forall j :: 0 <= j <= m ==> Depth(t[..j]) >= 0
  }

  ghost predicate NeverCloses(t: string) {
    forall j :: 0 <= j <= |t| ==> Depth(t[..j]) >= 0
  }

  /** The first closing brace that matches no opening brace of the text. */
  function Close(t: string, from: nat := 0): (r: Option<nat>)
    requires from <= |t| && forall j :: 0 <= j <= from ==> Depth(t[..j]) >= 0
    ensures r.Some? ==> ClosesAt(t, r.value) && t[r.value] == '}'
    ensures r.None? ==> NeverCloses(t)
    decreases |t| - from
  {
    if from == |t| then None
    else
      assert t[..from + 1][..from] == t[..from];
      if Depth(t[..from + 1]) < 0 then Some(from) else Close(t, from + 1)
  }

  lemma CloseIs(t: string, m: nat)
    requires ClosesAt(t, m)
    ensures Close(t) == Some(m)
  {
  }

  lemma {:induction false} DepthConcat(a: string, b: string)
    ensures Depth(a + b) == Depth(a) + Depth(b)
  {
    if |b| == 0 {
      assert a + b == a;
    } else {
      DepthConcat(a, b[..|b| - 1]);
      assert (a + b)[..|a + b| - 1] == a + b[..|b| - 1];
    }
  }

  /** What a box that was just opened contains: up to its closing brace, or everything. */
  function Content(t: string): string {
    match Close(t) case Some(m) => t[..m] case None => t
  }

  // ---- parser.py ----

  predicate IsSpace(c: char) {
    c in " \t\n\r\U{000B}\U{000C}\U{001C}\U{001D}\U{001E}\U{001F}\U{0085}\U{00A0}\U{1680}\U{2028}\U{2029}\U{202F}\U{205F}\U{3000}"
    || '\U{2000}' <= c <= '\U{200A}'
  }

  function DropSpaces(s: string): (r: string)
    ensures |r| <= |s|
  {
    if s != [] && IsSpace(s[0]) then DropSpaces(s[1..]) else s
  }

  function DropTrailingSpaces(s: string): (r: string)
    ensures |r| <= |s|
  {
    if s != [] && IsSpace(s[|s| - 1]) then DropTrailingSpaces(s[..|s| - 1]) else s
  }

  /** str.strip() */
  function Strip(s: string): (r: string)
    ensures |r| <= |s|
  {
    DropTrailingSpaces(DropSpaces(s))
  }

  lemma {:induction false} DropSpacesIs(s: string) returns (i: nat)
    ensures i <= |s| && DropSpaces(s) == s[i..] && (forall q :: 0 <= q < i ==> IsSpace(s[q])) && (i < |s| ==> !IsSpace(s[i]))
  {
    i := 0;
    if s != [] && IsSpace(s[0]) {
      var k := DropSpacesIs(s[1..]);
      i := k + 1;
      assert s[1..][k..] == s[i..];
      assert forall q :: 0 < q < i ==> s[q] == s[1..][q - 1];
    }
  }

  lemma {:induction false} DropTrailingSpacesIs(s: string) returns (j: nat)
    ensures j <= |s| && DropTrailingSpaces(s) == s[..j] && (forall q :: j <= q < |s| ==> IsSpace(s[q])) && (j > 0 ==> !IsSpace(s[j - 1]))
  {
    j := |s|;
    if s != [] && IsSpace(s[|s| - 1]) {
      var front := s[..|s| - 1];
      j := DropTrailingSpacesIs(front);
      AlsoTrailing(s, front, j);
    }
  }

  lemma AlsoTrailing(s: string, front: string, j: nat)
    requires |s| > 0 && front == s[..|s| - 1] && j <= |front| && IsSpace(s[|s| - 1])
    requires forall q :: j <= q < |front| ==> IsSpace(front[q])
    ensures s[..j] == front[..j] && forall q :: j <= q < |s| ==> IsSpace(s[q])
  {
    forall q | j <= q < |s|
      ensures IsSpace(s[q])
    {
      if q < |front| {
        assert s[q] == front[q];
      }
    }
  }

  /** Only spaces go, at both ends, and what is left neither starts nor ends with one. */
  lemma StripIs(s: string) returns (i: nat, j: nat)
    ensures i <= j <= |s| && Strip(s) == s[i..j]
    ensures forall q :: 0 <= q < i || j <= q < |s| ==> IsSpace(s[q])
    ensures i < j ==> !IsSpace(s[i]) && !IsSpace(s[j - 1])
  {
    i := DropSpacesIs(s);
    var t := DropSpaces(s);
    var k := DropTrailingSpacesIs(t);
    j := i + k;
    Inside(s, t, i, k);
  }

  lemma Inside(s: string, t: string, i: nat, k: nat)
    requires i <= |s| && t == s[i..] && k <= |t|
    ensures s[i..i + k] == t[..k] && forall q :: i <= q < |s| ==> s[q] == t[q - i]
  {
  }

  /** What the parsers take from the text after "boxed". */
  function Boxed(ans: string): string {
    if ans == "" then ""
    else if ans[0] == '{' then Content(ans[1..])
    else Strip(Split(ans, "$")[0])
  }

  /** Without a brace after "boxed", the stripped text up to the first dollar sign, if there is one. */
  lemma PlainBox(u: string, rest: string)
    requires u != "" && u[0] != '{' && '$' !in u
    ensures Boxed(u) == Strip(u) && Boxed(u + "$" + rest) == Strip(u)
  {
    LacksCharacter(u, "$", 0);
    FirstPieceEnds(u, "$", rest);
  }

  function LastOf<T>(xs: seq<T>): T
    requires |xs| > 0
  {
    xs[|xs| - 1]
  }

  /** The character loop: copies characters until the box closes. */
  method ScanBox(t: string) returns (a: string)
    ensures a == Content(t)
  {
    var stack := 1;
    a := "";
    for i := 0 to |t|
      invariant stack == 1 + Depth(t[..i]) && a == t[..i]
      invariant forall j :: 0 <= j <= i ==> Depth(t[..j]) >= 0
    {
      var c := t[i];
      assert t[..i + 1][..i] == t[..i];
      if c == '{' {
        stack := stack + 1;
        a := a + [c];
      } else if c == '}' {
        stack := stack - 1;
        if stack == 0 {
          CloseIs(t, i);
          return;
        }
        a := a + [c];
      } else {
        a := a + [c];
      }
    }
    assert t[..|t|] == t;
  }

  method FindBox(predStr: string) returns (a: string)
    ensures a == Boxed(LastOf(Split(predStr, BOXED)))
  {
    var ans := LastOf(Split(predStr, BOXED));
    if ans == "" {
      return "";
    }
    if ans[0] == '{' {
      a := ScanBox(ans[1..]);
    } else {
      a := Strip(Split(ans, "$")[0]);
    }
  }

  // ---- eval_high_tasks_sglang.py ----

  /** The brace at m is the first closing brace at which the text from idx on is balanced. */
  ghost predicate BalancedAt(s: string, idx: nat, m: int) {
    && idx <= m < |s| && s[m] == '}' && Depth(s[idx..m + 1]) == 0
    && forall j :: idx <= j < m && s[j] == '}' ==> Depth(s[idx..j + 1]) != 0
  }

  method RightBrace(s: string, idx: nat) returns (r: Option<nat>)
    requires idx <= |s|
    ensures r.Some? ==> BalancedAt(s, idx, r.value)
    ensures r.None? ==> forall m :: !BalancedAt(s, idx, m)
  {
    var i := idx;
    var numLeftBracesOpen := 0;
    while i < |s|
      invariant idx <= i <= |s|
      invariant numLeftBracesOpen == Depth(s[idx..i])
      invariant forall j :: idx <= j < i && s[j] == '}' ==> Depth(s[idx..j + 1]) != 0
    {
      assert s[idx..i + 1][..i - idx] == s[idx..i];
      if s[i] == '{' {
        numLeftBracesOpen := numLeftBracesOpen + 1;
      }
      if s[i] == '}' {
        numLeftBracesOpen := numLeftBracesOpen - 1;
        if numLeftBracesOpen == 0 {
          return Some(i);
        }
      }
      i := i + 1;
    }
    r := None;
  }

  /** Where the last box starts: at the last \\boxed, else at the last \\fbox. */
  function BoxStart(s: string): (r: Option<nat>)
    ensures r.Some? ==> r.value <= |s|
  {
    if LastMatch(s, BACKSLASH_BOXED).Some? then LastMatch(s, BACKSLASH_BOXED) else LastMatch(s, FBOX)
  }

  /** The last box with its braces, when it is closed. */
  ghost function LastBoxed(s: string): Option<string> {
    if Has(s, BOXED_SPACE) then Some(BOXED_SPACE + Split(LastOf(Split(s, BOXED_SPACE)), "$")[0])
    else if BoxStart(s).None? then None
    else
      var start := BoxStart(s).value;
      if exists m :: BalancedAt(s, start, m) then var m :| BalancedAt(s, start, m); Some(s[start..m + 1]) else None
  }

  method LastBoxedOnlyString(s: string) returns (r: Option<string>)
    ensures r == LastBoxed(s)
  {
    if Has(s, BOXED_SPACE) {
      return Some(BOXED_SPACE + Split(LastOf(Split(s, BOXED_SPACE)), "$")[0]);
    }
    var start := BoxStart(s);
    if start.None? {
      return None;
    }
    var rightBraceIdx := RightBrace(s, start.value);
    r := if rightBraceIdx.None? then None else Some(s[start.value..rightBraceIdx.value + 1]);
  }

  /** Fails where the code's assertions fail. */
  function RemoveBoxed(s: string): (r: Result<string>)
    ensures r.Success? ==> s == BOXED_SPACE + r.value || s == "\\boxed{" + r.value + "}"
  {
    if Has(s, BOXED_SPACE) then
      if BOXED_SPACE <= s then Success(s[|BOXED_SPACE|..]) else Failure("AssertionError")
    else if "\\boxed{" <= s && |s| > 7 && s[|s| - 1] == '}' then Success(s[7..|s| - 1])
    else Failure("AssertionError")
  }

  // ---- answer_extraction.py ----

  /** The answer in one piece after "boxed{": kept with its brace when a percent sign follows. */
  function PieceAnswer(piece: string): Option<string> {
    match Close(piece)
    case None => None
    case Some(m) => Some(if m + 1 < |piece| && piece[m + 1] == '%' then piece[..m + 1] else piece[..m])
  }

  function PieceAnswers(pieces: seq<string>): seq<string> {
    if |pieces| == 0 then []
    else PieceAnswers(pieces[..|pieces| - 1]) + match PieceAnswer(pieces[|pieces| - 1]) { case None => [] case Some(a) => [a] }
  }

  method ScanPiece(piece: string) returns (answers: seq<string>)
    ensures answers == match PieceAnswer(piece) { case None => [] case Some(a) => [a] }
  {
    var n := 0;
    for i := 0 to |piece|
      invariant n == Depth(piece[..i])
      invariant forall j :: 0 <= j <= i ==> Depth(piece[..j]) >= 0
    {
      assert piece[..i + 1][..i] == piece[..i];
      if piece[i] == '{' {
        n := n + 1;
      } else if piece[i] == '}' {
        n := n - 1;
        if n < 0 {
          CloseIs(piece, i);
          if i + 1 < |piece| && piece[i + 1] == '%' {
            return [piece[..i + 1]];
          } else {
            return [piece[..i]];
          }
        }
      }
    }
    answers := [];
  }

  method ExtractBoxedAnswers(text: string) returns (answers: seq<string>)
    ensures answers == PieceAnswers(Split(text, BOXED_BRACE)[1..])
  {
    answers := [];
    var pieces := Split(text, BOXED_BRACE)[1..];
    for k := 0 to |pieces|
      invariant answers == PieceAnswers(pieces[..k])
    {
      var found := ScanPiece(pieces[k]);
      answers := answers + found;
      assert pieces[..k + 1][..k] == pieces[..k];
    }
    assert pieces[..|pieces|] == pieces;
  }

  // ---- the scanners agree ----

  lemma PatternsDoNotOverlap()
    ensures NoOverlap(BOXED) && NoOverlap(BOXED_BRACE)
  {
    assert forall d :: 0 < d < |BOXED| ==> BOXED[d..][0] != BOXED[..|BOXED| - d][0];
    assert forall d :: 0 < d < |BOXED_BRACE| ==> BOXED_BRACE[d..][0] != BOXED_BRACE[..|BOXED_BRACE| - d][0];
  }

  const HEADER := "\\boxed{"

  lemma BoxedInside(s: string, q: int)
    ensures MatchesAt(s, BACKSLASH_BOXED, q) <==> 0 <= q < |s| && s[q] == '\\' && MatchesAt(s, BOXED, q + 1)
    ensures MatchesAt(s, BOXED_BRACE, q) <==> 0 <= q < |s| - 5 && s[q + 5] == '{' && MatchesAt(s, BOXED, q)
  {
    if q >= 0 {
      var backslash, brace := "\\", "{";
      assert BACKSLASH_BOXED == backslash + BOXED && BOXED_BRACE == BOXED + brace;
      MatchConcat(s, backslash, BOXED, q);
      MatchConcat(s, BOXED, brace, q);
      assert MatchesAt(s, backslash, q) <==> q < |s| && s[q + 0] == backslash[0];
      assert MatchesAt(s, brace, q + 5) <==> q + 5 < |s| && s[q + 5 + 0] == brace[0];
    }
  }

  lemma PlacedMatch(p: string, t: string)
    ensures MatchesAt(p + HEADER + t, BOXED, |p| + 1)
    ensures !Has(t, BOXED) ==> LastMatch(p + HEADER + t, BOXED) == Some(|p| + 1)
  {
    var s := p + HEADER + t;
    var i := |p| + 1;
    assert forall k :: 0 <= k < 7 ==> s[|p| + k] == HEADER[k];
    assert s[i] == 'b' && s[i + 1] == 'o' && s[i + 2] == 'x' && s[i + 3] == 'e' && s[i + 4] == 'd' && s[i + 5] == '{';
    assert MatchesAt(s, BOXED, i);
    var q := LastMatch(s, BOXED).value;
    assert s[q + 0] == BOXED[0];
    if q >= |p| + 7 {
      MatchInTail(p + HEADER, t, BOXED, q - |p + HEADER|);
    }
  }

  lemma OneCharacter(s: string, x: char, q: nat)
    requires q < |s| && s[q] == x
    ensures MatchesAt(s, [x], q)
  {
  }

  lemma OtherMatches(p: string, t: string)
    requires !Has(t, BOXED)
    ensures LastMatch(p + HEADER + t, BACKSLASH_BOXED) == Some(|p|)
    ensures LastMatch(p + HEADER + t, BOXED_BRACE) == Some(|p| + 1)
  {
    var s, i := p + HEADER + t, |p| + 1;
    PlacedMatch(p, t);
    assert s[i - 1] == HEADER[0] == '\\' && s[i + 5] == HEADER[6] == '{';
    OneCharacter(s, '\\', i - 1);
    OneCharacter(s, '{', i + 5);
    LastWithFront(s, ['\\'], BOXED, i);
    LastWithEnd(s, BOXED, ['{'], i);
    assert ['\\'] + BOXED == BACKSLASH_BOXED && BOXED + ['{'] == BOXED_BRACE;
    LastMatchIs(s, BACKSLASH_BOXED, i - 1);
    LastMatchIs(s, BOXED_BRACE, i);
  }

  lemma LastPieceIs(s: string, sep: string, i: nat, rest: string)
    requires |sep| > 0 && NoOverlap(sep) && LastMatch(s, sep) == Some(i) && s[i + |sep|..] == rest
    ensures |Split(s, sep)| > 1 && LastOf(Split(s, sep)) == rest
  {
    LastPiece(s, sep);
  }

  /** All scanners of a text whose last "boxed" is a written \boxed{ start from that place. */
  lemma SameStart(p: string, t: string)
    requires !Has(t, BOXED)
    ensures BoxStart(p + HEADER + t) == Some(|p|)
    ensures LastOf(Split(p + HEADER + t, BOXED)) == "{" + t
    ensures |Split(p + HEADER + t, BOXED_BRACE)| > 1 && LastOf(Split(p + HEADER + t, BOXED_BRACE)) == t
  {
    var s, i := p + HEADER + t, |p| + 1;
    PlacedMatch(p, t);
    OtherMatches(p, t);
    PatternsDoNotOverlap();
    assert s[i + |BOXED|..] == "{" + t;
    LastPieceIs(s, BOXED, i, "{" + t);
    assert s[i + |BOXED_BRACE|..] == t;
    LastPieceIs(s, BOXED_BRACE, i, t);
  }

  lemma {:induction false} NoBraces(s: string)
    requires forall k :: 0 <= k < |s| ==> s[k] != '{' && s[k] != '}'
    ensures Depth(s) == 0
  {
    if |s| > 0 {
      NoBraces(s[..|s| - 1]);
    }
  }

  /** Counting from the backslash sees one more open brace than counting from the text. */
  lemma DepthAfterHeader(p: string, t: string, k: nat)
    requires k <= |t|
    ensures Depth((p + HEADER + t)[|p|..|p| + 7 + k]) == 1 + Depth(t[..k])
  {
    assert (p + HEADER + t)[|p|..|p| + 7 + k] == HEADER + t[..k];
    DepthConcat(HEADER, t[..k]);
    NoBraces(BACKSLASH_BOXED);
    assert HEADER[..6] == BACKSLASH_BOXED;
  }

  lemma NoClosingBraceInHeader(s: string, p: string, t: string)
    requires s == p + HEADER + t
    ensures forall j :: |p| <= j < |p| + 7 ==> s[j] != '}'
  {
    assert forall k :: 0 <= k < 7 ==> HEADER[k] != '}';
    assert forall j :: |p| <= j < |p| + 7 ==> s[j] == HEADER[j - |p|];
  }

  lemma ClosedIsBalanced(p: string, t: string, c: nat)
    requires Close(t) == Some(c)
    ensures BalancedAt(p + HEADER + t, |p|, |p| + 7 + c)
  {
    var s := p + HEADER + t;
    NoClosingBraceInHeader(s, p, t);
    DepthAfterHeader(p, t, c + 1);
    forall j | |p| + 7 <= j < |p| + 7 + c && s[j] == '}'
      ensures Depth(s[|p|..j + 1]) != 0
    {
      DepthAfterHeader(p, t, j - (|p| + 7) + 1);
    }
  }

  lemma BalancedIsClosed(p: string, t: string, m: nat)
    requires BalancedAt(p + HEADER + t, |p|, m)
    ensures m >= |p| + 7 && Close(t) == Some(m - |p| - 7)
  {
    var s := p + HEADER + t;
    NoClosingBraceInHeader(s, p, t);
    var c := m - |p| - 7;
    DepthAfterHeader(p, t, c + 1);
    if Close(t).Some? {
      ClosedIsBalanced(p, t, Close(t).value);
    }
  }

  lemma BoxShape(p: string, t: string, c: nat)
    requires c < |t| && t[c] == '}' && !Has(p + HEADER + t, BOXED_SPACE)
    ensures RemoveBoxed((p + HEADER + t)[|p|..|p| + 7 + c + 1]) == Success(t[..c])
  {
    var box := HEADER + t[..c + 1];
    assert (p + HEADER + t)[|p|..|p| + 7 + c + 1] == box;
    assert box[7..|box| - 1] == t[..c];
    if Has(box, BOXED_SPACE) {
      assert p + HEADER + t == p + box + t[c + 1..];
      HasInside(p, box, t[c + 1..], BOXED_SPACE);
    }
  }

  lemma BoxedOfPiece(s: string, t: string)
    requires LastOf(Split(s, BOXED)) == "{" + t
    ensures Boxed(LastOf(Split(s, BOXED))) == Content(t)
  {
    assert ("{" + t)[1..] == t;
  }

  lemma LastAnswer(pieces: seq<string>, t: string, c: nat)
    requires |pieces| > 1 && LastOf(pieces) == t && Close(t) == Some(c)
    ensures |PieceAnswers(pieces[1..])| > 0
    ensures LastOf(PieceAnswers(pieces[1..])) == if c + 1 < |t| && t[c + 1] == '%' then t[..c + 1] else t[..c]
  {
    var rest := pieces[1..];
    assert rest[|rest| - 1] == t;
  }

  /**
   On text whose last "boxed" is written \boxed{ and closed, and without "\boxed ", the scanners find the same
   answer; extract_boxed_answers keeps the brace when a percent sign follows it.
   */
  lemma ScannersAgree(s: string, p: string, t: string, c: nat)
    requires s == p + HEADER + t && !Has(t, BOXED) && !Has(s, BOXED_SPACE)
    requires Close(t) == Some(c)
    ensures LastBoxed(s).Some? && RemoveBoxed(LastBoxed(s).value) == Success(t[..c])
    ensures Boxed(LastOf(Split(s, BOXED))) == t[..c]
    ensures |Split(s, BOXED_BRACE)| > 1 && |PieceAnswers(Split(s, BOXED_BRACE)[1..])| > 0
    ensures LastOf(PieceAnswers(Split(s, BOXED_BRACE)[1..])) == if c + 1 < |t| && t[c + 1] == '%' then t[..c + 1] else t[..c]
  {
    SameStart(p, t);
    BoxedOfPiece(s, t);
    LastAnswer(Split(s, BOXED_BRACE), t, c);
    ClosedIsBalanced(p, t, c);
    BoxShape(p, t, c);
    OnlyBalanced(s, p, t, c);
  }

  lemma OnlyBalanced(s: string, p: string, t: string, c: nat)
    requires s == p + HEADER + t && BoxStart(s) == Some(|p|) && !Has(s, BOXED_SPACE)
    requires BalancedAt(s, |p|, |p| + 7 + c)
    ensures LastBoxed(s) == Some(s[|p|..|p| + 7 + c + 1])
  {
  }

  /** A box that is never closed: last_boxed_only_string finds nothing, find_box takes the whole rest. */
  lemma OpenBox(s: string, p: string, t: string)
    requires s == p + HEADER + t && !Has(t, BOXED) && !Has(s, BOXED_SPACE)
    requires Close(t) == None
    ensures LastBoxed(s).None? && Boxed(LastOf(Split(s, BOXED))) == t
  {
    SameStart(p, t);
    BoxedOfPiece(s, t);
    if LastBoxed(s).Some? {
      var m :| BalancedAt(s, |p|, m);
      BalancedIsClosed(p, t, m);
    }
  }

  lemma PartHasNone(s: string, a: nat, b: nat, pattern: string)
    requires a <= b <= |s| && !Has(s, pattern)
    ensures !Has(s[a..b], pattern)
  {
    assert s == s[..a] + s[a..b] + s[b..];
    if Has(s[a..b], pattern) {
      HasInside(s[..a], s[a..b], s[b..], pattern);
    }
  }

  lemma HeaderFits(s: string, start: nat, m: nat)
    requires BalancedAt(s, start, m)
    ensures HEADER <= s[start..] <==> HEADER <= s[start..m + 1] && |s[start..m + 1]| > 7
  {
    if HEADER <= s[start..] {
      var p, t := s[..start], s[start + 7..];
      assert s == p + HEADER + t;
      NoClosingBraceInHeader(s, p, t);
      assert s[start..m + 1] == s[start..][..m + 1 - start];
    }
  }

  lemma BracedOnly(box: string)
    requires !Has(box, BOXED_SPACE) && |box| > 0 && box[|box| - 1] == '}'
    ensures RemoveBoxed(box).Success? <==> HEADER <= box && |box| > 7
  {
  }

  lemma WhereBalanced(s: string) returns (m: nat)
    requires LastBoxed(s).Some? && !Has(s, BOXED_SPACE)
    ensures BoxStart(s).Some? && BalancedAt(s, BoxStart(s).value, m)
    ensures LastBoxed(s) == Some(s[BoxStart(s).value..m + 1])
  {
    m :| BalancedAt(s, BoxStart(s).value, m) && LastBoxed(s) == Some(s[BoxStart(s).value..m + 1]);
  }

  lemma BracedAccepted(s: string)
    requires LastBoxed(s).Some? && !Has(s, BOXED_SPACE)
    ensures RemoveBoxed(LastBoxed(s).value).Success? <==> HEADER <= s[BoxStart(s).value..]
  {
    var start := BoxStart(s).value;
    var m := WhereBalanced(s);
    HeaderFits(s, start, m);
    PartHasNone(s, start, m + 1, BOXED_SPACE);
    BracedOnly(s[start..m + 1]);
  }

  /** remove_boxed refuses the box that last_boxed_only_string found exactly when it is not a braced \boxed. */
  lemma AssertionExactlyWhen(s: string)
    requires LastBoxed(s).Some?
    ensures RemoveBoxed(LastBoxed(s).value).Failure?
            <==> !Has(s, BOXED_SPACE) && !(HEADER <= s[BoxStart(s).value..])
  {
    if Has(s, BOXED_SPACE) {
      SpaceAccepted(Split(LastOf(Split(s, BOXED_SPACE)), "$")[0]);
    } else {
      BracedAccepted(s);
    }
  }

  lemma SpaceAccepted(x: string)
    ensures RemoveBoxed(BOXED_SPACE + x) == Success(x)
  {
    assert (BOXED_SPACE + x)[|BOXED_SPACE|..] == x;
    assert MatchesAt(BOXED_SPACE + x, BOXED_SPACE, 0);
  }
}
