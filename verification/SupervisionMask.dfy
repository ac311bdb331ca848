/**
 The decoder attention mask of Stage 1 (build_latent_token_supervision_mask_vectorized):
 a declarative visibility rule, and the in-place block writes that compute it.
 */
module SupervisionMask {
  import opened Wrappers
  import opened Search
  import opened Stage1Layout

  // ---- the rule ----

  ghost predicate Occurs(ids: seq<int>, x: int, from: int, to: int) {
    exists q :: 0 <= from <= q < to <= |ids| && ids[q] == x
  }

  /** The latest placeholder at or before j is still the latest one at i, and row i is text that a segment owns. */
  ghost predicate InWindow(ids: seq<int>, x: int, latentPos: Option<nat>, i: int, j: int)
    requires 0 <= i < |ids| && 0 <= j < |ids|
  {
    && j <= i
    && Occurs(ids, x, 0, j + 1)
    && !Occurs(ids, x, j + 1, i + 1)
    && ids[i] != x
    && (Occurs(ids, x, i + 1, |ids|) || latentPos.None? || i < latentPos.value)
  }

  /** Whether row i may attend to column j before padding is taken out. */
  ghost predicate Rule(ids: seq<int>, x: int, latentPos: Option<nat>, i: int, j: int)
    requires 0 <= i < |ids| && 0 <= j < |ids|
  {
    var f := FirstIndex(ids, x);
    || (i < f && j <= i)                                            // initial segment
    || InWindow(ids, x, latentPos, i, j)                            // text between placeholders
    || (latentPos.Some? && latentPos.value <= i                     // final segment
        && (latentPos.value <= j <= i || j < f || ids[j] == x))
    || (ids[i] == x && (j == i || j < f || (ids[j] == x && j < i))) // placeholders
  }

  predicate IsPad(ids: seq<int>, pad: Option<int>, i: int)
    requires 0 <= i < |ids|
  {
    pad.Some? && ids[i] == pad.value
  }

  ghost predicate Visible(ids: seq<int>, x: int, latentPos: Option<nat>, pad: Option<int>, i: int, j: int) {
    && 0 <= i < |ids| && 0 <= j < |ids|
    && Rule(ids, x, latentPos, i, j)
    && !IsPad(ids, pad, i) && !IsPad(ids, pad, j)
  }

  /** Where the final segment starts: the first match of the end marker; an empty marker never matches. */
  function LatentPos(ids: seq<int>, latentTokenIds: seq<int>): Option<nat> {
    if latentTokenIds == [] then None else FirstMatch(ids, latentTokenIds)
  }

  // ---- what each kind of row sees, token by token ----

  /** Text after the placeholder at p, and before the next one and the final segment, sees p and the text from there on. */
  lemma TextRow(ids: seq<int>, x: int, latentPos: Option<nat>, pad: Option<int>, p: nat, i: nat, j: nat)
    requires p < i < |ids| && j < |ids| && ids[p] == x && forall q :: p < q <= i ==> ids[q] != x
    requires latentPos.None? || i < latentPos.value
    ensures Visible(ids, x, latentPos, pad, i, j)
       <==> p <= j <= i && (pad.Some? ==> ids[i] != pad.value && ids[j] != pad.value)
  {
    assert FirstIndex(ids, x) <= p;
    if j >= p {
      assert Occurs(ids, x, 0, j + 1) && !Occurs(ids, x, j + 1, i + 1);
    } else {
      assert Occurs(ids, x, j + 1, i + 1);
    }
  }

  /** A row before the first placeholder and the final segment is causal. */
  lemma InitialRow(ids: seq<int>, x: int, latentPos: Option<nat>, pad: Option<int>, i: nat, j: nat)
    requires i < |ids| && j < |ids| && forall q :: 0 <= q <= i ==> ids[q] != x
    requires latentPos.None? || i < latentPos.value
    ensures Visible(ids, x, latentPos, pad, i, j)
       <==> j <= i && (pad.Some? ==> ids[i] != pad.value && ids[j] != pad.value)
  {
    assert FirstIndex(ids, x) > i;
    assert j <= i ==> !Occurs(ids, x, 0, j + 1);
  }

  /** A placeholder before the final segment sees the initial segment and the placeholders up to itself. */
  lemma PlaceholderRow(ids: seq<int>, x: int, latentPos: Option<nat>, pad: Option<int>, i: nat, j: nat)
    requires i < |ids| && j < |ids| && ids[i] == x
    requires latentPos.None? || i < latentPos.value
    ensures Visible(ids, x, latentPos, pad, i, j)
       <==> && ((forall q :: 0 <= q <= j ==> ids[q] != x) || (ids[j] == x && j <= i))
            && (pad.Some? ==> ids[i] != pad.value && ids[j] != pad.value)
  {
    assert j < FirstIndex(ids, x) <==> forall q :: 0 <= q <= j ==> ids[q] != x;
  }

  /**
   A text row of the final segment, behind all placeholders, sees that segment so far, the initial segment and
   all placeholders.
   */
  lemma FinalRow(ids: seq<int>, x: int, start: nat, pad: Option<int>, i: nat, j: nat)
    requires start <= i < |ids| && j < |ids| && forall q :: i <= q < |ids| ==> ids[q] != x
    ensures Visible(ids, x, Some(start), pad, i, j)
       <==> && (start <= j <= i || ids[j] == x || forall q :: 0 <= q <= j ==> ids[q] != x)
            && (pad.Some? ==> ids[i] != pad.value && ids[j] != pad.value)
  {
    assert j < FirstIndex(ids, x) <==> forall q :: 0 <= q <= j ==> ids[q] != x;
    assert !Occurs(ids, x, i + 1, |ids|);
  }

  // ---- the placeholders in order ----

  /** ps lists the indices of x in ascending order. */
  ghost predicate Indexes(ids: seq<int>, x: int, ps: seq<nat>) {
    && (forall k :: 0 <= k < |ps| ==> ps[k] < |ids| && ids[ps[k]] == x)
    && (forall k, l :: 0 <= k < l < |ps| ==> ps[k] < ps[l])
    && (forall q :: 0 <= q < |ids| && ids[q] == x ==> q in ps)
  }

  function Positions(ids: seq<int>, x: int): (r: seq<nat>)
    ensures Indexes(ids, x, r)
  {
    if |ids| == 0 then []
    else
      var before := Positions(ids[..|ids| - 1], x);
      if ids[|ids| - 1] == x then before + [|ids| - 1] else before
  }

  /** The last index of the text segment after the idx-th placeholder. */
  function SegmentEnd(n: nat, positions: seq<nat>, latentPos: Option<nat>, idx: nat): int
    requires idx < |positions|
  {
    if idx + 1 < |positions| then positions[idx + 1] - 1
    else if latentPos.Some? then latentPos.value - 1
    else n - 1
  }

  /** What the writes for segment idx make visible. */
  ghost predicate SegmentRule(n: nat, positions: seq<nat>, latentPos: Option<nat>, idx: nat, i: int, j: int)
    requires idx < |positions|
  {
    positions[idx] < i <= SegmentEnd(n, positions, latentPos, idx) && positions[idx] <= j <= i
  }

  lemma NoneBetween(ids: seq<int>, x: int, ps: seq<nat>, idx: nat, q: int)
    requires Indexes(ids, x, ps)
    requires idx < |ps| && ps[idx] < q < |ids|
    requires idx + 1 < |ps| ==> q < ps[idx + 1]
    ensures ids[q] != x
  {
  }

  lemma SegmentIsWindow(ids: seq<int>, x: int, ps: seq<nat>, latentPos: Option<nat>, idx: nat, i: int, j: int)
    requires 0 <= i < |ids| && 0 <= j < |ids|
    requires Indexes(ids, x, ps)
    requires idx < |ps|
    requires latentPos.Some? ==> latentPos.value < |ids|
    requires SegmentRule(|ids|, ps, latentPos, idx, i, j)
    ensures InWindow(ids, x, latentPos, i, j)
  {
    forall q | ps[idx] < q <= i
      ensures ids[q] != x
    {
      NoneBetween(ids, x, ps, idx, q);
    }
    assert ids[ps[idx]] == x;
    if idx + 1 < |ps| {
      assert ids[ps[idx + 1]] == x;
    }
  }

  lemma WindowIsSegment(ids: seq<int>, x: int, ps: seq<nat>, latentPos: Option<nat>, i: int, j: int) returns (idx: nat)
    requires 0 <= i < |ids| && 0 <= j < |ids|
    requires Indexes(ids, x, ps)
    requires InWindow(ids, x, latentPos, i, j)
    ensures idx < |ps|
    ensures SegmentRule(|ids|, ps, latentPos, idx, i, j)
  {
    var q :| 0 <= q < j + 1 && ids[q] == x;
    assert q in ps;
    var t :| 0 <= t < |ps| && ps[t] == q;
    idx := LastAtMost(ps, j, t);
    assert ids[ps[idx]] == x;
    if idx + 1 < |ps| {
      assert ids[ps[idx + 1]] == x;
    } else {
      forall q | i < q < |ids|
        ensures ids[q] != x
      {
        NoneBetween(ids, x, ps, idx, q);
      }
    }
  }

  lemma LastAtMost(ps: seq<nat>, j: int, t: nat) returns (idx: nat)
    requires t < |ps| && ps[t] <= j
    ensures idx < |ps| && ps[idx] <= j && (idx + 1 < |ps| ==> j < ps[idx + 1])
    decreases |ps| - t
  {
    if t + 1 < |ps| && ps[t + 1] <= j {
      idx := LastAtMost(ps, j, t + 1);
    } else {
      idx := t;
    }
  }

  // ---- the writes ----

  ghost predicate SquareOf(mask: array2<bool>, ids: seq<int>) {
    mask.Length0 == |ids| && mask.Length1 == |ids|
  }

  method WriteCausalBlock(mask: array2<bool>, s: int, e: int)
    requires 0 <= s <= e + 1 <= mask.Length0 && mask.Length0 == mask.Length1
    modifies mask
    ensures forall i, j :: 0 <= i < mask.Length0 && 0 <= j < mask.Length1 ==>
                             mask[i, j] == if s <= i <= e && s <= j <= e then j <= i else old(mask[i, j])
  {
    forall i, j | s <= i <= e && s <= j <= e {
      mask[i, j] := j <= i;
    }
  }

  /** The first idx segments. */
  ghost predicate Segments(n: nat, positions: seq<nat>, latentPos: Option<nat>, idx: nat, i: int, j: int)
    requires idx <= |positions|
  {
    exists t: nat :: t < idx && SegmentRule(n, positions, latentPos, t, i, j)
  }

  /** One segment: causal inside, and every row of it sees the placeholder before it. */
  method WriteSegment(mask: array2<bool>, start: nat, end: int)
    requires 0 < start <= end < mask.Length0 && mask.Length0 == mask.Length1
    modifies mask
    ensures forall i, j :: 0 <= i < mask.Length0 && 0 <= j < mask.Length1 ==>
                             mask[i, j] == if start <= i <= end && start - 1 <= j <= end then j <= i else old(mask[i, j])
  {
    WriteCausalBlock(mask, start, end);
    forall i, j | start <= i <= end && j == start - 1 {
      mask[i, j] := true;
    }
  }

  /** Section 4: every segment is causal inside and sees the placeholder before it. */
  method WriteSegments(mask: array2<bool>, ids: seq<int>, x: int, latentPos: Option<nat>)
    requires SquareOf(mask, ids)
    requires latentPos.Some? ==> latentPos.value < |ids|
    requires forall i, j :: 0 <= i < |ids| && 0 <= j < |ids| ==>
                              mask[i, j] == (i < FirstIndex(ids, x) && j <= i)
    modifies mask
    ensures forall i, j :: 0 <= i < |ids| && 0 <= j < |ids| ==>
                             mask[i, j] == ((i < FirstIndex(ids, x) && j <= i) || InWindow(ids, x, latentPos, i, j))
  {
    var n := |ids|;
    var ps := Positions(ids, x);
    for idx := 0 to |ps|
      invariant forall i, j :: 0 <= i < n && 0 <= j < n ==>
                                 mask[i, j] == Written(ids, x, ps, latentPos, idx, i, j)
    {
      var segStart, segEnd := ps[idx] + 1, SegmentEnd(n, ps, latentPos, idx);
      if segStart <= segEnd {
        WriteSegment(mask, segStart, segEnd);
      }
      forall i, j | 0 <= i < n && 0 <= j < n
        ensures mask[i, j] == Written(ids, x, ps, latentPos, idx + 1, i, j)
      {
        WrittenStep(ids, x, ps, latentPos, idx, i, j);
      }
    }
    forall i, j | 0 <= i < n && 0 <= j < n
      ensures Segments(n, ps, latentPos, |ps|, i, j) <==> InWindow(ids, x, latentPos, i, j)
    {
      SegmentsAreWindows(ids, x, ps, latentPos, i, j);
    }
  }

  ghost predicate Written(ids: seq<int>, x: int, ps: seq<nat>, latentPos: Option<nat>, idx: nat, i: int, j: int)
    requires idx <= |ps|
  {
    (i < FirstIndex(ids, x) && j <= i) || Segments(|ids|, ps, latentPos, idx, i, j)
  }

  lemma WrittenStep(ids: seq<int>, x: int, ps: seq<nat>, latentPos: Option<nat>, idx: nat, i: int, j: int)
    requires idx < |ps|
    ensures Written(ids, x, ps, latentPos, idx + 1, i, j)
         == if ps[idx] < i <= SegmentEnd(|ids|, ps, latentPos, idx) && ps[idx] <= j <= SegmentEnd(|ids|, ps, latentPos, idx) then j <= i
            else Written(ids, x, ps, latentPos, idx, i, j)
  {
    assert Segments(|ids|, ps, latentPos, idx + 1, i, j)
      <==> Segments(|ids|, ps, latentPos, idx, i, j) || SegmentRule(|ids|, ps, latentPos, idx, i, j);
  }

  lemma SegmentsAreWindows(ids: seq<int>, x: int, ps: seq<nat>, latentPos: Option<nat>, i: int, j: int)
    requires 0 <= i < |ids| && 0 <= j < |ids|
    requires Indexes(ids, x, ps)
    requires latentPos.Some? ==> latentPos.value < |ids|
    ensures Segments(|ids|, ps, latentPos, |ps|, i, j) <==> InWindow(ids, x, latentPos, i, j)
  {
    if InWindow(ids, x, latentPos, i, j) {
      var t := WindowIsSegment(ids, x, ps, latentPos, i, j);
    } else if Segments(|ids|, ps, latentPos, |ps|, i, j) {
      var t: nat :| t < |ps| && SegmentRule(|ids|, ps, latentPos, t, i, j);
      SegmentIsWindow(ids, x, ps, latentPos, t, i, j);
    }
  }

  /** Section 5: the final segment is causal inside and sees the initial segment and every placeholder. */
  method WriteFinal(mask: array2<bool>, ids: seq<int>, x: int, latentPos: Option<nat>)
    requires SquareOf(mask, ids)
    requires latentPos.Some? ==> latentPos.value < |ids|
    requires forall i, j :: 0 <= i < |ids| && 0 <= j < |ids| && i < j ==> !mask[i, j]
    modifies mask
    ensures forall i, j :: 0 <= i < |ids| && 0 <= j < |ids| ==>
                             mask[i, j] == (old(mask[i, j])
                                            || (latentPos.Some? && latentPos.value <= i
                                                && (latentPos.value <= j <= i || j < FirstIndex(ids, x) || ids[j] == x)))
  {
    if latentPos.Some? {
      var s, e := latentPos.value, |ids| - 1;
      var f := FirstIndex(ids, x);
      WriteCausalBlock(mask, s, e);
      forall i, j | s <= i <= e && 0 <= j < f {
        mask[i, j] := true;
      }
      forall i, j | s <= i <= e && 0 <= j <= e && ids[j] == x {
        mask[i, j] := true;
      }
    }
  }

  /** Section 6: a placeholder sees itself, the initial segment and the placeholders before it. */
  method WritePlaceholders(mask: array2<bool>, ids: seq<int>, x: int)
    requires SquareOf(mask, ids)
    modifies mask
    ensures forall i, j :: 0 <= i < |ids| && 0 <= j < |ids| ==>
                             mask[i, j] == (old(mask[i, j])
                                            || (ids[i] == x && (j == i || j < FirstIndex(ids, x) || (ids[j] == x && j < i))))
  {
    var n := |ids|;
    var f := FirstIndex(ids, x);
    var ps := Positions(ids, x);
    forall i | 0 <= i < n && ids[i] == x {
      mask[i, i] := true;
    }
    forall i, j | 0 <= i < n && ids[i] == x && 0 <= j < f {
      mask[i, j] := true;
    }
    for k := 0 to |ps|
      invariant forall i, j :: 0 <= i < n && 0 <= j < n ==>
                                 mask[i, j] == (old(mask[i, j])
                                                || (ids[i] == x && (j == i || j < f))
                                                || exists t :: 0 <= t < k && ps[t] == i && ids[j] == x && j < i)
    {
      if k > 0 {
        forall l | 0 <= l < k {
          mask[ps[k], ps[l]] := true;
        }
      }
    }
  }

  method WritePad(mask: array2<bool>, ids: seq<int>, pad: Option<int>)
    requires SquareOf(mask, ids)
    modifies mask
    ensures forall i, j :: 0 <= i < |ids| && 0 <= j < |ids| ==>
                             mask[i, j] == (old(mask[i, j]) && !IsPad(ids, pad, i) && !IsPad(ids, pad, j))
  {
    if pad.Some? {
      forall i, j | 0 <= i < |ids| && 0 <= j < |ids| && ids[i] == pad.value {
        mask[i, j] := false;
      }
      forall i, j | 0 <= i < |ids| && 0 <= j < |ids| && ids[j] == pad.value {
        mask[i, j] := false;
      }
    }
  }

  /** The whole construction; a marker longer than the sequence makes the sliding window fail. */
  method BuildSupervisionMask(ids: seq<int>, x: int, latentTokenIds: seq<int>, pad: Option<int>)
    returns (r: Result<array2<bool>>)
    ensures r.Failure? <==> |latentTokenIds| > |ids|
    ensures r.Success? ==>
              && fresh(r.value) && r.value.Length0 == |ids| && r.value.Length1 == |ids|
              && forall i, j :: 0 <= i < |ids| && 0 <= j < |ids| ==>
                                  r.value[i, j] == Visible(ids, x, LatentPos(ids, latentTokenIds), pad, i, j)
  {
    if |latentTokenIds| > |ids| {
      return Failure("RuntimeError");
    }
    var n := |ids|;
    var mask := new bool[n, n]((i, j) => false);
    var latentPos := LatentPos(ids, latentTokenIds);
    var initEnd: int := FirstIndex(ids, x);
    initEnd := initEnd - 1;
    if initEnd >= 0 {
      WriteCausalBlock(mask, 0, initEnd);
    }
    WriteSegments(mask, ids, x, latentPos);
    WriteFinal(mask, ids, x, latentPos);
    WritePlaceholders(mask, ids, x);
    WritePad(mask, ids, pad);
    r := Success(mask);
  }

  // ---- consequences ----

  /** Padding rows and columns are empty. */
  lemma PadIsolated(ids: seq<int>, x: int, latentPos: Option<nat>, pad: Option<int>, i: int, j: int)
    requires 0 <= i < |ids| && 0 <= j < |ids|
    requires IsPad(ids, pad, i) || IsPad(ids, pad, j)
    ensures !Visible(ids, x, latentPos, pad, i, j)
  {
  }

  /**
   The rule lets a row look ahead exactly when the final segment begins before the last token of
   the initial segment, or before some placeholder.
   */
  lemma CausalExactlyWhen(ids: seq<int>, x: int, latentPos: Option<nat>)
    requires latentPos.Some? ==> latentPos.value < |ids|
    ensures (forall i, j :: 0 <= i < |ids| && 0 <= j < |ids| && Rule(ids, x, latentPos, i, j) ==> j <= i)
       <==> latentPos.None? || (FirstIndex(ids, x) - 1 <= latentPos.value && !Occurs(ids, x, latentPos.value + 1, |ids|))
  {
    if latentPos.Some? {
      var p, f := latentPos.value, FirstIndex(ids, x);
      if p < f - 1 {
        assert Rule(ids, x, latentPos, p, f - 1);
      } else if Occurs(ids, x, p + 1, |ids|) {
        var q :| p < q < |ids| && ids[q] == x;
        assert Rule(ids, x, latentPos, p, q);
      }
    }
  }
}
