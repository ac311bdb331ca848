/**
 The token sequences of Stage 1: weaving latent placeholders into the reasoning text,
 laying out the training sequence and its compact counterpart, and the dual-track
 position ids (src/stage1/data.py, src/stage2/data.py, src/validation.py).
 */
module Stage1Layout {
  import DivMod
  import opened Wrappers

  /** The placeholder id that stands for one latent token in decoder inputs and labels. */
  const LATENT: int := -100

  // ---- positions of a token ----

  function CountOf(ids: seq<int>, x: int): nat {
    if |ids| == 0 then 0
    else CountOf(ids[..|ids| - 1], x) + if ids[|ids| - 1] == x then 1 else 0
  }

  /** The index of the first x, or the length when there is none. */
  function FirstIndex(ids: seq<int>, x: int): (r: nat)
    ensures r <= |ids|
    ensures r < |ids| ==> ids[r] == x
    ensures forall q :: 0 <= q < r ==> ids[q] != x
  {
    if |ids| == 0 || ids[0] == x then 0 else 1 + FirstIndex(ids[1..], x)
  }

  /** The index of the last x, or -1 when there is none. */
  function LastIndex(ids: seq<int>, x: int): (r: int)
    ensures -1 <= r < |ids|
    ensures 0 <= r ==> ids[r] == x
    ensures forall q :: r < q < |ids| ==> ids[q] != x
  {
    if |ids| == 0 then -1
    else if ids[|ids| - 1] == x then |ids| - 1
    else LastIndex(ids[..|ids| - 1], x)
  }

  lemma {:induction false} CountConcat(a: seq<int>, b: seq<int>, x: int)
    ensures CountOf(a + b, x) == CountOf(a, x) + CountOf(b, x)
  {
    if |b| == 0 {
      assert a + b == a;
    } else {
      CountConcat(a, b[..|b| - 1], x);
      assert (a + b)[..|a + b| - 1] == a + b[..|b| - 1];
    }
  }

  lemma {:induction false} CountAbsent(ids: seq<int>, x: int)
    requires x !in ids
    ensures CountOf(ids, x) == 0
  {
    if |ids| > 0 {
      CountAbsent(ids[..|ids| - 1], x);
    }
  }

  lemma {:induction false} CountPrefixMonotone(ids: seq<int>, x: int, i: nat, j: nat)
    requires i <= j <= |ids|
    ensures CountOf(ids[..i], x) <= CountOf(ids[..j], x)
    ensures (forall q :: i <= q < j ==> ids[q] != x) ==> CountOf(ids[..i], x) == CountOf(ids[..j], x)
    ensures (forall q :: i <= q < j ==> ids[q] == x) ==> CountOf(ids[..j], x) == CountOf(ids[..i], x) + j - i
  {
    if i < j {
      CountPrefixMonotone(ids, x, i, j - 1);
      assert ids[..j][..j - 1] == ids[..j - 1];
    }
  }

  // ---- weaving ----

  /** The text cut into blocks of k tokens (the last one may be shorter), x after every block. */
  function Woven(ids: seq<int>, x: int, k: nat): seq<int>
    requires k > 0
  {
    if |ids| == 0 then []
    else if |ids| <= k then ids + [x]
    else ids[..k] + [x] + Woven(ids[k..], x, k)
  }

  /** The number of blocks of k tokens that n tokens fill, the last one perhaps partly. */
  function Blocks(n: nat, k: nat): nat
    requires k > 0
  {
    if n == 0 then 0 else if n <= k then 1 else 1 + Blocks(n - k, k)
  }

  function Abs(k: int): nat { if k < 0 then -k else k }

  lemma {:induction false} BlocksIsCeiling(n: nat, k: nat)
    requires k > 0
    ensures (Blocks(n, k) - 1) * k < n || n == 0
    ensures n <= Blocks(n, k) * k
  {
    if n > k {
      BlocksIsCeiling(n - k, k);
      var b := Blocks(n - k, k);
      assert (b + 1) * k == b * k + k;
      assert (b - 1) * k + k == b * k;
    }
  }

  /** Whole blocks can be woven apart. */
  lemma {:induction false} WovenConcat(a: seq<int>, b: seq<int>, x: int, k: nat)
    requires k > 0 && |a| % k == 0
    ensures Woven(a + b, x, k) == Woven(a, x, k) + Woven(b, x, k)
    ensures Blocks(|a + b|, k) == Blocks(|a|, k) + Blocks(|b|, k)
    decreases |a|
  {
    if |a| == 0 {
      assert a + b == b;
    } else if |b| == 0 {
      assert a + b == a;
    } else {
      DivMod.StepDown(|a|, k);
      assert (a + b)[..k] == a[..k];
      assert (a + b)[k..] == a[k..] + b;
      WovenConcat(a[k..], b, x, k);
      if |a| == k {
        assert a[k..] == [] && a[..k] == a;
        assert a[k..] + b == b;
      } else {
        assert Woven(a, x, k) == a[..k] + [x] + Woven(a[k..], x, k);
      }
    }
  }

  lemma OneBlock(ids: seq<int>, x: int, k: nat)
    requires k > 0 && 0 < |ids| <= k
    ensures Woven(ids, x, k) == ids + [x] && Blocks(|ids|, k) == 1
  {
  }

  method InsertSpecialTokenEveryK(ids: seq<int>, specialId: int, specialLabelId: int, k: int)
    returns (r: Result<(seq<int>, nat, seq<int>)>)
    ensures k == 0 ==> r.Failure?
    ensures k != 0 ==> r == Success((Woven(ids, specialId, Abs(k)), Blocks(|ids|, Abs(k)), Woven(ids, specialLabelId, Abs(k))))
  {
    if k == 0 {
      return Failure("ZeroDivisionError");
    }
    ghost var m := Abs(k);
    var newIds: seq<int>, labelIds: seq<int>, count := [], [], 0;
    ghost var start := 0;
    for i := 0 to |ids|
      invariant start <= i && i - start < m && start % m == 0
      invariant newIds == OpenBlock(ids, specialId, m, start, i)
      invariant labelIds == OpenBlock(ids, specialLabelId, m, start, i)
      invariant count == Blocks(start, m)
    {
      newIds := newIds + [ids[i]];
      labelIds := labelIds + [ids[i]];
      ExtendBlock(ids, specialId, m, start, i);
      ExtendBlock(ids, specialLabelId, m, start, i);
      DivMod.BlockEnd(start, i + 1 - start, m);
      DivMod.SignFree(i + 1, k);
      if (i + 1) % k == 0 {
        newIds := newIds + [specialId];
        labelIds := labelIds + [specialLabelId];
        count := count + 1;
        EndBlock(ids, specialId, m, start, i + 1);
        EndBlock(ids, specialLabelId, m, start, i + 1);
        start := i + 1;
      }
    }
    DivMod.BlockEnd(start, |ids| - start, m);
    DivMod.SignFree(|ids|, k);
    if |ids| % k != 0 {
      newIds := newIds + [specialId];
      labelIds := labelIds + [specialLabelId];
      count := count + 1;
      EndBlock(ids, specialId, m, start, |ids|);
      EndBlock(ids, specialLabelId, m, start, |ids|);
      start := |ids|;
    }
    WholeText(ids, specialId, m);
    WholeText(ids, specialLabelId, m);
    r := Success((newIds, count, labelIds));
  }

  /** The woven text of the blocks before `start`, then the open block so far. */
  ghost function OpenBlock(ids: seq<int>, x: int, k: nat, start: nat, i: nat): seq<int>
    requires k > 0 && start <= i <= |ids|
  {
    Woven(ids[..start], x, k) + ids[start..i]
  }

  lemma ExtendBlock(ids: seq<int>, x: int, k: nat, start: nat, i: nat)
    requires k > 0 && start <= i < |ids|
    ensures OpenBlock(ids, x, k, start, i + 1) == OpenBlock(ids, x, k, start, i) + [ids[i]]
  {
  }

  /** Closing a block of at most k tokens that begins at a multiple of k. */
  lemma EndBlock(ids: seq<int>, x: int, k: nat, start: nat, end: nat)
    requires k > 0 && start % k == 0 && start < end <= |ids| && end - start <= k
    ensures OpenBlock(ids, x, k, end, end) == OpenBlock(ids, x, k, start, end) + [x]
    ensures Blocks(end, k) == Blocks(start, k) + 1
  {
    assert ids[..end] == ids[..start] + ids[start..end];
    WovenConcat(ids[..start], ids[start..end], x, k);
    OneBlock(ids[start..end], x, k);
  }

  lemma WholeText(ids: seq<int>, x: int, k: nat)
    requires k > 0
    ensures OpenBlock(ids, x, k, |ids|, |ids|) == Woven(ids, x, k)
  {
    assert ids[..|ids|] == ids;
  }

  /** Dropping the placeholders gives the text back. */
  lemma {:induction false} WovenErases(ids: seq<int>, x: int, k: nat)
    requires k > 0 && x !in ids
    ensures Without(Woven(ids, x, k), x) == ids
  {
    if |ids| == 0 {
    } else if |ids| <= k {
      WithoutBlock(ids, x);
    } else {
      WithoutConcat(ids[..k] + [x], Woven(ids[k..], x, k), x);
      WithoutBlock(ids[..k], x);
      WovenErases(ids[k..], x, k);
      assert ids[..k] + ids[k..] == ids;
    }
  }

  lemma WithoutBlock(block: seq<int>, x: int)
    requires x !in block
    ensures Without(block + [x], x) == block
  {
    assert (block + [x])[..|block|] == block;
    WithoutAbsent(block, x);
  }

  function Without(ids: seq<int>, x: int): seq<int> {
    if |ids| == 0 then []
    else Without(ids[..|ids| - 1], x) + if ids[|ids| - 1] == x then [] else [ids[|ids| - 1]]
  }

  lemma {:induction false} WithoutConcat(a: seq<int>, b: seq<int>, x: int)
    ensures Without(a + b, x) == Without(a, x) + Without(b, x)
  {
    if |b| == 0 {
      assert a + b == a;
    } else {
      WithoutConcat(a, b[..|b| - 1], x);
      assert (a + b)[..|a + b| - 1] == a + b[..|b| - 1];
    }
  }

  lemma {:induction false} WithoutAbsent(ids: seq<int>, x: int)
    requires x !in ids
    ensures Without(ids, x) == ids
  {
    if |ids| > 0 {
      WithoutAbsent(ids[..|ids| - 1], x);
    }
  }

  /** There is one placeholder for each block, and the woven text ends in one. */
  lemma {:induction false} WovenCounts(ids: seq<int>, x: int, k: nat)
    requires k > 0 && x !in ids && |ids| > 0
    ensures CountOf(Woven(ids, x, k), x) == Blocks(|ids|, k) > 0
    ensures |Woven(ids, x, k)| > 0 && Woven(ids, x, k)[|Woven(ids, x, k)| - 1] == x
  {
    if |ids| <= k {
      CountConcat(ids, [x], x);
      CountAbsent(ids, x);
    } else {
      WovenCounts(ids[k..], x, k);
      CountConcat(ids[..k] + [x], Woven(ids[k..], x, k), x);
      CountConcat(ids[..k], [x], x);
      CountAbsent(ids[..k], x);
    }
  }

  /** The sequence from the first x on; the code raises ValueError when there is none. */
  function RemoveBeforeToken(ids: seq<int>, x: int): (r: Result<seq<int>>)
    ensures r.Failure? <==> x !in ids
    ensures r.Success? ==> exists dropped: seq<int> :: dropped + r.value == ids && x !in dropped
    ensures r.Success? ==> r.value != [] && r.value[0] == x
  {
    var i := FirstIndex(ids, x);
    if i == |ids| then Failure("special_id not found in the list")
    else
      assert ids[..i] + ids[i..] == ids && x !in ids[..i];
      Success(ids[i..])
  }

  // ---- the training layout and the compact layout ----

  /** The latent block of the training sequence: the woven text from its first placeholder on. */
  function LatentBlock(content: seq<int>, k: nat): Result<seq<int>>
    requires k > 0
  {
    RemoveBeforeToken(Woven(content, LATENT, k), LATENT)
  }

  function TrainingIds(prefix: seq<int>, think: seq<int>, block: seq<int>, endThink: seq<int>, suffix: seq<int>): seq<int> {
    prefix + think + block + endThink + suffix
  }

  /** The sequence used at validation time and in Stage 2: placeholders only, no text between them. */
  function CompactIds(prefix: seq<int>, think: seq<int>, count: nat, endThink: seq<int>, suffix: seq<int>): seq<int> {
    prefix + think + seq(count, i => LATENT) + endThink + suffix
  }

  /** The block starts and ends with a placeholder and holds exactly one for every k text tokens. */
  lemma LatentBlockShape(content: seq<int>, k: nat)
    requires k > 0 && LATENT !in content
    ensures LatentBlock(content, k).Failure? <==> content == []
    ensures content != [] ==>
              var b := LatentBlock(content, k).value;
              |b| > 0 && b[0] == LATENT && b[|b| - 1] == LATENT && CountOf(b, LATENT) == Blocks(|content|, k)
  {
    if content != [] {
      var w := Woven(content, LATENT, k);
      WovenCounts(content, LATENT, k);
      assert w[|w| - 1] in w;
      var b := LatentBlock(content, k).value;
      var dropped: seq<int> :| dropped + b == w && LATENT !in dropped;
      DroppedText(dropped, b);
    }
  }

  lemma DroppedText(dropped: seq<int>, b: seq<int>)
    requires LATENT !in dropped && |b| > 0
    ensures CountOf(dropped + b, LATENT) == CountOf(b, LATENT)
    ensures (dropped + b)[|dropped + b| - 1] == b[|b| - 1]
  {
    CountConcat(dropped, b, LATENT);
    CountAbsent(dropped, LATENT);
  }

  // ---- the text in the latent block ----

  lemma WovenFront(ids: seq<int>, x: int, k: nat)
    requires k > 0 && |ids| > 0
    ensures var m := if k < |ids| then k else |ids|;
            m < |Woven(ids, x, k)| && Woven(ids, x, k)[..m] == ids[..m] && Woven(ids, x, k)[m] == x
  {
    assert ids[..|ids|] == ids;
  }

  /** In the woven text, token t stands behind t / k placeholders. */
  lemma {:induction false} WovenAt(ids: seq<int>, x: int, k: nat, t: nat)
    requires k > 0 && x !in ids && t < |ids|
    ensures t + t / k < |Woven(ids, x, k)| && Woven(ids, x, k)[t + t / k] == ids[t]
    ensures CountOf(Woven(ids, x, k)[..t + t / k], x) == t / k
  {
    if t < k {
      DivMod.Unique(t, k, 0, t);
      WovenFront(ids, x, k);
      FrontToken(ids, Woven(ids, x, k), x, if k < |ids| then k else |ids|, t);
    } else {
      var u := t - k;
      NextBlock(t, k);
      WovenAt(ids[k..], x, k, u);
      LaterToken(Woven(ids, x, k), ids[..k], x, Woven(ids[k..], x, k), u + u / k);
    }
  }

  lemma FrontToken(ids: seq<int>, w: seq<int>, x: int, m: nat, t: nat)
    requires t < m <= |ids| && m <= |w| && w[..m] == ids[..m] && x !in ids
    ensures w[t] == ids[t] && CountOf(w[..t], x) == 0
  {
    assert w[..t] == ids[..t] && w[..m][t] == ids[..m][t];
    CountAbsent(ids[..t], x);
  }

  lemma LaterToken(w: seq<int>, block: seq<int>, x: int, rest: seq<int>, m: nat)
    requires w == block + [x] + rest && x !in block && m < |rest|
    ensures |block| + 1 + m < |w| && w[|block| + 1 + m] == rest[m]
    ensures CountOf(w[..|block| + 1 + m], x) == 1 + CountOf(rest[..m], x)
  {
    CountBlock(block, rest, m, x);
  }

  lemma NextBlock(t: nat, k: nat)
    requires k > 0 && t >= k
    ensures t / k == (t - k) / k + 1
  {
    var q, r := (t - k) / k, (t - k) % k;
    assert t - k == q * k + r;
    assert t == (q + 1) * k + r;
    DivMod.Unique(t, k, q + 1, r);
  }

  lemma CountBlock(block: seq<int>, rest: seq<int>, m: nat, x: int)
    requires x !in block && m <= |rest|
    ensures CountOf((block + [x] + rest)[..|block| + 1 + m], x) == 1 + CountOf(rest[..m], x)
  {
    assert (block + [x] + rest)[..|block| + 1 + m] == block + [x] + rest[..m];
    CountConcat(block + [x], rest[..m], x);
    CountConcat(block, [x], x);
    CountAbsent(block, x);
    assert [x][..0] == [];
  }

  /** What is dropped from the woven text is the first block of text. */
  lemma BlockIsRest(content: seq<int>, k: nat)
    requires k > 0 && LATENT !in content && content != []
    ensures LatentBlock(content, k).Success?
    ensures var m := if k < |content| then k else |content|;
            && m < |Woven(content, LATENT, k)|
            && LatentBlock(content, k).value == Woven(content, LATENT, k)[m..]
            && Woven(content, LATENT, k)[..m] == content[..m]
  {
    var w := Woven(content, LATENT, k);
    var m := if k < |content| then k else |content|;
    LatentBlockShape(content, k);
    var b := LatentBlock(content, k).value;
    var dropped: seq<int> :| dropped + b == w && LATENT !in dropped;
    WovenFront(content, LATENT, k);
    FirstOnly(dropped, b, w, content, m);
  }

  lemma FirstOnly(dropped: seq<int>, b: seq<int>, w: seq<int>, content: seq<int>, m: nat)
    requires dropped + b == w && LATENT !in dropped && |b| > 0 && b[0] == LATENT
    requires m <= |content| && m < |w| && w[..m] == content[..m] && w[m] == LATENT && LATENT !in content
    ensures b == w[m..]
  {
    assert forall q :: 0 <= q < m ==> w[..m][q] == content[q];
    assert forall q :: 0 <= q < |dropped| ==> dropped[q] == w[q];
    assert w[|dropped|] == b[0];
    assert |dropped| == m;
  }

  /** Without its placeholders the latent block is the text after the first k tokens. */
  lemma LatentBlockText(content: seq<int>, k: nat)
    requires k > 0 && LATENT !in content && content != []
    ensures LatentBlock(content, k).Success?
    ensures Without(LatentBlock(content, k).value, LATENT) == content[if k < |content| then k else |content|..]
  {
    var w, m := Woven(content, LATENT, k), if k < |content| then k else |content|;
    BlockIsRest(content, k);
    WovenErases(content, LATENT, k);
    assert w == w[..m] + w[m..];
    WithoutConcat(w[..m], w[m..], LATENT);
    WithoutAbsent(content[..m], LATENT);
    assert content == content[..m] + content[m..];
  }

  /** Text token t, from the k-th on, stands behind exactly t / k placeholders of the block. */
  lemma LatentBlockAt(content: seq<int>, k: nat, t: nat)
    requires k > 0 && LATENT !in content && k <= t < |content|
    ensures LatentBlock(content, k).Success?
    ensures var b, q := LatentBlock(content, k).value, t - k + t / k;
            q < |b| && b[q] == content[t] && CountOf(b[..q], LATENT) == t / k
  {
    var w := Woven(content, LATENT, k);
    BlockIsRest(content, k);
    WovenAt(content, LATENT, k, t);
    var q := t - k + t / k;
    assert w[..t + t / k] == w[..k] + w[k..][..q];
    CountConcat(w[..k], w[k..][..q], LATENT);
    CountAbsent(content[..k], LATENT);
  }

  /** Where the layouts of training, validation and Stage 2 put their parts; Stage 2 reads its latent states in between. */
  lemma LayoutParts(prefix: seq<int>, think: seq<int>, block: seq<int>, count: nat, endThink: seq<int>, suffix: seq<int>)
    ensures var start := |prefix + think|;
            var training, compact := TrainingIds(prefix, think, block, endThink, suffix), CompactIds(prefix, think, count, endThink, suffix);
            && training[..start] == prefix + think == compact[..start]
            && training[start..start + |block|] == block && (forall c :: start <= c < start + count ==> compact[c] == LATENT)
            && training[start + |block|..] == endThink + suffix == compact[start + count..]
  {
    var a := prefix + think;
    assert TrainingIds(prefix, think, block, endThink, suffix) == a + block + (endThink + suffix);
    assert CompactIds(prefix, think, count, endThink, suffix) == a + seq(count, i => LATENT) + (endThink + suffix);
  }

  // ---- dual-track positions ----

  /**
   The position id of index i: its own index before the first placeholder; from there on the
   number of placeholders so far continues the prefix, and text counts on from the last placeholder.
   */
  function DualTrack(ids: seq<int>, x: int, i: nat): int
    requires i < |ids|
  {
    var f := FirstIndex(ids, x);
    if i < f then i
    else f - 1 + CountOf(ids[..i + 1], x) + (i - LastIndex(ids[..i + 1], x))
  }

  function DualTrackIds(ids: seq<int>, x: int): (r: seq<int>)
    ensures |r| == |ids|
  {
    seq(|ids|, i requires 0 <= i < |ids| => DualTrack(ids, x, i))
  }

  /** Placeholders count on from the prefix as if there were no text between them; other tokens count on by one. */
  lemma DualTrackRules(ids: seq<int>, x: int, i: nat)
    requires i < |ids|
    ensures ids[i] == x ==> DualTrack(ids, x, i) == FirstIndex(ids, x) + CountOf(ids[..i], x)
    ensures ids[i] != x && i > 0 ==> DualTrack(ids, x, i) == DualTrack(ids, x, i - 1) + 1
    ensures ids[i] != x && i == 0 ==> DualTrack(ids, x, i) == 0
  {
    assert ids[..i + 1][..i] == ids[..i];
  }

  method ComputeDualTrackPositionIds(ids: seq<int>, specialId: int) returns (positionIds: seq<int>)
    ensures positionIds == DualTrackIds(ids, specialId)
  {
    var n := |ids|;
    positionIds := seq(n, i => i);
    var first: int := FirstIndex(ids, specialId);
    if first == n {
      return;
    }
    var latentBase: int := first - 1;
    var latentCount: nat, currentPos: int := 0, latentBase;
    CountAbsent(ids[..first], specialId);
    for i := first to n
      invariant |positionIds| == n
      invariant latentCount == CountOf(ids[..i], specialId)
      invariant i > first ==> currentPos == DualTrack(ids, specialId, i - 1)
      invariant i == first ==> currentPos == latentBase
      invariant forall q :: 0 <= q < i ==> positionIds[q] == DualTrack(ids, specialId, q)
    {
      assert ids[..i + 1][..i] == ids[..i];
      if ids[i] == specialId {
        latentCount := latentCount + 1;
        var pos := latentBase + latentCount;
        positionIds := positionIds[i := pos];
        currentPos := pos;
      } else {
        currentPos := currentPos + 1;
        positionIds := positionIds[i := currentPos];
        assert LastIndex(ids[..i + 1], specialId) == LastIndex(ids[..i], specialId);
      }
    }
  }
}
