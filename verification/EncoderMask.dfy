/**
 The encoder attention mask (build_latent_token_induction_mask): each compress token summarises the
 text before it, and no other token ever depends on a compress token.
 */
module EncoderMask {
  import opened Stage1Layout
  import opened Attention

  /** Causal, never looking at an earlier special token, and blind to padding in both directions. */
  function InductionMask(ids: seq<int>, specials: seq<int>, pad: int): Mask {
    (i: int, j: int) =>
      && 0 <= i < |ids| && 0 <= j < |ids|
      && j <= i
      && !(ids[j] in specials && i > j)
      && ids[i] != pad && ids[j] != pad
  }

  /** Ordinary text: neither padding nor a compress token. */
  predicate IsContent(ids: seq<int>, specials: seq<int>, pad: int, i: int) {
    0 <= i < |ids| && ids[i] != pad && ids[i] !in specials
  }

  /** What row i may depend on: itself and the text before it. */
  function Sources(ids: seq<int>, specials: seq<int>, pad: int, i: int): int -> bool {
    (j: int) => j == i || (j < i && IsContent(ids, specials, pad, j))
  }

  function Positions(n: nat): (r: seq<int>)
    ensures |r| == n
  {
    seq(n, i => i)
  }

  function EncoderRun<S>(depth: nat, step: Step<S>, ids: seq<int>, specials: seq<int>, pad: int, init: seq<S>): (r: seq<S>)
    requires |init| == |ids|
    ensures |r| == |ids|
  {
    Run(depth, step, InductionMask(ids, specials, pad), Positions(|ids|), init)
  }

  lemma SourcesAreFaithful(ids: seq<int>, specials: seq<int>, pad: int, i: nat)
    requires i < |ids| && ids[i] != pad
    ensures Faithful(InductionMask(ids, specials, pad), Sources(ids, specials, pad, i), |ids|)
  {
  }

  /** Row i is the last of its sources. */
  lemma LastSource<T>(ids: seq<int>, specials: seq<int>, pad: int, i: nat, xs: seq<T>)
    requires i < |ids| == |xs|
    ensures var keep := Sources(ids, specials, pad, i);
            |Pick(keep, xs)| == Rank(keep, i) + 1 && Pick(keep, xs)[Rank(keep, i)] == xs[i]
  {
    var keep := Sources(ids, specials, pad, i);
    PickAt(keep, xs, i);
    PickLength(keep, xs);
    RankBeyond(keep, i + 1, |ids|);
  }

  /**
   At every depth a row that is not padding has the state it would get, as the last row, from a
   plain causal encoder that is given only the text before the row and the row itself.
   */
  lemma RowIsIsolated<S>(depth: nat, step: Step<S>, ids: seq<int>, specials: seq<int>, pad: int, init: seq<S>, i: nat)
    requires |init| == |ids| && i < |ids| && ids[i] != pad
    ensures var keep := Sources(ids, specials, pad, i);
            var pos, states := Pick(keep, Positions(|ids|)), Pick(keep, init);
            && |pos| == |states| > 0
            && EncoderRun(depth, step, ids, specials, pad, init)[i] == Run(depth, step, Causal(), pos, states)[|states| - 1]
  {
    var keep := Sources(ids, specials, pad, i);
    var mask := InductionMask(ids, specials, pad);
    var pos := Positions(|ids|);
    SourcesAreFaithful(ids, specials, pad, i);
    Simulation(depth, step, mask, keep, pos, init);
    LastSource(ids, specials, pad, i, Run(depth, step, mask, pos, init));
    LastSource(ids, specials, pad, i, init);
  }

  /**
   Non-interference: two encoder inputs, of any lengths, that agree on the text before a row and on
   the row itself give that row the same state at every depth.
   */
  lemma NonInterference<S>(depth: nat, step: Step<S>, specials: seq<int>, pad: int,
                           ids: seq<int>, init: seq<S>, ids': seq<int>, init': seq<S>, i: nat)
    requires |init| == |ids| && |init'| == |ids'| && i < |ids| && i < |ids'|
    requires ids[i] != pad && ids'[i] != pad && init[i] == init'[i]
    requires forall j :: 0 <= j < i ==> IsContent(ids, specials, pad, j) == IsContent(ids', specials, pad, j)
    requires forall j :: 0 <= j < i && IsContent(ids, specials, pad, j) ==> init[j] == init'[j]
    ensures EncoderRun(depth, step, ids, specials, pad, init)[i] == EncoderRun(depth, step, ids', specials, pad, init')[i]
  {
    var keep, keep' := Sources(ids, specials, pad, i), Sources(ids', specials, pad, i);
    RowIsIsolated(depth, step, ids, specials, pad, init, i);
    RowIsIsolated(depth, step, ids', specials, pad, init', i);
    PickTruncates(keep, init, i + 1);
    PickTruncates(keep', init', i + 1);
    PickTruncates(keep, Positions(|ids|), i + 1);
    PickTruncates(keep', Positions(|ids'|), i + 1);
    PickAgrees(keep, keep', init[..i + 1], init'[..i + 1]);
    PickAgrees(keep, keep', Positions(|ids|)[..i + 1], Positions(|ids'|)[..i + 1]);
  }

  /** A whole batch row behaves like the row without its right padding. */
  lemma RightPaddingIsInvisible<S>(depth: nat, step: Step<S>, specials: seq<int>, pad: int,
                                   ids: seq<int>, init: seq<S>, padding: seq<S>, i: nat)
    requires |init| == |ids| && i < |ids| && ids[i] != pad
    ensures EncoderRun(depth, step, ids + seq(|padding|, j => pad), specials, pad, init + padding)[i]
         == EncoderRun(depth, step, ids, specials, pad, init)[i]
  {
    NonInterference(depth, step, specials, pad, ids + seq(|padding|, j => pad), init + padding, ids, init, i);
  }

  // ---- and it depends on all of that ----

  /** A layer that tells whether a row sees a state that is true. */
  function AnyTrue(): Step<bool> {
    (l: nat, pos: int, state: bool, view: seq<(int, bool)>) => exists k :: 0 <= k < |view| && view[k].1
  }

  lemma {:induction false} SeesTrue(mask: Mask, i: int, pos: seq<int>, states: seq<bool>, j: nat)
    requires |pos| == |states| && j < |states| && mask(i, j) && states[j]
    ensures exists k :: 0 <= k < |View(mask, i, pos, states)| && View(mask, i, pos, states)[k].1
  {
    var n := |states| - 1;
    var front := View(mask, i, pos[..n], states[..n]);
    var view := View(mask, i, pos, states);
    if j < n {
      SeesTrue(mask, i, pos[..n], states[..n], j);
      var k :| 0 <= k < |front| && front[k].1;
      assert view[k] == front[k];
    } else {
      assert view[|front|] == (pos[n], states[n]);
    }
  }

  lemma {:induction false} SeesFalse(mask: Mask, i: int, pos: seq<int>, states: seq<bool>)
    requires |pos| == |states| && forall j :: 0 <= j < |states| ==> !states[j]
    ensures forall k :: 0 <= k < |View(mask, i, pos, states)| ==> !View(mask, i, pos, states)[k].1
  {
    if |states| > 0 {
      SeesFalse(mask, i, pos[..|states| - 1], states[..|states| - 1]);
    }
  }

  /** Changing the input state of row j to x, and nothing else, changes the state of row i. */
  ghost predicate Changes(depth: nat, step: Step<bool>, ids: seq<int>, specials: seq<int>, pad: int, init: seq<bool>, x: bool, i: nat, j: nat)
    requires i < |ids| && j < |ids|
  {
    && |init| == |ids|
    && EncoderRun(depth, step, ids, specials, pad, init)[i] != EncoderRun(depth, step, ids, specials, pad, init[j := x])[i]
  }

  ghost predicate Influences(ids: seq<int>, specials: seq<int>, pad: int, i: nat, j: nat)
    requires i < |ids| && j < |ids|
  {
    exists depth: nat, step: Step<bool>, init: seq<bool>, x: bool :: Changes(depth, step, ids, specials, pad, init, x, i, j)
  }

  /** A row depends on itself, and on each earlier token that is neither padding nor a compress token, and on nothing else. */
  lemma InfluencesExactly(ids: seq<int>, specials: seq<int>, pad: int, i: nat, j: nat)
    requires i < |ids| && j < |ids| && ids[i] != pad
    ensures Influences(ids, specials, pad, i, j) <==> j == i || (j < i && ids[j] != pad && ids[j] !in specials)
  {
    if j == i || (j < i && ids[j] != pad && ids[j] !in specials) {
      SourceInfluences(ids, specials, pad, i, j);
    } else if depth: nat, step: Step<bool>, init: seq<bool>, x: bool :| Changes(depth, step, ids, specials, pad, init, x, i, j) {
      NonInterference(depth, step, specials, pad, ids, init, ids, init[j := x], i);
    }
  }

  lemma SourceInfluences(ids: seq<int>, specials: seq<int>, pad: int, i: nat, j: nat)
    requires i < |ids| && j < |ids| && ids[i] != pad
    requires j == i || (j < i && ids[j] != pad && ids[j] !in specials)
    ensures Influences(ids, specials, pad, i, j)
  {
    var mask, pos, init := InductionMask(ids, specials, pad), Positions(|ids|), seq(|ids|, k => false);
    SeesFalse(mask, i, pos, init);
    SeesTrue(mask, i, pos, init[j := true], j);
    LayerReads(0, AnyTrue(), mask, pos, init, i);
    LayerReads(0, AnyTrue(), mask, pos, init[j := true], i);
    assert Changes(1, AnyTrue(), ids, specials, pad, init, true, i, j);
  }

  lemma {:induction false} PickAgrees<T>(keep: int -> bool, keep': int -> bool, xs: seq<T>, ys: seq<T>)
    requires |xs| == |ys|
    requires forall j :: 0 <= j < |xs| ==> keep(j) == keep'(j)
    requires forall j :: 0 <= j < |xs| && keep(j) ==> xs[j] == ys[j]
    ensures Pick(keep, xs) == Pick(keep', ys)
  {
    if |xs| > 0 {
      PickAgrees(keep, keep', xs[..|xs| - 1], ys[..|ys| - 1]);
    }
  }

  /**
   The encoder input of a sample holds as many compress tokens as its decoder input holds
   placeholders, in the training and in the compact layout, so the size checks that pair them never fail.
   */
  lemma CompressTokensMatchPlaceholders(prefix: seq<int>, think: seq<int>, endThink: seq<int>, suffix: seq<int>,
                                        content: seq<int>, compress: int, k: nat)
    requires k > 0 && content != []
    requires forall x :: x in [compress, LATENT] ==>
                           x !in prefix && x !in think && x !in endThink && x !in suffix && x !in content
    ensures LatentBlock(content, k).Success?
    ensures var cot := prefix + think + Woven(content, compress, k) + endThink;
            && CountOf(cot, compress) == CountOf(TrainingIds(prefix, think, LatentBlock(content, k).value, endThink, suffix), LATENT)
            && CountOf(cot, compress) == CountOf(CompactIds(prefix, think, Blocks(|content|, k), endThink, suffix), LATENT)
  {
    assert compress in [compress, LATENT] && LATENT in [compress, LATENT];
    LatentBlockShape(content, k);
    WovenCounts(content, compress, k);
    CountAround(prefix, think, Woven(content, compress, k), endThink, [], compress);
    assert prefix + think + Woven(content, compress, k) + endThink + [] == prefix + think + Woven(content, compress, k) + endThink;
    CountAround(prefix, think, LatentBlock(content, k).value, endThink, suffix, LATENT);
    var count := Blocks(|content|, k);
    var placeholders := seq(count, i => LATENT);
    CountPrefixMonotone(placeholders, LATENT, 0, count);
    assert placeholders[..0] == [] && placeholders[..count] == placeholders;
    CountAround(prefix, think, placeholders, endThink, suffix, LATENT);
  }

  lemma CountAround(a: seq<int>, b: seq<int>, c: seq<int>, d: seq<int>, e: seq<int>, x: int)
    requires x !in a && x !in b && x !in d && x !in e
    ensures CountOf(a + b + c + d + e, x) == CountOf(c, x)
  {
    CountConcat(a + b + c + d, e, x);
    CountConcat(a + b + c, d, x);
    CountConcat(a + b, c, x);
    CountConcat(a, b, x);
    CountAbsent(a, x);
    CountAbsent(b, x);
    CountAbsent(d, x);
    CountAbsent(e, x);
  }
}
