/**
 The text between the latent placeholders does not influence the answer: through any number of
 attention layers, every prefix, placeholder and final-segment row of the Stage-1 sequence has the
 state it would have in the compact sequence used at validation time and in Stage 2.
 */
module SpacerInvisibility {
  import opened Wrappers
  import opened Search
  import opened Stage1Layout
  import opened SupervisionMask
  import opened Attention

  /** A tokenised training sample after weaving. */
  datatype Sample = Sample(prefix: seq<int>, think: seq<int>, block: seq<int>, endThink: seq<int>, suffix: seq<int>) {

    function Ids(): seq<int> { TrainingIds(prefix, think, block, endThink, suffix) }

    /** Where the latent block begins and ends. */
    function Start(): nat { |prefix| + |think| }

    function End(): nat { |prefix| + |think| + |block| }

    function Compact(): seq<int> { CompactIds(prefix, think, CountOf(block, LATENT), endThink, suffix) }

    /** The shape that weaving and tokenising produce: no placeholder outside the block, one at either end of it. */
    ghost predicate Valid() {
      && |block| > 0 && block[0] == LATENT && block[|block| - 1] == LATENT
      && LATENT !in prefix && LATENT !in think && LATENT !in endThink && LATENT !in suffix
      && |endThink| > 0
    }

    /** The rows that also exist in the compact sequence. */
    predicate IsRow(i: int) {
      0 <= i < |Ids()| && (i < Start() || i >= End() || Ids()[i] == LATENT)
    }
  }

  /** A batch row: the collator fills up the ids with the pad token and the position ids with 0. */
  function PadIds(ids: seq<int>, pad: int, padding: nat): (r: seq<int>) {
    ids + seq(padding, i => pad)
  }

  function PadPositions(pos: seq<int>, padding: nat): (r: seq<int>) {
    pos + seq(padding, i => 0)
  }

  /** Input embeddings: the c-th placeholder gets the c-th soft token, every other token its own embedding. */
  function Embeddings<S>(ids: seq<int>, embed: int -> S, soft: nat -> S): (r: seq<S>)
    ensures |r| == |ids|
  {
    seq(|ids|, i requires 0 <= i < |ids| =>
      if ids[i] == LATENT then soft(CountOf(ids[..i], LATENT)) else embed(ids[i]))
  }

  ghost function DecoderMask(ids: seq<int>, endThink: seq<int>, pad: int): Mask {
    (i: int, j: int) => 0 <= i < |ids| && 0 <= j < |ids| && Visible(ids, LATENT, LatentPos(ids, endThink), Some(pad), i, j)
  }

  /** The row states of the training sequence in a batch. */
  ghost function TrainingRun<S>(depth: nat, step: Step<S>, s: Sample, pad: int, padding: nat, embed: int -> S, soft: nat -> S): seq<S> {
    var ids := PadIds(s.Ids(), pad, padding);
    Run(depth, step, DecoderMask(ids, s.endThink, pad), PadPositions(DualTrackIds(s.Ids(), LATENT), padding), Embeddings(ids, embed, soft))
  }

  /** The causal mask of Stage 2 and validation, which also hides the pad token from every row. */
  function PadMask(ids: seq<int>, pad: int): Mask {
    (i: int, j: int) => 0 <= i < |ids| && 0 <= j <= i && ids[j] != pad
  }

  /** The row states of a padded sequence under that mask with positions 0, 1, 2, ... */
  function MaskedRun<S>(depth: nat, step: Step<S>, unpadded: seq<int>, pad: int, padding: nat, embed: int -> S, soft: nat -> S): seq<S> {
    var ids := PadIds(unpadded, pad, padding);
    Run(depth, step, PadMask(ids, pad), seq(|ids|, i => i), Embeddings(ids, embed, soft))
  }

  /** The row states of a sequence under a plain causal mask with positions 0, 1, 2, ... */
  function PlainRun<S>(depth: nat, step: Step<S>, ids: seq<int>, embed: int -> S, soft: nat -> S): seq<S> {
    Run(depth, step, Causal(), seq(|ids|, i => i), Embeddings(ids, embed, soft))
  }

  // ---- indices ----

  /** How many rows of the compact sequence come before index i. */
  function RowsBefore(s: Sample, i: nat): nat {
    if i <= s.Start() then i
    else if i <= s.End() then s.Start() + CountOf(s.block[..i - s.Start()], LATENT)
    else s.Start() + CountOf(s.block, LATENT) + i - s.End()
  }

  lemma Shape(s: Sample)
    requires s.Valid()
    ensures s.End() < |s.Ids()|
    ensures forall i :: 0 <= i < s.Start() || s.End() <= i < |s.Ids()| ==> s.Ids()[i] != LATENT
    ensures forall i :: s.Start() <= i < s.End() ==> s.Ids()[i] == s.block[i - s.Start()]
    ensures FirstIndex(s.Ids(), LATENT) == s.Start()
  {
    var ids := s.Ids();
    forall i | 0 <= i < s.Start()
      ensures ids[i] != LATENT
    {
      assert ids[i] == if i < |s.prefix| then s.prefix[i] else s.think[i - |s.prefix|];
    }
    forall i | s.End() <= i < |ids|
      ensures ids[i] != LATENT
    {
      var j := i - s.End();
      assert ids[i] == if j < |s.endThink| then s.endThink[j] else s.suffix[j - |s.endThink|];
    }
    assert ids[s.Start()] == s.block[0];
  }

  lemma CountInBlock(s: Sample, i: nat)
    requires s.Valid() && s.Start() <= i <= s.End()
    ensures i <= |s.Ids()| && CountOf(s.Ids()[..i], LATENT) == CountOf(s.block[..i - s.Start()], LATENT)
  {
    Shape(s);
    var ids, a := s.Ids(), s.Start();
    CountAbsent(ids[..a], LATENT);
    CountSplit(ids, a, i);
    assert ids[a..i] == s.block[..i - a];
  }

  lemma CountBefore(s: Sample, i: nat)
    requires s.Valid() && i <= |s.Ids()|
    ensures CountOf(s.Ids()[..i], LATENT)
         == if i <= s.Start() then 0 else if i <= s.End() then CountOf(s.block[..i - s.Start()], LATENT) else CountOf(s.block, LATENT)
  {
    Shape(s);
    var ids, e := s.Ids(), s.End();
    if i <= s.Start() {
      CountAbsent(ids[..i], LATENT);
    } else if i <= e {
      CountInBlock(s, i);
    } else {
      CountInBlock(s, e);
      assert s.block[..|s.block|] == s.block;
      CountSplit(ids, e, i);
      CountAbsent(ids[e..i], LATENT);
    }
  }

  lemma CountSplit(ids: seq<int>, a: nat, b: nat)
    requires a <= b <= |ids|
    ensures CountOf(ids[..b], LATENT) == CountOf(ids[..a], LATENT) + CountOf(ids[a..b], LATENT)
  {
    assert ids[..b] == ids[..a] + ids[a..b];
    CountConcat(ids[..a], ids[a..b], LATENT);
  }

  /** After the block, the last placeholder is the one that closes the block. */
  lemma LastPlaceholder(s: Sample, i: nat)
    requires s.Valid() && s.End() <= i < |s.Ids()|
    ensures LATENT in s.Ids()[..i + 1] && LastIndex(s.Ids()[..i + 1], LATENT) == s.End() - 1
  {
    Shape(s);
    var seen := s.Ids()[..i + 1];
    assert seen[s.End() - 1] == LATENT;
    assert forall q :: s.End() <= q <= i ==> seen[q] != LATENT;
  }

  lemma PositionInBlock(s: Sample, i: nat)
    requires s.Valid() && s.Start() <= i < s.End() && s.IsRow(i)
    ensures DualTrack(s.Ids(), LATENT, i) == RowsBefore(s, i)
  {
    Shape(s);
    CountInBlock(s, i);
    var seen := s.Ids()[..i + 1];
    assert seen[..i] == s.Ids()[..i] && seen[i] == LATENT;
    assert s.block[..0] == [];
  }

  lemma PositionAfterBlock(s: Sample, i: nat)
    requires s.Valid() && s.End() <= i < |s.Ids()|
    ensures DualTrack(s.Ids(), LATENT, i) == RowsBefore(s, i)
  {
    CountAfterBlock(s, i + 1);
    RowsAfterBlock(s, i);
    LastPlaceholder(s, i);
    StartIsFirst(s);
  }

  lemma StartIsFirst(s: Sample)
    requires s.Valid()
    ensures FirstIndex(s.Ids(), LATENT) == s.Start()
  {
    Shape(s);
  }

  lemma CountAfterBlock(s: Sample, i: nat)
    requires s.Valid() && s.End() < i <= |s.Ids()|
    ensures CountOf(s.Ids()[..i], LATENT) == CountOf(s.block, LATENT)
  {
    CountBefore(s, i);
  }

  lemma RowsAfterBlock(s: Sample, i: nat)
    requires s.Valid() && s.End() <= i
    ensures RowsBefore(s, i) == s.Start() + CountOf(s.block, LATENT) + i - s.End()
  {
    assert s.block[..|s.block|] == s.block;
  }

  /** The dual-track position id of a row is the row's index in the compact sequence. */
  lemma PositionIsCompactIndex(s: Sample, i: nat)
    requires s.Valid() && s.IsRow(i)
    ensures DualTrack(s.Ids(), LATENT, i) == RowsBefore(s, i)
  {
    if i < s.Start() {
      Shape(s);
    } else if i < s.End() {
      PositionInBlock(s, i);
    } else {
      PositionAfterBlock(s, i);
    }
  }

  lemma {:induction false} RankIsRowsBefore(s: Sample, keep: int -> bool, z: nat, i: nat)
    requires s.Valid() && i <= z <= |s.Ids()|
    requires forall j :: 0 <= j < z ==> keep(j) == s.IsRow(j)
    ensures Rank(keep, i) == RowsBefore(s, i)
  {
    if i > 0 {
      RankIsRowsBefore(s, keep, z, i - 1);
      RowsBeforeStep(s, i - 1);
    }
  }

  lemma RowsBeforeStep(s: Sample, i: nat)
    requires s.Valid() && i < |s.Ids()|
    ensures RowsBefore(s, i + 1) == RowsBefore(s, i) + if s.IsRow(i) then 1 else 0
  {
    Shape(s);
    var b := i - s.Start();
    if 0 <= b < |s.block| {
      assert s.block[..b + 1][..b] == s.block[..b];
    } else if b == |s.block| {
      assert s.block[..b] == s.block;
    }
  }

  lemma CompactShape(s: Sample)
    requires s.Valid()
    ensures var a, m, c := s.Start(), CountOf(s.block, LATENT), s.Compact();
            && |c| == a + m + |s.endThink| + |s.suffix|
            && |s.Ids()| == s.End() + |s.endThink| + |s.suffix|
            && (forall q :: 0 <= q < a ==> c[q] == s.Ids()[q])
            && (forall q :: a <= q < a + m ==> c[q] == LATENT)
            && (forall q :: a + m <= q < |c| ==> c[q] == s.Ids()[q - a - m + s.End()])
  {
  }

  /** Text without the token, then c times the token. */
  lemma {:induction false} CountRun(ids: seq<int>, x: int, a: nat, c: nat)
    requires a + c <= |ids|
    requires forall q :: 0 <= q < a ==> ids[q] != x
    requires forall q :: a <= q < a + c ==> ids[q] == x
    ensures CountOf(ids[..a + c], x) == c
  {
    if c == 0 {
      CountAbsent(ids[..a], x);
    } else {
      CountRun(ids, x, a, c - 1);
      assert ids[..a + c][..a + c - 1] == ids[..a + c - 1];
    }
  }

  lemma CompactCount(s: Sample, c: nat)
    requires s.Valid() && c <= CountOf(s.block, LATENT)
    ensures s.Start() + c <= |s.Compact()|
    ensures CountOf(s.Compact()[..s.Start() + c], LATENT) == c
  {
    Shape(s);
    CompactShape(s);
    CountRun(s.Compact(), LATENT, s.Start(), c);
  }

  /** The soft tokens come in order: the c-th placeholder of the compact sequence gets the c-th, and text its own embedding. */
  lemma SoftTokensInOrder<S>(s: Sample, embed: int -> S, soft: nat -> S, c: nat)
    requires s.Valid() && c < CountOf(s.block, LATENT)
    ensures s.Start() + c < |s.Compact()| && Embeddings(s.Compact(), embed, soft)[s.Start() + c] == soft(c)
    ensures forall q :: 0 <= q < |s.Compact()| && !(s.Start() <= q < s.Start() + CountOf(s.block, LATENT)) ==>
              Embeddings(s.Compact(), embed, soft)[q] == embed(s.Compact()[q])
  {
    Shape(s);
    CompactShape(s);
    CompactCount(s, c);
  }

  /** A row's token and input embedding are the ones at its index in the compact sequence. */
  lemma CompactAt<S>(s: Sample, i: nat, embed: int -> S, soft: nat -> S)
    requires s.Valid() && s.IsRow(i)
    ensures RowsBefore(s, i) < |s.Compact()|
    ensures s.Compact()[RowsBefore(s, i)] == s.Ids()[i]
    ensures Embeddings(s.Compact(), embed, soft)[RowsBefore(s, i)] == Embeddings(s.Ids(), embed, soft)[i]
  {
    Shape(s);
    CompactShape(s);
    var a, e := s.Start(), s.End();
    if a <= i < e {
      var c := CountOf(s.block[..i - a], LATENT);
      PlaceholdersLeft(s, i);
      CountBefore(s, i);
      CompactCount(s, c);
    } else if i == e {
      assert s.block[..|s.block|] == s.block;
    }
  }

  lemma PlaceholdersLeft(s: Sample, i: nat)
    requires s.Valid() && s.Start() <= i < s.End() && s.IsRow(i)
    ensures CountOf(s.block[..i - s.Start()], LATENT) < CountOf(s.block, LATENT)
  {
    Shape(s);
    var b := i - s.Start();
    assert s.block[..b + 1][..b] == s.block[..b];
    assert s.block[..|s.block|] == s.block;
    CountPrefixMonotone(s.block, LATENT, b + 1, |s.block|);
  }

  // ---- the mask and the machine ----

  lemma MatchUnpadded(ids: seq<int>, pattern: seq<int>, extra: seq<int>)
    requires |pattern| > 0
    requires FirstMatch(ids, pattern).Some?
    ensures FirstMatch(ids + extra, pattern) == FirstMatch(ids, pattern)
  {
    var p := FirstMatch(ids, pattern).value;
    forall q | 0 <= q <= p
      ensures MatchesAt(ids + extra, pattern, q) == MatchesAt(ids, pattern, q)
    {
      MatchExtended(ids, pattern, extra, q, p);
    }
  }

  lemma MatchExtended(ids: seq<int>, pattern: seq<int>, extra: seq<int>, q: nat, p: nat)
    requires q <= p <= |ids| - |pattern|
    ensures MatchesAt(ids + extra, pattern, q) == MatchesAt(ids, pattern, q)
  {
    var more := ids + extra;
    assert forall t :: 0 <= t < |ids| ==> more[t] == ids[t];
  }

  lemma FirstIndexUnpadded(ids: seq<int>, extra: seq<int>, x: int)
    requires x in ids
    ensures FirstIndex(ids + extra, x) == FirstIndex(ids, x)
  {
    var f := FirstIndex(ids, x);
    assert (ids + extra)[f] == x;
    assert forall q :: 0 <= q < f ==> (ids + extra)[q] == ids[q];
  }

  /** The rows of the compact sequence that are not padding. */
  predicate Kept(s: Sample, pad: int, j: int) {
    s.IsRow(j) && s.Ids()[j] != pad
  }

  /** The same rows by their index in the compact sequence. */
  function KeptCompact(s: Sample, pad: int): int -> bool {
    (c: int) => 0 <= c < |s.Compact()| && s.Compact()[c] != pad
  }

  /** When the placed end marker is the first match, the kept rows see exactly the kept rows up to themselves. */
  lemma MaskIsFaithful(s: Sample, pad: int, padding: nat)
    requires s.Valid() && pad != LATENT
    requires FirstMatch(s.Ids(), s.endThink) == Some(s.End())
    ensures var ids := PadIds(s.Ids(), pad, padding);
            Faithful(DecoderMask(ids, s.endThink, pad), (j: int) => Kept(s, pad, j), |ids|)
  {
    var ids := PadIds(s.Ids(), pad, padding);
    PaddedShape(s, pad, padding);
    forall i, j | 0 <= i < |ids| && 0 <= j < |ids| && Kept(s, pad, i)
      ensures Visible(ids, LATENT, Some(s.End()), Some(pad), i, j) == (Kept(s, pad, j) && j <= i)
    {
      KeptCell(s, pad, ids, i, j);
    }
  }

  lemma KeptCell(s: Sample, pad: int, ids: seq<int>, i: nat, j: nat)
    requires s.Valid() && pad != LATENT && s.Ids() <= ids && i < |ids| && j < |ids|
    requires forall q :: |s.Ids()| <= q < |ids| ==> ids[q] == pad
    requires FirstIndex(ids, LATENT) == s.Start() && Kept(s, pad, i)
    ensures Visible(ids, LATENT, Some(s.End()), Some(pad), i, j) == (Kept(s, pad, j) && j <= i)
  {
    RowRule(s, ids, i, j);
    assert s.Ids() == ids[..|s.Ids()|];
  }

  lemma PaddedShape(s: Sample, pad: int, padding: nat)
    requires s.Valid() && pad != LATENT
    requires FirstMatch(s.Ids(), s.endThink) == Some(s.End())
    ensures var ids := PadIds(s.Ids(), pad, padding);
            && s.Ids() <= ids
            && (forall q :: 0 <= q < |s.Ids()| ==> ids[q] == s.Ids()[q])
            && (forall q :: |s.Ids()| <= q < |ids| ==> ids[q] == pad)
            && FirstIndex(ids, LATENT) == s.Start()
            && LatentPos(ids, s.endThink) == Some(s.End())
  {
    Shape(s);
    var extra := seq(padding, i => pad);
    MatchUnpadded(s.Ids(), s.endThink, extra);
    assert s.Ids()[s.Start()] == LATENT;
    FirstIndexUnpadded(s.Ids(), extra, LATENT);
  }

  lemma RowRule(s: Sample, ids: seq<int>, i: int, j: int)
    requires s.Valid() && s.Ids() <= ids && 0 <= j < |ids|
    requires forall q :: |s.Ids()| <= q < |ids| ==> ids[q] != LATENT
    requires FirstIndex(ids, LATENT) == s.Start()
    requires s.IsRow(i)
    ensures Rule(ids, LATENT, Some(s.End()), i, j) == (s.IsRow(j) && j <= i)
  {
    Shape(s);
    assert forall q :: 0 <= q < |s.Ids()| ==> ids[q] == s.Ids()[q];
    assert !InWindow(ids, LATENT, Some(s.End()), i, j);
  }

  lemma EmbeddingUnpadded<S>(ids: seq<int>, pad: int, padding: nat, embed: int -> S, soft: nat -> S, j: nat)
    requires j < |ids|
    ensures Embeddings(PadIds(ids, pad, padding), embed, soft)[j] == Embeddings(ids, embed, soft)[j]
  {
    assert PadIds(ids, pad, padding)[..j] == ids[..j];
  }

  /** A row has the position, the input embedding and the token of its index in the compact sequence. */
  lemma RowInput<S>(s: Sample, pad: int, padding: nat, padding': nat, embed: int -> S, soft: nat -> S, j: nat)
    requires s.Valid() && s.IsRow(j)
    ensures var k := Rank((i: int) => s.IsRow(i), j);
            && k == DualTrack(s.Ids(), LATENT, j) < |s.Compact()| && s.Compact()[k] == s.Ids()[j]
            && Embeddings(PadIds(s.Compact(), pad, padding'), embed, soft)[k]
               == Embeddings(PadIds(s.Ids(), pad, padding), embed, soft)[j]
  {
    RankIsRowsBefore(s, (i: int) => s.IsRow(i), |s.Ids()|, j);
    PositionIsCompactIndex(s, j);
    CompactAt(s, j, embed, soft);
    EmbeddingUnpadded(s.Ids(), pad, padding, embed, soft, j);
    EmbeddingUnpadded(s.Compact(), pad, padding', embed, soft, RowsBefore(s, j));
  }

  /** The compact sequence has as many rows as the training sequence. */
  lemma RowCount(s: Sample, n: nat)
    requires s.Valid() && |s.Ids()| <= n
    ensures Rank((i: int) => s.IsRow(i), n) == |s.Compact()|
  {
    var rows := (i: int) => s.IsRow(i);
    RankBeyond(rows, |s.Ids()|, n);
    RankIsRowsBefore(s, rows, |s.Ids()|, |s.Ids()|);
    RowsAfterBlock(s, |s.Ids()|);
    CompactShape(s);
  }

  /** Positions and embeddings of the training rows, and those of the compact sequence. */
  lemma InputsThrough<S>(s: Sample, pad: int, padding: nat, padding': nat, embed: int -> S, soft: nat -> S)
    requires s.Valid() && pad != LATENT
    ensures var ids, compact := PadIds(s.Ids(), pad, padding), PadIds(s.Compact(), pad, padding');
            var rows, keep := (j: int) => s.IsRow(j), (j: int) => Kept(s, pad, j);
            var keep' := KeptCompact(s, pad);
            && Through(rows, keep, PadPositions(DualTrackIds(s.Ids(), LATENT), padding), keep', seq(|compact|, c => c))
            && Through(rows, keep, Embeddings(ids, embed, soft), keep', Embeddings(compact, embed, soft))
  {
    forall j | 0 <= j < |PadIds(s.Ids(), pad, padding)| && s.IsRow(j)
      ensures var k := Rank((i: int) => s.IsRow(i), j);
              && k == DualTrack(s.Ids(), LATENT, j) < |s.Compact()| && s.Compact()[k] == s.Ids()[j]
              && Embeddings(PadIds(s.Compact(), pad, padding'), embed, soft)[k]
                 == Embeddings(PadIds(s.Ids(), pad, padding), embed, soft)[j]
    {
      RowInput(s, pad, padding, padding', embed, soft, j);
    }
  }

  lemma PadMaskIsFaithful(s: Sample, pad: int, padding: nat)
    ensures Faithful(PadMask(PadIds(s.Compact(), pad, padding), pad), KeptCompact(s, pad), |PadIds(s.Compact(), pad, padding)|)
  {
  }

  /** The states agree: row i of the training sequence has the state that the other run has at its position id. */
  ghost predicate Agrees<S>(s: Sample, training: seq<S>, i: nat, other: seq<S>)
    requires i < |s.Ids()|
  {
    var p := DualTrack(s.Ids(), LATENT, i);
    i < |training| && 0 <= p < |other| && training[i] == other[p]
  }

  /**
   The main result.  For every row that is not itself padding, the state after any number of layers is the state that
   the compact sequence has at the row's dual-track position under the mask of Stage 2 and validation.
   */
  lemma SpacersAreInvisible<S>(depth: nat, step: Step<S>, s: Sample, pad: int, padding: nat, padding': nat,
                               embed: int -> S, soft: nat -> S, i: nat)
    requires s.Valid() && pad != LATENT
    requires FirstMatch(s.Ids(), s.endThink) == Some(s.End())
    requires s.IsRow(i) && s.Ids()[i] != pad
    ensures Agrees(s, TrainingRun(depth, step, s, pad, padding, embed, soft), i,
                   MaskedRun(depth, step, s.Compact(), pad, padding', embed, soft))
  {
    var rows, keep := (j: int) => s.IsRow(j), (j: int) => Kept(s, pad, j);
    var keep' := KeptCompact(s, pad);
    var ids, compact := PadIds(s.Ids(), pad, padding), PadIds(s.Compact(), pad, padding');
    var pos, init := PadPositions(DualTrackIds(s.Ids(), LATENT), padding), Embeddings(ids, embed, soft);
    var pos', init' := seq(|compact|, c => c), Embeddings(compact, embed, soft);
    InputsThrough(s, pad, padding, padding', embed, soft);
    RowCount(s, |ids|);
    PicksAgree(rows, keep, pos, keep', pos', |s.Compact()|);
    PicksAgree(rows, keep, init, keep', init', |s.Compact()|);
    MaskIsFaithful(s, pad, padding);
    PadMaskIsFaithful(s, pad, padding');
    Simulation(depth, step, DecoderMask(ids, s.endThink, pad), keep, pos, init);
    Simulation(depth, step, PadMask(compact, pad), keep', pos', init');
    RowInput(s, pad, padding, padding', embed, soft, i);
    RankThrough(rows, keep, pos, keep', pos', i);
    PickAt(keep, Run(depth, step, DecoderMask(ids, s.endThink, pad), pos, init), i);
    PickAt(keep', Run(depth, step, PadMask(compact, pad), pos', init'), Rank(rows, i));
  }

  /** Where no token up to row p is padding, hiding the pad token makes no difference to that row. */
  lemma PlainUpTo<S>(depth: nat, step: Step<S>, ids: seq<int>, pad: int, embed: int -> S, soft: nat -> S, p: nat)
    requires p < |ids| && forall c :: 0 <= c <= p ==> ids[c] != pad
    ensures |MaskedRun(depth, step, ids, pad, 0, embed, soft)| == |PlainRun(depth, step, ids, embed, soft)| == |ids|
    ensures MaskedRun(depth, step, ids, pad, 0, embed, soft)[p] == PlainRun(depth, step, ids, embed, soft)[p]
  {
    assert PadIds(ids, pad, 0) == ids;
    var pos, init, first := seq(|ids|, i => i), Embeddings(ids, embed, soft), (c: int) => c < p + 1;
    Simulation(depth, step, PadMask(ids, pad), first, pos, init);
    PickBelow(first, pos, p + 1);
    PickBelow(first, init, p + 1);
    PickBelow(first, Run(depth, step, PadMask(ids, pad), pos, init), p + 1);
    CausalPrefix(depth, step, pos, init, p + 1);
    assert Run(depth, step, PadMask(ids, pad), pos, init)[..p + 1][p] == Run(depth, step, Causal(), pos, init)[..p + 1][p];
  }

  /** Without padding up to the row, it is also the state of a plain causal run over the compact sequence. */
  lemma SpacersAreInvisiblePlain<S>(depth: nat, step: Step<S>, s: Sample, pad: int, padding: nat, embed: int -> S, soft: nat -> S, i: nat)
    requires s.Valid() && pad != LATENT
    requires FirstMatch(s.Ids(), s.endThink) == Some(s.End())
    requires s.IsRow(i)
    requires forall j :: 0 <= j <= i && s.IsRow(j) ==> s.Ids()[j] != pad
    ensures Agrees(s, TrainingRun(depth, step, s, pad, padding, embed, soft), i, PlainRun(depth, step, s.Compact(), embed, soft))
  {
    SpacersAreInvisible(depth, step, s, pad, padding, 0, embed, soft, i);
    var p := DualTrack(s.Ids(), LATENT, i);
    forall c | 0 <= c <= p
      ensures s.Compact()[c] != pad
    {
      CompactTokenUpTo(s, i, c);
    }
    PlainUpTo(depth, step, s.Compact(), pad, embed, soft, p);
  }

  /** A compact token up to the index of row i is the token of a row up to i. */
  lemma CompactTokenUpTo(s: Sample, i: nat, c: nat)
    requires s.Valid() && s.IsRow(i) && c <= DualTrack(s.Ids(), LATENT, i)
    ensures c < |s.Compact()| && exists j :: 0 <= j <= i && s.IsRow(j) && s.Ids()[j] == s.Compact()[c]
  {
    RowInput(s, 0, 0, 0, (x: int) => 0, (k: nat) => 0, i);
    var j := EveryCompactRowIsReached(s, c);
    RowInput(s, 0, 0, 0, (x: int) => 0, (k: nat) => 0, j);
    if j > i {
      RankMonotone((k: int) => s.IsRow(k), i, j);
    }
  }

  /**
   The same for the sequence that Stage 1 builds from a reasoning text: the compact sequence is then
   the one that validation and Stage 2 build, with one placeholder for every k tokens of text.
   */
  lemma StageOneMatchesCompact<S>(depth: nat, step: Step<S>, s: Sample, content: seq<int>, k: nat, pad: int,
                                  padding: nat, padding': nat, embed: int -> S, soft: nat -> S, i: nat)
    requires k > 0 && content != [] && pad != LATENT && |s.endThink| > 0
    requires LATENT !in content && LATENT !in s.prefix && LATENT !in s.think && LATENT !in s.endThink && LATENT !in s.suffix
    requires LatentBlock(content, k) == Success(s.block)
    requires FirstMatch(s.Ids(), s.endThink) == Some(s.End())
    requires s.IsRow(i) && s.Ids()[i] != pad
    ensures var compact := CompactIds(s.prefix, s.think, Blocks(|content|, k), s.endThink, s.suffix);
            Agrees(s, TrainingRun(depth, step, s, pad, padding, embed, soft), i,
                   MaskedRun(depth, step, compact, pad, padding', embed, soft))
  {
    LatentBlockShape(content, k);
    SpacersAreInvisible(depth, step, s, pad, padding, padding', embed, soft, i);
  }

  /** Every row of the compact sequence is the row of exactly one index of the training sequence. */
  lemma EveryCompactRowIsReached(s: Sample, c: nat) returns (i: nat)
    requires s.Valid() && c < |s.Compact()|
    ensures s.IsRow(i) && DualTrack(s.Ids(), LATENT, i) == c
    ensures forall j: nat :: s.IsRow(j) && DualTrack(s.Ids(), LATENT, j) == c ==> j == i
  {
    var n := |s.Ids()|;
    var keep := (j: int) => s.IsRow(j);
    CompactShape(s);
    RankIsRowsBefore(s, keep, n, n);
    assert s.block[..|s.block|] == s.block;
    PickLength(keep, s.Ids());
    i := PickSource(keep, s.Ids(), c);
    RankIsRowsBefore(s, keep, n, i);
    PositionIsCompactIndex(s, i);
    forall j: nat | s.IsRow(j) && DualTrack(s.Ids(), LATENT, j) == c
      ensures j == i
    {
      RankIsRowsBefore(s, keep, n, j);
      PositionIsCompactIndex(s, j);
      if i < j {
        RankMonotone(keep, i, j);
      } else if j < i {
        RankMonotone(keep, j, i);
      }
    }
  }

  // ---- exactly when ----

  /**
   The rows see exactly the rows up to themselves if and only if the placed end marker is the first
   match: an earlier match lets a row see a placeholder or a text token that it must not see.
   */
  lemma MaskExactlyWhen(s: Sample)
    requires s.Valid()
    ensures FirstMatch(s.Ids(), s.endThink).Some?
    ensures (forall i, j :: s.IsRow(i) && 0 <= j < |s.Ids()| ==>
               Rule(s.Ids(), LATENT, FirstMatch(s.Ids(), s.endThink), i, j) == (s.IsRow(j) && j <= i))
       <==> FirstMatch(s.Ids(), s.endThink) == Some(s.End())
  {
    Shape(s);
    var ids := s.Ids();
    assert MatchesAt(ids, s.endThink, s.End());
    var latentPos := FirstMatch(ids, s.endThink);
    var p := latentPos.value;
    if p == s.End() {
      forall i, j | s.IsRow(i) && 0 <= j < |ids|
        ensures Rule(ids, LATENT, latentPos, i, j) == (s.IsRow(j) && j <= i)
      {
        RowRule(s, ids, i, j);
      }
    } else if p < s.Start() {
      assert Rule(ids, LATENT, latentPos, p, s.End() - 1);
    } else {
      assert ids[p..p + |s.endThink|][0] == ids[p] == s.endThink[0];
      assert Rule(ids, LATENT, latentPos, |ids| - 1, p) && !s.IsRow(p);
    }
  }

  /** After one counting layer a training row holds the number of columns that it sees. */
  lemma TrainingCount(s: Sample, pad: int, padding: nat, embed: int -> nat, soft: nat -> nat, i: nat)
    requires i < |s.Ids()|
    ensures var ids := PadIds(s.Ids(), pad, padding);
            && i < |TrainingRun(1, CountSeen(), s, pad, padding, embed, soft)|
            && TrainingRun(1, CountSeen(), s, pad, padding, embed, soft)[i]
               == Rank(Seen(DecoderMask(ids, s.endThink, pad), i), |ids|)
  {
    var ids := PadIds(s.Ids(), pad, padding);
    CountedRow(DecoderMask(ids, s.endThink, pad), PadPositions(DualTrackIds(s.Ids(), LATENT), padding),
               Embeddings(ids, embed, soft), i);
  }

  lemma PlainCount(ids: seq<int>, embed: int -> nat, soft: nat -> nat, p: nat)
    requires p < |ids|
    ensures |PlainRun(1, CountSeen(), ids, embed, soft)| == |ids|
    ensures PlainRun(1, CountSeen(), ids, embed, soft)[p] == p + 1
  {
    CountedRow(Causal(), seq(|ids|, i => i), Embeddings(ids, embed, soft), p);
    RankCausal(p, |ids|);
  }

  function UpTo(s: Sample, i: nat): int -> bool {
    (j: int) => s.IsRow(j) && j <= i
  }

  function KeptUpTo(s: Sample, pad: int, i: nat): int -> bool {
    (j: int) => Kept(s, pad, j) && j <= i
  }

  /** The rows up to row i are as many as its position id says. */
  lemma RowsUpTo(s: Sample, i: nat, n: nat)
    requires s.Valid() && s.IsRow(i) && i < n
    ensures Rank(UpTo(s, i), n) == DualTrack(s.Ids(), LATENT, i) + 1
  {
    RankBeyond(UpTo(s, i), i + 1, n);
    RankToRow((j: int) => s.IsRow(j), UpTo(s, i), i);
    RowRank(s, i);
  }

  lemma RowRank(s: Sample, i: nat)
    requires s.Valid() && s.IsRow(i)
    ensures Rank((j: int) => s.IsRow(j), i) == DualTrack(s.Ids(), LATENT, i)
  {
    RankIsRowsBefore(s, (j: int) => s.IsRow(j), |s.Ids()|, i);
    PositionIsCompactIndex(s, i);
  }

  /** With an earlier match, this row sees all rows up to itself and a further column. */
  function Witness(s: Sample): nat
    requires s.Valid() && FirstMatch(s.Ids(), s.endThink).Some?
  {
    var p := FirstMatch(s.Ids(), s.endThink).value;
    if p < s.Start() then p else s.End()
  }

  /** The end marker matches before the placed one, and its first token is not the pad token. */
  ghost predicate MatchesEarly(s: Sample, pad: int) {
    && s.Valid() && pad != LATENT && pad != s.endThink[0]
    && FirstMatch(s.Ids(), s.endThink).Some? && FirstMatch(s.Ids(), s.endThink) != Some(s.End())
  }

  /** With the same first match in the padded sequence, what is visible among the real tokens is the rule. */
  lemma VisibleIsRule(s: Sample, pad: int, padding: nat, i: nat, j: nat)
    requires s.Valid() && i < |s.Ids()| && j < |s.Ids()| && s.Ids()[i] != pad && s.Ids()[j] != pad
    requires FirstMatch(s.Ids(), s.endThink).Some?
    ensures Rule(PadIds(s.Ids(), pad, padding), LATENT, FirstMatch(s.Ids(), s.endThink), i, j) ==>
              DecoderMask(PadIds(s.Ids(), pad, padding), s.endThink, pad)(i, j)
  {
    MatchUnpadded(s.Ids(), s.endThink, seq(padding, k => pad));
  }

  lemma StartUnpadded(s: Sample, pad: int, padding: nat)
    requires s.Valid()
    ensures FirstIndex(PadIds(s.Ids(), pad, padding), LATENT) == s.Start()
  {
    Shape(s);
    assert s.Ids()[s.Start()] == LATENT;
    FirstIndexUnpadded(s.Ids(), seq(padding, k => pad), LATENT);
  }

  lemma WitnessIsKept(s: Sample, pad: int)
    requires MatchesEarly(s, pad)
    ensures Kept(s, pad, Witness(s)) && s.Ids()[Witness(s)] == s.endThink[0]
    ensures FirstMatch(s.Ids(), s.endThink).value <= Witness(s)
  {
    Shape(s);
    MatchIsNotBehind(s);
    var p := FirstMatch(s.Ids(), s.endThink).value;
    assert s.Ids()[p + 0] == s.endThink[0] == s.Ids()[s.End() + 0];
  }

  /** The witness row sees every row up to itself that is not padding. */
  lemma WitnessSeesRows(s: Sample, pad: int, padding: nat, j: nat)
    requires MatchesEarly(s, pad) && Kept(s, pad, j) && j <= Witness(s)
    ensures DecoderMask(PadIds(s.Ids(), pad, padding), s.endThink, pad)(Witness(s), j)
  {
    Shape(s);
    WitnessIsKept(s, pad);
    StartUnpadded(s, pad, padding);
    VisibleIsRule(s, pad, padding, Witness(s), j);
  }

  /** And one column more: a placeholder behind it, or the text token at the match. */
  lemma WitnessSeesMore(s: Sample, pad: int, padding: nat) returns (j: nat)
    requires MatchesEarly(s, pad)
    ensures j < |s.Ids()| && !KeptUpTo(s, pad, Witness(s))(j)
    ensures DecoderMask(PadIds(s.Ids(), pad, padding), s.endThink, pad)(Witness(s), j)
  {
    Shape(s);
    WitnessIsKept(s, pad);
    var p := FirstMatch(s.Ids(), s.endThink).value;
    j := if p < s.Start() then s.End() - 1 else p;
    assert s.Ids()[p + 0] == s.endThink[0];
    VisibleIsRule(s, pad, padding, Witness(s), j);
  }

  /** The placed end marker is a match, so the first one is not behind it. */
  lemma MatchIsNotBehind(s: Sample)
    requires s.Valid()
    ensures FirstMatch(s.Ids(), s.endThink).Some? && FirstMatch(s.Ids(), s.endThink).value <= s.End()
  {
    assert forall k :: 0 <= k < |s.endThink| ==> s.Ids()[s.End() + k] == s.endThink[k];
    assert MatchesAt(s.Ids(), s.endThink, s.End());
  }

  /** The witness row sees more columns than there are rows up to it that are not padding. */
  lemma WitnessCount(s: Sample, pad: int, padding: nat)
    requires MatchesEarly(s, pad)
    ensures var ids := PadIds(s.Ids(), pad, padding);
            Rank(Seen(DecoderMask(ids, s.endThink, pad), Witness(s)), |ids|) > Rank(KeptUpTo(s, pad, Witness(s)), |ids|)
  {
    var ids, i := PadIds(s.Ids(), pad, padding), Witness(s);
    var seen := Seen(DecoderMask(ids, s.endThink, pad), i);
    var more := WitnessSeesMore(s, pad, padding);
    forall j | 0 <= j < |ids| && KeptUpTo(s, pad, i)(j)
      ensures seen(j)
    {
      WitnessSeesRows(s, pad, padding, j);
    }
    assert seen(more);
    RankOrder(KeptUpTo(s, pad, i), seen, |ids|);
  }

  /** In the compact run a row that is not padding sees the rows up to it that are not padding. */
  lemma CompactSees(s: Sample, pad: int, padding: nat, i: nat, n: nat)
    requires s.Valid() && pad != LATENT && s.IsRow(i) && i < n
    ensures var compact := PadIds(s.Compact(), pad, padding);
            Rank(Seen(PadMask(compact, pad), DualTrack(s.Ids(), LATENT, i)), |compact|) == Rank(KeptUpTo(s, pad, i), n)
  {
    var compact, p := PadIds(s.Compact(), pad, padding), DualTrack(s.Ids(), LATENT, i);
    RowInput(s, pad, 0, padding, (x: int) => 0, (k: nat) => 0, i);
    RankBeyond(KeptUpTo(s, pad, i), i + 1, n);
    KeptRank(s, pad, i);
    PrefixSeen(compact, pad, p, KeptCompact(s, pad));
  }

  lemma PrefixSeen(ids: seq<int>, pad: int, p: nat, kept: int -> bool)
    requires p < |ids| && forall c :: 0 <= c <= p ==> kept(c) == (ids[c] != pad)
    ensures Rank(Seen(PadMask(ids, pad), p), |ids|) == Rank(kept, p + 1)
  {
    RankBeyond(Seen(PadMask(ids, pad), p), p + 1, |ids|);
    SameRank(Seen(PadMask(ids, pad), p), kept, p + 1);
  }

  lemma KeptRank(s: Sample, pad: int, i: nat)
    requires s.Valid() && pad != LATENT && s.IsRow(i)
    ensures Rank(KeptUpTo(s, pad, i), i + 1) == Rank(KeptCompact(s, pad), DualTrack(s.Ids(), LATENT, i) + 1)
  {
    InputsThrough(s, pad, 0, 0, (x: int) => 0, (k: nat) => 0);
    RowRank(s, i);
    RankUpTo((j: int) => s.IsRow(j), (j: int) => Kept(s, pad, j), PadPositions(DualTrackIds(s.Ids(), LATENT), 0),
             KeptCompact(s, pad), seq(|PadIds(s.Compact(), pad, 0)|, c => c), i, KeptUpTo(s, pad, i));
  }

  /** An earlier match changes the state of the witness row after one counting layer. */
  lemma EarlyMatchChangesState(s: Sample, pad: int, padding: nat, padding': nat, embed: int -> nat, soft: nat -> nat)
    requires MatchesEarly(s, pad)
    ensures Kept(s, pad, Witness(s))
    ensures !Agrees(s, TrainingRun(1, CountSeen(), s, pad, padding, embed, soft), Witness(s),
                    MaskedRun(1, CountSeen(), s.Compact(), pad, padding', embed, soft))
  {
    var compact, i := PadIds(s.Compact(), pad, padding'), Witness(s);
    WitnessIsKept(s, pad);
    WitnessCount(s, pad, padding);
    TrainingCount(s, pad, padding, embed, soft, i);
    RowInput(s, pad, padding, padding', embed, soft, i);
    CompactSees(s, pad, padding', i, |PadIds(s.Ids(), pad, padding)|);
    CountedRow(PadMask(compact, pad), seq(|compact|, c => c), Embeddings(compact, embed, soft), DualTrack(s.Ids(), LATENT, i));
  }

  /**
   The states of all rows that are not padding are those of the compact run that hides padding, for every depth, every
   attention function and all embeddings, if and only if the placed end marker is the first match.
   */
  lemma MatchExactlyWhen(s: Sample, pad: int, padding: nat, padding': nat)
    requires s.Valid() && pad != LATENT && pad != s.endThink[0]
    ensures (forall depth: nat, step: Step<nat>, embed: int -> nat, soft: nat -> nat, i: nat :: Kept(s, pad, i) ==>
               Agrees(s, TrainingRun(depth, step, s, pad, padding, embed, soft), i,
                      MaskedRun(depth, step, s.Compact(), pad, padding', embed, soft)))
       <==> FirstMatch(s.Ids(), s.endThink) == Some(s.End())
  {
    MatchIsNotBehind(s);
    if FirstMatch(s.Ids(), s.endThink) == Some(s.End()) {
      forall depth: nat, step: Step<nat>, embed: int -> nat, soft: nat -> nat, i: nat | Kept(s, pad, i)
        ensures Agrees(s, TrainingRun(depth, step, s, pad, padding, embed, soft), i,
                       MaskedRun(depth, step, s.Compact(), pad, padding', embed, soft))
      {
        SpacersAreInvisible(depth, step, s, pad, padding, padding', embed, soft, i);
      }
    } else {
      EarlyMatchChangesState(s, pad, padding, padding', (x: int) => 0, (k: nat) => 0);
    }
  }

  /**
   A sample whose end marker occurs in the prefix, and whose suffix ends in the pad token: its first row ends up in a
   different state.
   */
  lemma EarlyMatch() returns (s: Sample)
    ensures s.Valid() && FirstMatch(s.Ids(), s.endThink) == Some(0) && s.IsRow(0) && 4 in s.Ids()
    ensures !Agrees(s, TrainingRun(1, CountSeen(), s, 4, 0, (x: int) => 0, (k: nat) => 0), 0,
                    MaskedRun(1, CountSeen(), s.Compact(), 4, 0, (x: int) => 0, (k: nat) => 0))
  {
    s := Sample([3], [2], [LATENT, 5, LATENT], [3], [4]);
    assert s.Ids() == [3, 2, LATENT, 5, LATENT, 3, 4];
    assert MatchesAt(s.Ids(), s.endThink, 0);
    EarlyMatchChangesState(s, 4, 0, 0, (x: int) => 0, (k: nat) => 0);
  }

  // ---- exactly when, with padding ----

  /** The number of rows that row i sees: the rows up to it that are not padding, or none when it is padding itself. */
  lemma PaddedCount(s: Sample, pad: int, padding: nat, embed: int -> nat, soft: nat -> nat, i: nat)
    requires s.Valid() && pad != LATENT && s.IsRow(i)
    requires FirstMatch(s.Ids(), s.endThink) == Some(s.End())
    ensures var n := |PadIds(s.Ids(), pad, padding)|;
            && i < |TrainingRun(1, CountSeen(), s, pad, padding, embed, soft)|
            && TrainingRun(1, CountSeen(), s, pad, padding, embed, soft)[i]
               == if s.Ids()[i] == pad then 0 else Rank(KeptUpTo(s, pad, i), n)
  {
    TrainingCount(s, pad, padding, embed, soft, i);
    if s.Ids()[i] == pad {
      PadSeesNothing(s, pad, padding, i);
    } else {
      RowSeesKept(s, pad, padding, i);
    }
  }

  lemma PadSeesNothing(s: Sample, pad: int, padding: nat, i: nat)
    requires i < |s.Ids()| && s.Ids()[i] == pad
    ensures var ids := PadIds(s.Ids(), pad, padding);
            Rank(Seen(DecoderMask(ids, s.endThink, pad), i), |ids|) == 0
  {
    var ids := PadIds(s.Ids(), pad, padding);
    RankNone(Seen(DecoderMask(ids, s.endThink, pad), i), |ids|);
  }

  lemma RowSeesKept(s: Sample, pad: int, padding: nat, i: nat)
    requires s.Valid() && pad != LATENT && Kept(s, pad, i)
    requires FirstMatch(s.Ids(), s.endThink) == Some(s.End())
    ensures var ids := PadIds(s.Ids(), pad, padding);
            Rank(Seen(DecoderMask(ids, s.endThink, pad), i), |ids|) == Rank(KeptUpTo(s, pad, i), |ids|)
  {
    var ids := PadIds(s.Ids(), pad, padding);
    MaskIsFaithful(s, pad, padding);
    FaithfulRank(DecoderMask(ids, s.endThink, pad), (j: int) => Kept(s, pad, j), |ids|, i, KeptUpTo(s, pad, i));
  }

  /**
   With the placed end marker first, row i has the state of the plain compact run, for every depth, every attention
   function and all embeddings, if and only if no row up to it is padding.
   */
  lemma PlainExactlyWhen(s: Sample, pad: int, padding: nat, i: nat)
    requires s.Valid() && pad != LATENT && s.IsRow(i)
    requires FirstMatch(s.Ids(), s.endThink) == Some(s.End())
    ensures (forall depth: nat, step: Step<nat>, embed: int -> nat, soft: nat -> nat ::
               Agrees(s, TrainingRun(depth, step, s, pad, padding, embed, soft), i, PlainRun(depth, step, s.Compact(), embed, soft)))
       <==> forall j :: 0 <= j <= i && s.IsRow(j) ==> s.Ids()[j] != pad
  {
    if forall j :: 0 <= j <= i && s.IsRow(j) ==> s.Ids()[j] != pad {
      forall depth: nat, step: Step<nat>, embed: int -> nat, soft: nat -> nat
        ensures Agrees(s, TrainingRun(depth, step, s, pad, padding, embed, soft), i, PlainRun(depth, step, s.Compact(), embed, soft))
      {
        SpacersAreInvisiblePlain(depth, step, s, pad, padding, embed, soft, i);
      }
    } else {
      PaddingChangesPlainState(s, pad, padding, (x: int) => 0, (k: nat) => 0, i);
    }
  }

  lemma PaddingChangesPlainState(s: Sample, pad: int, padding: nat, embed: int -> nat, soft: nat -> nat, i: nat)
    requires s.Valid() && pad != LATENT && s.IsRow(i)
    requires FirstMatch(s.Ids(), s.endThink) == Some(s.End())
    requires exists j :: 0 <= j <= i && s.IsRow(j) && s.Ids()[j] == pad
    ensures !Agrees(s, TrainingRun(1, CountSeen(), s, pad, padding, embed, soft), i, PlainRun(1, CountSeen(), s.Compact(), embed, soft))
  {
    var n := |PadIds(s.Ids(), pad, padding)|;
    PaddedCount(s, pad, padding, embed, soft, i);
    RowInput(s, pad, padding, 0, embed, soft, i);
    PlainCount(s.Compact(), embed, soft, DualTrack(s.Ids(), LATENT, i));
    RowsUpTo(s, i, n);
    var j :| 0 <= j <= i && s.IsRow(j) && s.Ids()[j] == pad;
    assert UpTo(s, i)(j) && !KeptUpTo(s, pad, i)(j);
    RankOrder(KeptUpTo(s, pad, i), UpTo(s, i), n);
  }

  /** The row sees nothing in either run: it is padding and so is every row before it. */
  predicate Alone(s: Sample, pad: int, i: nat)
    requires i < |s.Ids()|
  {
    forall j :: 0 <= j <= i && s.IsRow(j) ==> s.Ids()[j] == pad
  }

  /**
   With the placed end marker first, row i has the state of the compact run that hides padding, for every depth, every
   attention function and all embeddings, if and only if it is not padding or nothing but padding comes before it.
   */
  lemma PadExactlyWhen(s: Sample, pad: int, padding: nat, padding': nat, i: nat)
    requires s.Valid() && pad != LATENT && s.IsRow(i)
    requires FirstMatch(s.Ids(), s.endThink) == Some(s.End())
    ensures (forall depth: nat, step: Step<nat>, embed: int -> nat, soft: nat -> nat ::
               Agrees(s, TrainingRun(depth, step, s, pad, padding, embed, soft), i,
                      MaskedRun(depth, step, s.Compact(), pad, padding', embed, soft)))
       <==> s.Ids()[i] != pad || Alone(s, pad, i)
  {
    if s.Ids()[i] != pad || Alone(s, pad, i) {
      forall depth: nat, step: Step<nat>, embed: int -> nat, soft: nat -> nat
        ensures Agrees(s, TrainingRun(depth, step, s, pad, padding, embed, soft), i,
                       MaskedRun(depth, step, s.Compact(), pad, padding', embed, soft))
      {
        PadRowAgrees(depth, step, s, pad, padding, padding', embed, soft, i);
      }
    } else {
      PadRowDiffers(s, pad, padding, padding', (x: int) => 0, (k: nat) => 0, i);
    }
  }

  lemma PadRowAgrees<S>(depth: nat, step: Step<S>, s: Sample, pad: int, padding: nat, padding': nat,
                        embed: int -> S, soft: nat -> S, i: nat)
    requires s.Valid() && pad != LATENT && s.IsRow(i)
    requires FirstMatch(s.Ids(), s.endThink) == Some(s.End())
    requires s.Ids()[i] != pad || Alone(s, pad, i)
    ensures Agrees(s, TrainingRun(depth, step, s, pad, padding, embed, soft), i,
                   MaskedRun(depth, step, s.Compact(), pad, padding', embed, soft))
  {
    if s.Ids()[i] != pad {
      SpacersAreInvisible(depth, step, s, pad, padding, padding', embed, soft, i);
    } else {
      AloneAgrees(depth, step, s, pad, padding, padding', embed, soft, i);
    }
  }

  lemma AloneAgrees<S>(depth: nat, step: Step<S>, s: Sample, pad: int, padding: nat, padding': nat,
                       embed: int -> S, soft: nat -> S, i: nat)
    requires s.Valid() && pad != LATENT && s.IsRow(i)
    requires FirstMatch(s.Ids(), s.endThink) == Some(s.End())
    requires s.Ids()[i] == pad && Alone(s, pad, i)
    ensures Agrees(s, TrainingRun(depth, step, s, pad, padding, embed, soft), i,
                   MaskedRun(depth, step, s.Compact(), pad, padding', embed, soft))
  {
    var ids, compact := PadIds(s.Ids(), pad, padding), PadIds(s.Compact(), pad, padding');
    var p := DualTrack(s.Ids(), LATENT, i);
    PaddedShape(s, pad, padding);
    RowInput(s, pad, padding, padding', embed, soft, i);
    forall c | 0 <= c <= p
      ensures compact[c] == pad
    {
      CompactTokenUpTo(s, i, c);
    }
    LonelyRow(depth, step, DecoderMask(ids, s.endThink, pad), PadPositions(DualTrackIds(s.Ids(), LATENT), padding),
              Embeddings(ids, embed, soft), i,
              PadMask(compact, pad), seq(|compact|, c => c), Embeddings(compact, embed, soft), p);
  }

  lemma PadRowDiffers(s: Sample, pad: int, padding: nat, padding': nat, embed: int -> nat, soft: nat -> nat, i: nat)
    requires s.Valid() && pad != LATENT && s.IsRow(i)
    requires FirstMatch(s.Ids(), s.endThink) == Some(s.End())
    requires s.Ids()[i] == pad && !Alone(s, pad, i)
    ensures !Agrees(s, TrainingRun(1, CountSeen(), s, pad, padding, embed, soft), i,
                    MaskedRun(1, CountSeen(), s.Compact(), pad, padding', embed, soft))
  {
    var p := DualTrack(s.Ids(), LATENT, i);
    var j :| 0 <= j <= i && s.IsRow(j) && s.Ids()[j] != pad;
    PaddedCount(s, pad, padding, embed, soft, i);
    RowInput(s, pad, padding, padding', embed, soft, i);
    RowInput(s, pad, padding, padding', embed, soft, j);
    RankMonotone((k: int) => s.IsRow(k), j, i);
    MaskedCount(s.Compact(), pad, padding', embed, soft, p, DualTrack(s.Ids(), LATENT, j));
  }

  /** In the compact run a row sees something when a token before it or its own is not padding. */
  lemma MaskedCount(compact: seq<int>, pad: int, padding: nat, embed: int -> nat, soft: nat -> nat, p: nat, c: nat)
    requires c <= p < |compact| && compact[c] != pad
    ensures p < |MaskedRun(1, CountSeen(), compact, pad, padding, embed, soft)|
    ensures MaskedRun(1, CountSeen(), compact, pad, padding, embed, soft)[p] > 0
  {
    var ids := PadIds(compact, pad, padding);
    var seen := Seen(PadMask(ids, pad), p);
    CountedRow(PadMask(ids, pad), seq(|ids|, c => c), Embeddings(ids, embed, soft), p);
    assert seen(c);
    RankOrder((c: int) => false, seen, |ids|);
  }

  /** The conditions of the main result can be met by a sample with a spacer, here with pad id 0. */
  lemma SmallSample() returns (s: Sample)
    ensures s.Valid() && FirstMatch(s.Ids(), s.endThink) == Some(s.End())
    ensures forall j :: 0 <= j < |s.Ids()| ==> s.Ids()[j] != 0
    ensures !s.IsRow(3) && |s.Compact()| == |s.Ids()| - 1
  {
    s := Sample([1], [2], [LATENT, 5, LATENT], [3], [4]);
    assert s.Ids() == [1, 2, LATENT, 5, LATENT, 3, 4];
    Shape(s);
    forall q | 0 <= q < 5
      ensures !MatchesAt(s.Ids(), s.endThink, q)
    {
      assert s.Ids()[q + 0] != s.endThink[0];
    }
    assert MatchesAt(s.Ids(), s.endThink, 5);
    CountConcat([LATENT, 5], [LATENT], LATENT);
    CountConcat([LATENT], [5], LATENT);
    assert [LATENT] + [5] == [LATENT, 5] && [LATENT, 5] + [LATENT] == s.block;
    CountOne();
  }

  lemma CountOne()
    ensures CountOf([LATENT], LATENT) == 1 && CountOf([5], LATENT) == 0
  {
    assert [LATENT][..0] == [] && [5][..0] == [];
  }
}
