/**
 An abstract stack of attention layers.

 Every row of a layer is an arbitrary function of the layer number, the row's own
 position id and state, and the ordered list of the (position id, state) pairs that
 the attention mask lets it see.  Nothing else is assumed of the model.
 */
module Attention {

  type Mask = (int, int) -> bool

  type Step<!S> = (nat, int, S, seq<(int, S)>) -> S

  /** The plain causal mask: row i sees the columns up to and including i. */
  function Causal(): Mask {
    (i: int, j: int) => j <= i
  }

  /** What row i sees, in column order. */
  function View<S>(mask: Mask, i: int, pos: seq<int>, states: seq<S>): seq<(int, S)>
    requires |pos| == |states|
  {
    if |states| == 0 then []
    else
      var n := |states| - 1;
      View(mask, i, pos[..n], states[..n]) + if mask(i, n) then [(pos[n], states[n])] else []
  }

  /** One layer: all rows are recomputed from the previous states. */
  function Layer<S>(l: nat, step: Step<S>, mask: Mask, pos: seq<int>, states: seq<S>): (r: seq<S>)
    requires |pos| == |states|
    ensures |r| == |states|
  {
    seq(|states|, i requires 0 <= i < |states| => step(l, pos[i], states[i], View(mask, i, pos, states)))
  }

  /** The row states after `depth` layers. */
  function Run<S>(depth: nat, step: Step<S>, mask: Mask, pos: seq<int>, states: seq<S>): (r: seq<S>)
    requires |pos| == |states|
    ensures |r| == |states|
  {
    if depth == 0 then states
    else Layer(depth - 1, step, mask, pos, Run(depth - 1, step, mask, pos, states))
  }

  /** A layer gives its number, the row's own position and state, and the row's view to the step function. */
  lemma LayerReads<S>(depth: nat, step: Step<S>, mask: Mask, pos: seq<int>, states: seq<S>, i: nat)
    requires |pos| == |states| && i < |states|
    ensures Run(0, step, mask, pos, states)[i] == states[i]
    ensures var before := Run(depth, step, mask, pos, states);
            Run(depth + 1, step, mask, pos, states)[i] == step(depth, pos[i], before[i], View(mask, i, pos, before))
  {
  }

  /** The elements at the kept indices, in order. */
  function Pick<T>(keep: int -> bool, xs: seq<T>): seq<T> {
    if |xs| == 0 then []
    else
      var n := |xs| - 1;
      Pick(keep, xs[..n]) + if keep(n) then [xs[n]] else []
  }

  /** How many indices below i are kept. */
  function Rank(keep: int -> bool, i: nat): nat {
    if i == 0 then 0
    else Rank(keep, i - 1) + if keep(i - 1) then 1 else 0
  }

  /** Kept rows see exactly the kept rows up to themselves. */
  ghost predicate Faithful(mask: Mask, keep: int -> bool, n: nat) {
    forall i, j :: 0 <= i < n && 0 <= j < n && keep(i) ==> mask(i, j) == (keep(j) && j <= i)
  }

  function Zip<S>(pos: seq<int>, states: seq<S>): seq<(int, S)>
    requires |pos| == |states|
  {
    seq(|pos|, i requires 0 <= i < |pos| => (pos[i], states[i]))
  }

  lemma {:induction false} RankMonotone(keep: int -> bool, i: nat, j: nat)
    requires i <= j
    ensures Rank(keep, i) <= Rank(keep, j)
    ensures i < j && keep(i) ==> Rank(keep, i) < Rank(keep, j)
    decreases j
  {
    if i < j {
      RankMonotone(keep, i, j - 1);
    }
  }

  lemma {:induction false} PickLength<T>(keep: int -> bool, xs: seq<T>)
    ensures |Pick(keep, xs)| == Rank(keep, |xs|)
  {
    if |xs| > 0 {
      PickLength(keep, xs[..|xs| - 1]);
    }
  }

  lemma {:induction false} PickPrefix<T>(keep: int -> bool, xs: seq<T>, m: nat)
    requires m <= |xs|
    ensures Rank(keep, m) <= |Pick(keep, xs)|
    ensures Pick(keep, xs[..m]) == Pick(keep, xs)[..Rank(keep, m)]
    decreases |xs|
  {
    PickLength(keep, xs[..m]);
    PickLength(keep, xs);
    if m < |xs| {
      var n := |xs| - 1;
      PickPrefix(keep, xs[..n], m);
      assert xs[..n][..m] == xs[..m];
    } else {
      assert xs[..m] == xs;
    }
  }

  /** A kept element is found at its rank. */
  lemma PickAt<T>(keep: int -> bool, xs: seq<T>, i: nat)
    requires i < |xs| && keep(i)
    ensures Rank(keep, i) < |Pick(keep, xs)|
    ensures Pick(keep, xs)[Rank(keep, i)] == xs[i]
  {
    PickPrefix(keep, xs, i + 1);
    PickLength(keep, xs[..i + 1]);
    PickLength(keep, xs[..i]);
    assert xs[..i + 1][..i] == xs[..i];
  }

  lemma PickedSoFar<T>(keep: int -> bool, xs: seq<T>, i: nat)
    requires i < |xs| && keep(i)
    ensures Rank(keep, i) < |Pick(keep, xs)|
    ensures Pick(keep, xs[..i + 1]) == Pick(keep, xs)[..Rank(keep, i) + 1]
  {
    PickPrefix(keep, xs, i + 1);
  }

  /** Every picked element comes from a kept index. */
  lemma {:induction false} PickSource<T>(keep: int -> bool, xs: seq<T>, c: nat) returns (i: nat)
    requires c < |Pick(keep, xs)|
    ensures i < |xs| && keep(i) && Rank(keep, i) == c
  {
    var n := |xs| - 1;
    PickLength(keep, xs[..n]);
    if c < |Pick(keep, xs[..n])| {
      i := PickSource(keep, xs[..n], c);
    } else {
      i := n;
    }
  }

  lemma {:induction false} RankBeyond(keep: int -> bool, z: nat, n: nat)
    requires z <= n
    requires forall j :: z <= j < n ==> !keep(j)
    ensures Rank(keep, n) == Rank(keep, z)
    decreases n
  {
    if z < n {
      RankBeyond(keep, z, n - 1);
    }
  }

  lemma {:induction false} PickAll<T>(keep: int -> bool, xs: seq<T>)
    requires forall i :: 0 <= i < |xs| ==> keep(i)
    ensures Pick(keep, xs) == xs
  {
    if |xs| > 0 {
      PickAll(keep, xs[..|xs| - 1]);
    }
  }

  lemma {:induction false} ViewCausal<S>(r: nat, pos: seq<int>, states: seq<S>)
    requires |pos| == |states|
    ensures var m := if r < |states| then r + 1 else |states|;
            View(Causal(), r, pos, states) == Zip(pos[..m], states[..m])
  {
    if |states| > 0 {
      var n := |states| - 1;
      ViewCausal(r, pos[..n], states[..n]);
      var m := if r < n then r + 1 else n;
      assert pos[..n][..m] == pos[..m] && states[..n][..m] == states[..m];
      if n <= r {
        assert pos[..n + 1] == pos && states[..n + 1] == states;
      }
    }
  }

  /** A faithful mask shows a kept row the kept pairs up to itself. */
  lemma {:induction false} ViewKept<S>(mask: Mask, keep: int -> bool, i: nat, pos: seq<int>, states: seq<S>, m: nat)
    requires |pos| == |states| && i < |states| && m <= |states|
    requires keep(i) && Faithful(mask, keep, |states|)
    ensures var e := if i < m then i + 1 else m;
            |Pick(keep, pos[..e])| == |Pick(keep, states[..e])|
            && View(mask, i, pos[..m], states[..m]) == Zip(Pick(keep, pos[..e]), Pick(keep, states[..e]))
    decreases m
  {
    var e := if i < m then i + 1 else m;
    PickLength(keep, pos[..e]);
    PickLength(keep, states[..e]);
    if m > 0 {
      ViewKept(mask, keep, i, pos, states, m - 1);
      assert pos[..m][..m - 1] == pos[..m - 1] && states[..m][..m - 1] == states[..m - 1];
    }
  }

  lemma ViewKeptAll<S>(mask: Mask, keep: int -> bool, i: nat, pos: seq<int>, states: seq<S>)
    requires |pos| == |states| && i < |states| && keep(i)
    requires Faithful(mask, keep, |states|)
    ensures |Pick(keep, pos[..i + 1])| == |Pick(keep, states[..i + 1])|
    ensures View(mask, i, pos, states) == Zip(Pick(keep, pos[..i + 1]), Pick(keep, states[..i + 1]))
  {
    var n := |states|;
    ViewKept(mask, keep, i, pos, states, n);
    assert pos[..n] == pos;
    assert states[..n] == states;
  }

  /** A kept row sees in the full run what its row sees in the run over the kept rows. */
  lemma KeptRowView<S>(mask: Mask, keep: int -> bool, pos: seq<int>, states: seq<S>, i: nat)
    requires |pos| == |states| && i < |states| && keep(i)
    requires Faithful(mask, keep, |states|)
    ensures |Pick(keep, pos)| == |Pick(keep, states)|
    ensures View(mask, i, pos, states) == View(Causal(), Rank(keep, i), Pick(keep, pos), Pick(keep, states))
  {
    var r := Rank(keep, i);
    var p, s := Pick(keep, pos), Pick(keep, states);
    PickedSoFar(keep, pos, i);
    PickedSoFar(keep, states, i);
    assert |p| == |s| by {
      PickLength(keep, pos);
      PickLength(keep, states);
    }
    ViewKeptAll(mask, keep, i, pos, states);
    ViewCausal(r, p, s);
  }

  lemma KeptRowStep<S>(l: nat, step: Step<S>, mask: Mask, keep: int -> bool, pos: seq<int>, states: seq<S>, i: nat)
    requires |pos| == |states| && i < |states| && keep(i)
    requires Faithful(mask, keep, |states|)
    ensures |Pick(keep, pos)| == |Pick(keep, states)| && Rank(keep, i) < |Pick(keep, states)|
    ensures Layer(l, step, mask, pos, states)[i]
         == Layer(l, step, Causal(), Pick(keep, pos), Pick(keep, states))[Rank(keep, i)]
  {
    PickAt(keep, pos, i);
    PickAt(keep, states, i);
    PickLength(keep, pos);
    PickLength(keep, states);
    KeptRowView(mask, keep, pos, states, i);
  }

  lemma {:induction false} PickLayer<S>(l: nat, step: Step<S>, mask: Mask, keep: int -> bool, pos: seq<int>, states: seq<S>)
    requires |pos| == |states|
    requires Faithful(mask, keep, |states|)
    ensures |Pick(keep, pos)| == |Pick(keep, states)|
    ensures Pick(keep, Layer(l, step, mask, pos, states))
         == Layer(l, step, Causal(), Pick(keep, pos), Pick(keep, states))
  {
    var big := Layer(l, step, mask, pos, states);
    PickLength(keep, pos);
    PickLength(keep, states);
    PickLength(keep, big);
    var small := Layer(l, step, Causal(), Pick(keep, pos), Pick(keep, states));
    forall c | 0 <= c < |small|
      ensures Pick(keep, big)[c] == small[c]
    {
      var i := PickSource(keep, big, c);
      PickAt(keep, big, i);
      KeptRowStep(l, step, mask, keep, pos, states, i);
    }
  }

  /**
   Dropping the rows that no kept row sees changes nothing: at every depth the kept rows
   of the masked run are the rows of a plain causal run over the kept rows alone.
   */
  lemma {:induction false} Simulation<S>(depth: nat, step: Step<S>, mask: Mask, keep: int -> bool, pos: seq<int>, states: seq<S>)
    requires |pos| == |states|
    requires Faithful(mask, keep, |states|)
    ensures |Pick(keep, pos)| == |Pick(keep, states)|
    ensures Pick(keep, Run(depth, step, mask, pos, states))
         == Run(depth, step, Causal(), Pick(keep, pos), Pick(keep, states))
  {
    PickLength(keep, pos);
    PickLength(keep, states);
    if depth > 0 {
      Simulation(depth - 1, step, mask, keep, pos, states);
      PickLayer(depth - 1, step, mask, keep, pos, Run(depth - 1, step, mask, pos, states));
    }
  }

  /** A causal run on a prefix is the prefix of the causal run. */
  lemma CausalPrefix<S>(depth: nat, step: Step<S>, pos: seq<int>, states: seq<S>, m: nat)
    requires |pos| == |states| && m <= |states|
    ensures Run(depth, step, Causal(), pos[..m], states[..m]) == Run(depth, step, Causal(), pos, states)[..m]
  {
    var keep := (j: int) => j < m;
    Simulation(depth, step, Causal(), keep, pos, states);
    PickBelow(keep, pos, m);
    PickBelow(keep, states, m);
    PickBelow(keep, Run(depth, step, Causal(), pos, states), m);
  }

  lemma {:induction false} PickBelow<T>(keep: int -> bool, xs: seq<T>, m: nat)
    requires m <= |xs|
    requires forall j :: 0 <= j < |xs| ==> keep(j) == (j < m)
    ensures Pick(keep, xs) == xs[..m]
    decreases |xs|
  {
    if m == |xs| {
      PickAll(keep, xs);
    } else {
      PickBelow(keep, xs[..|xs| - 1], m);
      assert xs[..|xs| - 1][..m] == xs[..m];
    }
  }

  lemma {:induction false} PickTruncates<T>(keep: int -> bool, xs: seq<T>, m: nat)
    requires m <= |xs|
    requires forall j :: m <= j < |xs| ==> !keep(j)
    ensures Pick(keep, xs) == Pick(keep, xs[..m])
    decreases |xs|
  {
    if m < |xs| {
      PickTruncates(keep, xs[..|xs| - 1], m);
      assert xs[..|xs| - 1][..m] == xs[..m];
    } else {
      assert xs[..m] == xs;
    }
  }

  // ---- picking from two sequences ----

  /** ys holds every row of xs at its rank, and the two selections keep the same rows. */
  ghost predicate Through<T>(rows: int -> bool, keep: int -> bool, xs: seq<T>, keep': int -> bool, ys: seq<T>) {
    forall j :: 0 <= j < |xs| ==>
      if rows(j) then Rank(rows, j) < |ys| && ys[Rank(rows, j)] == xs[j] && keep'(Rank(rows, j)) == keep(j)
      else !keep(j)
  }

  lemma PickStep<T>(keep: int -> bool, xs: seq<T>, n: nat)
    requires 0 < n <= |xs|
    ensures Pick(keep, xs[..n]) == Pick(keep, xs[..n - 1]) + if keep(n - 1) then [xs[n - 1]] else []
  {
    assert xs[..n][..n - 1] == xs[..n - 1];
  }

  /** Selecting among the rows of xs is selecting from ys. */
  lemma {:induction false} PickThrough<T>(rows: int -> bool, keep: int -> bool, xs: seq<T>, keep': int -> bool, ys: seq<T>, n: nat)
    requires Through(rows, keep, xs, keep', ys) && n <= |xs|
    ensures Rank(rows, n) <= |ys|
    ensures Pick(keep, xs[..n]) == Pick(keep', ys[..Rank(rows, n)])
  {
    if n > 0 {
      PickThrough(rows, keep, xs, keep', ys, n - 1);
      PickStep(keep, xs, n);
      if rows(n - 1) {
        PickStep(keep', ys, Rank(rows, n - 1) + 1);
      }
    }
  }

  lemma RankThrough<T>(rows: int -> bool, keep: int -> bool, xs: seq<T>, keep': int -> bool, ys: seq<T>, n: nat)
    requires Through(rows, keep, xs, keep', ys) && n <= |xs|
    ensures Rank(rows, n) <= |ys| && Rank(keep, n) == Rank(keep', Rank(rows, n))
  {
    PickThrough(rows, keep, xs, keep', ys, n);
    PickLength(keep, xs[..n]);
    PickLength(keep', ys[..Rank(rows, n)]);
  }

  /** What Through says about the whole of two sequences. */
  lemma PicksAgree<T>(rows: int -> bool, keep: int -> bool, xs: seq<T>, keep': int -> bool, ys: seq<T>, m: nat)
    requires Through(rows, keep, xs, keep', ys) && Rank(rows, |xs|) == m <= |ys|
    requires forall c :: m <= c < |ys| ==> !keep'(c)
    ensures Pick(keep, xs) == Pick(keep', ys)
  {
    PickThrough(rows, keep, xs, keep', ys, |xs|);
    assert xs[..|xs|] == xs;
    PickTruncates(keep', ys, m);
  }

  // ---- counting what a row sees ----

  /** A layer that only counts what each row sees. */
  function CountSeen(): Step<nat> {
    (l: nat, pos: int, state: nat, view: seq<(int, nat)>) => |view|
  }

  /** The columns that row i sees. */
  function Seen(mask: Mask, i: int): int -> bool {
    (j: int) => mask(i, j)
  }

  lemma {:induction false} SeenIsRank<S>(mask: Mask, i: int, pos: seq<int>, states: seq<S>)
    requires |pos| == |states|
    ensures |View(mask, i, pos, states)| == Rank(Seen(mask, i), |states|)
  {
    if |states| > 0 {
      SeenIsRank(mask, i, pos[..|states| - 1], states[..|states| - 1]);
    }
  }

  /** After one counting layer a row's state is the number of columns that it sees. */
  lemma CountedRow(mask: Mask, pos: seq<int>, states: seq<nat>, i: nat)
    requires |pos| == |states| && i < |states|
    ensures Run(1, CountSeen(), mask, pos, states)[i] == Rank(Seen(mask, i), |states|)
  {
    SeenIsRank(mask, i, pos, states);
  }

  lemma {:induction false} RankOrder(few: int -> bool, many: int -> bool, n: nat)
    requires forall j :: 0 <= j < n && few(j) ==> many(j)
    ensures Rank(few, n) <= Rank(many, n)
    ensures (exists j :: 0 <= j < n && many(j) && !few(j)) ==> Rank(few, n) < Rank(many, n)
  {
    if n > 0 {
      RankOrder(few, many, n - 1);
    }
  }

  lemma SameRank(a: int -> bool, b: int -> bool, n: nat)
    requires forall j :: 0 <= j < n ==> a(j) == b(j)
    ensures Rank(a, n) == Rank(b, n)
  {
    RankOrder(a, b, n);
    RankOrder(b, a, n);
  }

  lemma {:induction false} RankNone(keep: int -> bool, n: nat)
    requires forall j :: 0 <= j < n ==> !keep(j)
    ensures Rank(keep, n) == 0
  {
    if n > 0 {
      RankNone(keep, n - 1);
    }
  }

  lemma RankToRow(rows: int -> bool, upTo: int -> bool, i: nat)
    requires rows(i) && forall j :: 0 <= j <= i ==> upTo(j) == rows(j)
    ensures Rank(upTo, i + 1) == Rank(rows, i) + 1
  {
    SameRank(rows, upTo, i + 1);
  }

  lemma FaithfulRank(mask: Mask, keep: int -> bool, n: nat, i: nat, upTo: int -> bool)
    requires i < n && keep(i) && Faithful(mask, keep, n)
    requires forall j :: 0 <= j < n ==> upTo(j) == (keep(j) && j <= i)
    ensures Rank(Seen(mask, i), n) == Rank(upTo, n)
  {
    SameRank(Seen(mask, i), upTo, n);
  }

  lemma RankUpTo<T>(rows: int -> bool, keep: int -> bool, xs: seq<T>, keep': int -> bool, ys: seq<T>, i: nat, upTo: int -> bool)
    requires Through(rows, keep, xs, keep', ys) && i < |xs| && rows(i)
    requires forall j :: 0 <= j <= i ==> upTo(j) == keep(j)
    ensures Rank(upTo, i + 1) == Rank(keep', Rank(rows, i) + 1)
  {
    RankThrough(rows, keep, xs, keep', ys, i + 1);
    SameRank(upTo, keep, i + 1);
  }

  lemma {:induction false} RankCausal(p: nat, n: nat)
    ensures Rank(Seen(Causal(), p), n) == if n <= p then n else p + 1
  {
    if n > 0 {
      RankCausal(p, n - 1);
    }
  }

  /** A row that sees nothing does not depend on the other rows. */
  lemma {:induction false} LonelyRow<S>(depth: nat, step: Step<S>, mask: Mask, pos: seq<int>, states: seq<S>, i: nat,
                                        mask': Mask, pos': seq<int>, states': seq<S>, i': nat)
    requires |pos| == |states| && |pos'| == |states'| && i < |states| && i' < |states'|
    requires pos[i] == pos'[i'] && states[i] == states'[i']
    requires (forall j :: 0 <= j < |states| ==> !mask(i, j)) && forall j :: 0 <= j < |states'| ==> !mask'(i', j)
    ensures Run(depth, step, mask, pos, states)[i] == Run(depth, step, mask', pos', states')[i']
  {
    if depth > 0 {
      LonelyRow(depth - 1, step, mask, pos, states, i, mask', pos', states', i');
      SeesNothing(mask, i, pos, Run(depth - 1, step, mask, pos, states));
      SeesNothing(mask', i', pos', Run(depth - 1, step, mask', pos', states'));
    }
  }

  lemma {:induction false} SeesNothing<S>(mask: Mask, i: int, pos: seq<int>, states: seq<S>)
    requires |pos| == |states| && forall j :: 0 <= j < |states| ==> !mask(i, j)
    ensures View(mask, i, pos, states) == []
  {
    if |states| > 0 {
      SeesNothing(mask, i, pos[..|states| - 1], states[..|states| - 1]);
    }
  }
}
