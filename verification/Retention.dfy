/**
 Checkpoint retention (src/checkpointing.py): after every save all checkpoints are deleted except the
 best N by metric and the most recent M.  Deleting as training goes on keeps exactly what one
 selection over the whole history would keep.
 */
module Retention {
  import opened Wrappers

  // ---- reading a checkpoint's metric ----

  datatype MetricValue = Finite(value: real) | NonFinite | NotANumber

  /** One entry of log_history: its step, when present, and the metric, when it logs one. */
  datatype LogEntry = LogEntry(step: Option<int>, metric: Option<MetricValue>)

  /** The entry logs the metric, at a step that the checkpoint covers. */
  predicate Matches(e: LogEntry, checkpointStep: nat) {
    e.metric.Some? && (e.step.None? || e.step.value <= checkpointStep)
  }

  /** Loops over log_history; the last matching value counts, and only if it is a finite number. */
  method ReadCheckpointMetric(state: Option<seq<LogEntry>>, checkpointStep: nat) returns (metric: Option<real>)
    ensures metric == MetricOf(state, checkpointStep)
    ensures forall v :: metric == Some(v) <==>
                          exists i :: state.Some? && 0 <= i < |state.value|
                                      && state.value[i].metric == Some(Finite(v))
                                      && (state.value[i].step.None? || state.value[i].step.value <= checkpointStep)
                                      && forall j :: i < j < |state.value| && state.value[j].metric.Some? ==>
                                           state.value[j].step.Some? && state.value[j].step.value > checkpointStep
  {
    if state.None? {
      return None;
    }
    var log := state.value;
    var matchingLogs: seq<(Option<int>, MetricValue)> := [];
    ghost var last := -1;
    for i := 0 to |log|
      invariant -1 <= last < i
      invariant matchingLogs == [] <==> last == -1
      invariant last >= 0 ==> Matches(log[last], checkpointStep)
                              && log[last].metric == Some(matchingLogs[|matchingLogs| - 1].1)
      invariant forall j :: last < j < i ==> !Matches(log[j], checkpointStep)
      invariant MetricOf(Some(log[..i]), checkpointStep)
             == if last >= 0 && log[last].metric.value.Finite? then Some(log[last].metric.value.value) else None
    {
      assert log[..i + 1][..i] == log[..i];
      if Matches(log[i], checkpointStep) {
        matchingLogs := matchingLogs + [(log[i].step, log[i].metric.value)];
        last := i;
      }
    }
    assert log[..|log|] == log;
    if matchingLogs == [] {
      return None;
    }
    var value := matchingLogs[|matchingLogs| - 1].1;
    metric := if value.Finite? then Some(value.value) else None;
  }

  function MetricOf(state: Option<seq<LogEntry>>, checkpointStep: nat): Option<real>
    decreases if state.Some? then |state.value| else 0
  {
    if state.None? || |state.value| == 0 then None
    else
      var last := state.value[|state.value| - 1];
      if !Matches(last, checkpointStep) then MetricOf(Some(state.value[..|state.value| - 1]), checkpointStep)
      else if last.metric.value.Finite? then Some(last.metric.value.value)
      else None
  }

  // ---- rankings ----

  /** A checkpoint, identified by its step, with its metric as used for ranking (negated when lower is better). */
  datatype Checkpoint = Checkpoint(step: nat, metric: Option<real>)

  /** The directory lists each step once. */
  ghost predicate DistinctSteps(s: set<Checkpoint>) {
    forall a, b :: a in s && b in s && a.step == b.step ==> a == b
  }

  datatype Ranking = ByMetric(greaterIsBetter: bool) | ByStep

  /** Checkpoints that take part: only those with a metric can be among the best. */
  predicate Ranked(r: Ranking, c: Checkpoint) {
    r.ByMetric? ==> c.metric.Some?
  }

  /** a is placed before b: better metric, or the same metric and a later step. */
  predicate Before(r: Ranking, a: Checkpoint, b: Checkpoint)
    requires Ranked(r, a) && Ranked(r, b)
  {
    match r
    case ByStep => a.step > b.step
    case ByMetric(greater) =>
      var x := if greater then a.metric.value else -a.metric.value;
      var y := if greater then b.metric.value else -b.metric.value;
      x > y || (x == y && a.step > b.step)
  }

  /** The checkpoints placed before c. */
  function Ahead(r: Ranking, s: set<Checkpoint>, c: Checkpoint): set<Checkpoint>
    requires Ranked(r, c)
  {
    set d | d in s && Ranked(r, d) && Before(r, d, c)
  }

  /** The n first places. */
  function Top(r: Ranking, s: set<Checkpoint>, n: nat): set<Checkpoint> {
    set c | c in s && Ranked(r, c) && |Ahead(r, s, c)| < n
  }

  lemma AheadShrinks(r: Ranking, s: set<Checkpoint>, a: Checkpoint, b: Checkpoint)
    requires Ranked(r, a) && Ranked(r, b)
    requires a in Ahead(r, s, b)
    ensures Ahead(r, s, a) < Ahead(r, s, b)
    ensures |Ahead(r, s, a)| < |Ahead(r, s, b)|
  {
    assert a !in Ahead(r, s, a);
    SubsetSize(Ahead(r, s, a) + {a}, Ahead(r, s, b));
  }

  lemma {:induction false} SubsetSize<T>(a: set<T>, b: set<T>)
    requires a <= b
    ensures |a| <= |b|
  {
    if a != {} {
      var x :| x in a;
      SubsetSize(a - {x}, b - {x});
    }
  }

  /** A checkpoint outside the first n places has n of them before it. */
  lemma {:induction false} TopIsAhead(r: Ranking, s: set<Checkpoint>, n: nat, c: Checkpoint)
    requires Ranked(r, c) && |Ahead(r, s, c)| >= n
    ensures |Ahead(r, s, c) * Top(r, s, n)| >= n
    decreases |Ahead(r, s, c)|
  {
    var ahead, top := Ahead(r, s, c), Top(r, s, n);
    if ahead <= top {
      assert ahead * top == ahead;
    } else {
      var d :| d in ahead && d !in top;
      AheadShrinks(r, s, d, c);
      TopIsAhead(r, s, n, d);
      SubsetSize(Ahead(r, s, d) * top, ahead * top);
    }
  }

  /** Dropping checkpoints outside the first n places leaves the first n places as they are. */
  lemma TopStable(r: Ranking, s: set<Checkpoint>, kept: set<Checkpoint>, n: nat)
    requires Top(r, s, n) <= kept <= s
    ensures Top(r, kept, n) == Top(r, s, n)
  {
    forall c | c in kept && Ranked(r, c)
      ensures c in Top(r, kept, n) <==> c in Top(r, s, n)
    {
      assert Ahead(r, kept, c) <= Ahead(r, s, c);
      SubsetSize(Ahead(r, kept, c), Ahead(r, s, c));
      if |Ahead(r, s, c)| >= n {
        TopIsAhead(r, s, n, c);
        SubsetSize(Ahead(r, s, c) * Top(r, s, n), Ahead(r, kept, c));
      }
    }
  }

  /** A new checkpoint can only push others out of the first n places. */
  lemma TopAdd(r: Ranking, s: set<Checkpoint>, c: Checkpoint, n: nat)
    ensures Top(r, s + {c}, n) <= Top(r, s, n) + {c}
  {
    forall d | d in Top(r, s + {c}, n) && d != c
      ensures d in Top(r, s, n)
    {
      SubsetSize(Ahead(r, s, d), Ahead(r, s + {c}, d));
    }
  }

  // ---- the policy ----

  datatype Policy = Policy(greaterIsBetter: bool, bestTotalLimit: Option<int>, recentTotalLimit: Option<int>)

  /** max(limit or 0, 0) */
  function Limit(limit: Option<int>): nat {
    if limit.Some? && limit.value > 0 then limit.value else 0
  }

  function Select(p: Policy, s: set<Checkpoint>): set<Checkpoint> {
    Top(ByStep, s, Limit(p.recentTotalLimit)) + Top(ByMetric(p.greaterIsBetter), s, Limit(p.bestTotalLimit))
  }

  /** A directory that held the given checkpoints, after the given saves, rotated after each one. */
  function OnlineFrom(p: Policy, start: set<Checkpoint>, history: seq<Checkpoint>): set<Checkpoint> {
    if |history| == 0 then start
    else Select(p, OnlineFrom(p, start, history[..|history| - 1]) + {history[|history| - 1]})
  }

  /** The same for a directory that was empty. */
  function Online(p: Policy, history: seq<Checkpoint>): set<Checkpoint> {
    OnlineFrom(p, {}, history)
  }

  function All(history: seq<Checkpoint>): set<Checkpoint> {
    set c | c in history
  }

  lemma SelectStable(p: Policy, s: set<Checkpoint>, kept: set<Checkpoint>)
    requires Select(p, s) <= kept <= s
    ensures Select(p, kept) == Select(p, s)
  {
    TopStable(ByStep, s, kept, Limit(p.recentTotalLimit));
    TopStable(ByMetric(p.greaterIsBetter), s, kept, Limit(p.bestTotalLimit));
  }

  /**
   Main result: rotating after every save keeps exactly what one selection over the whole history keeps, where
   the history includes what was there before.
   */
  lemma {:induction false} ResumedEqualsOffline(p: Policy, start: set<Checkpoint>, history: seq<Checkpoint>)
    requires |history| > 0
    ensures OnlineFrom(p, start, history) == Select(p, start + All(history))
  {
    var before, c := history[..|history| - 1], history[|history| - 1];
    var s := start + All(before);
    assert start + All(history) == s + {c};
    if |before| > 0 {
      ResumedEqualsOffline(p, start, before);
      TopAdd(ByStep, s, c, Limit(p.recentTotalLimit));
      TopAdd(ByMetric(p.greaterIsBetter), s, c, Limit(p.bestTotalLimit));
      SelectStable(p, s + {c}, Select(p, s) + {c});
    } else {
      assert s == start;
    }
  }

  lemma OnlineEqualsOffline(p: Policy, history: seq<Checkpoint>)
    ensures Online(p, history) == Select(p, All(history))
  {
    if |history| > 0 {
      ResumedEqualsOffline(p, {}, history);
      assert {} + All(history) == All(history);
    } else {
      assert All(history) == {};
    }
  }

  // ---- the selection in numbers ----

  /**
   What is selected, by counting: fewer than the recent limit are newer, or fewer than the best limit have a larger metric
   (a smaller one when lower is better) or the same metric at a later step.  A limit that is missing, zero or negative
   selects nothing.
   */
  lemma SelectedExactly(p: Policy, s: set<Checkpoint>, c: Checkpoint)
    ensures c in Select(p, s) <==>
              && c in s
              && (|| (p.recentTotalLimit.Some? && |set d | d in s && d.step > c.step| < p.recentTotalLimit.value)
                  || (&& c.metric.Some? && p.bestTotalLimit.Some?
                      && (p.greaterIsBetter ==>
                            |set d | d in s && d.metric.Some?
                                     && (d.metric.value > c.metric.value || (d.metric.value == c.metric.value && d.step > c.step))|
                            < p.bestTotalLimit.value)
                      && (!p.greaterIsBetter ==>
                            |set d | d in s && d.metric.Some?
                                     && (d.metric.value < c.metric.value || (d.metric.value == c.metric.value && d.step > c.step))|
                            < p.bestTotalLimit.value)))
  {
    assert Ahead(ByStep, s, c) == set d | d in s && d.step > c.step;
    if c.metric.Some? {
      var ahead := Ahead(ByMetric(p.greaterIsBetter), s, c);
      if p.greaterIsBetter {
        assert ahead == set d | d in s && d.metric.Some?
                                && (d.metric.value > c.metric.value || (d.metric.value == c.metric.value && d.step > c.step));
      } else {
        assert ahead == set d | d in s && d.metric.Some?
                                && (d.metric.value < c.metric.value || (d.metric.value == c.metric.value && d.step > c.step));
      }
    }
  }

  /** A checkpoint whose metric no other exceeds, and no later one equals, survives every rotation, in either direction. */
  lemma BestMetricSurvives(p: Policy, history: seq<Checkpoint>, c: Checkpoint)
    requires c in history && c.metric.Some? && p.bestTotalLimit.Some? && p.bestTotalLimit.value >= 1
    requires p.greaterIsBetter ==> forall d :: d in history && d.metric.Some? && d != c ==>
               d.metric.value < c.metric.value || (d.metric.value == c.metric.value && d.step < c.step)
    requires !p.greaterIsBetter ==> forall d :: d in history && d.metric.Some? && d != c ==>
               d.metric.value > c.metric.value || (d.metric.value == c.metric.value && d.step < c.step)
    ensures c in Online(p, history)
  {
    OnlineEqualsOffline(p, history);
    assert Ahead(ByMetric(p.greaterIsBetter), All(history), c) == {};
  }

  /** Rotating again changes nothing. */
  lemma SelectIdempotent(p: Policy, s: set<Checkpoint>)
    ensures Select(p, Select(p, s)) == Select(p, s)
  {
    SelectStable(p, s, Select(p, s));
  }

  /** The checkpoint that no other beats, and the newest one, always survive when their limits allow any. */
  lemma BestAndNewestSurvive(p: Policy, history: seq<Checkpoint>, c: Checkpoint)
    requires c in history
    ensures Limit(p.recentTotalLimit) >= 1 && (forall d :: d in history ==> d.step <= c.step) ==> c in Online(p, history)
    ensures Limit(p.bestTotalLimit) >= 1 && c.metric.Some?
            && (forall d :: d in history && d.metric.Some? ==> !Before(ByMetric(p.greaterIsBetter), d, c))
            ==> c in Online(p, history)
  {
    OnlineEqualsOffline(p, history);
    if forall d :: d in history ==> d.step <= c.step {
      assert Ahead(ByStep, All(history), c) == {};
    }
    if c.metric.Some? && forall d :: d in history && d.metric.Some? ==> !Before(ByMetric(p.greaterIsBetter), d, c) {
      assert Ahead(ByMetric(p.greaterIsBetter), All(history), c) == {};
    }
  }

  /** No two checkpoints tie when steps are distinct, so the first n places hold at most n checkpoints. */
  lemma {:induction false} TopIsSmall(r: Ranking, s: set<Checkpoint>, n: nat)
    requires DistinctSteps(s)
    ensures |Top(r, s, n)| <= n
  {
    var top := Top(r, s, n);
    if top != {} {
      var c := LastPlace(r, top);
      assert top - {c} <= Ahead(r, s, c);
      SubsetSize(top - {c}, Ahead(r, s, c));
    }
  }

  lemma {:induction false} LastPlace(r: Ranking, s: set<Checkpoint>) returns (c: Checkpoint)
    requires s != {} && DistinctSteps(s) && forall d :: d in s ==> Ranked(r, d)
    ensures c in s && forall d :: d in s && d != c ==> Before(r, d, c)
  {
    var x :| x in s;
    if s == {x} {
      c := x;
    } else {
      var y := LastPlace(r, s - {x});
      assert x.step != y.step;
      if Before(r, x, y) {
        c := y;
        assert forall d :: d in s && d != c ==> d == x || d in s - {x};
      } else {
        c := x;
        assert forall d :: d in s && d != c ==> d in s - {x};
      }
    }
  }

  /** At most best + recent checkpoints remain at any time. */
  lemma OnlineIsSmall(p: Policy, history: seq<Checkpoint>)
    requires DistinctSteps(All(history))
    ensures |Online(p, history)| <= Limit(p.bestTotalLimit) + Limit(p.recentTotalLimit)
  {
    OnlineEqualsOffline(p, history);
    TopIsSmall(ByStep, All(history), Limit(p.recentTotalLimit));
    TopIsSmall(ByMetric(p.greaterIsBetter), All(history), Limit(p.bestTotalLimit));
  }
}
