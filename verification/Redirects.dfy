/**
 Redirect resolution of the line-retrieval generator (benchmark/line_retrieval/gen_data.py, generate_lines): every
 line is raw or says "same as" another line. Chains are followed in line order while the values are overwritten in
 place; chains that never reach a raw line are reported as rings; the others are grouped by their number of hops.
 */
module Redirects {
  import DivMod
  import opened Wrappers

  type Line = Option<nat>

  /** A redirect is drawn from the existing lines (line 50). */
  predicate WellFormed(redirects: seq<Line>) {
    forall i :: 0 <= i < |redirects| && redirects[i].Some? ==> redirects[i].value < |redirects|
  }

  /** The line reached from line i after k hops; a raw line stays where it is. */
  function Walk(redirects: seq<Line>, i: nat, k: nat): (r: nat)
    requires WellFormed(redirects) && i < |redirects|
    ensures r < |redirects|
  {
    if k == 0 then i
    else
      var x := Walk(redirects, i, k - 1);
      if redirects[x].None? then x else redirects[x].value
  }

  predicate RawAfter(redirects: seq<Line>, i: nat, k: nat)
    requires WellFormed(redirects) && i < |redirects|
  {
    redirects[Walk(redirects, i, k)].None?
  }

  /** Following line i reaches a raw line. */
  ghost predicate Resolves(redirects: seq<Line>, i: nat)
    requires WellFormed(redirects) && i < |redirects|
  {
    exists k: nat :: RawAfter(redirects, i, k)
  }

  /** The first m lines of the walk are redirects and all different. */
  ghost predicate Fresh(redirects: seq<Line>, i: nat, m: nat)
    requires WellFormed(redirects) && i < |redirects|
  {
    && (forall k: nat :: k < m ==> !RawAfter(redirects, i, k))
    && (forall j: nat, k: nat :: j < k < m ==> Walk(redirects, i, j) != Walk(redirects, i, k))
  }

  /** The walk stops after m hops: the first time it meets a raw line or a line it has already seen. */
  ghost predicate StopsAfter(redirects: seq<Line>, i: nat, m: nat)
    requires WellFormed(redirects) && i < |redirects|
  {
    && Fresh(redirects, i, m)
    && (RawAfter(redirects, i, m) || exists j: nat :: j < m && Walk(redirects, i, j) == Walk(redirects, i, m))
  }

  /** The walk comes back to the line it started from. */
  ghost predicate OnCycle(redirects: seq<Line>, i: nat)
    requires WellFormed(redirects) && i < |redirects|
  {
    exists p: nat :: p > 0 && Walk(redirects, i, p) == i
  }

  // ---- walks ----

  lemma {:induction false} WalkAdd(redirects: seq<Line>, i: nat, a: nat, b: nat)
    requires WellFormed(redirects) && i < |redirects|
    ensures Walk(redirects, i, a + b) == Walk(redirects, Walk(redirects, i, a), b)
  {
    if b > 0 {
      WalkAdd(redirects, i, a, b - 1);
    }
  }

  /** Two equal lines on a walk have equal continuations. */
  lemma SameContinuation(redirects: seq<Line>, i: nat, j: nat, m: nat, d: nat)
    requires WellFormed(redirects) && i < |redirects|
    requires Walk(redirects, i, j) == Walk(redirects, i, m)
    ensures Walk(redirects, i, j + d) == Walk(redirects, i, m + d)
  {
    WalkAdd(redirects, i, j, d);
    WalkAdd(redirects, i, m, d);
  }

  /** A walk that has repeated a line will never reach a raw one. */
  lemma {:induction false} NeverRaw(redirects: seq<Line>, i: nat, j: nat, m: nat, k: nat)
    requires WellFormed(redirects) && i < |redirects|
    requires j < m && Walk(redirects, i, j) == Walk(redirects, i, m) && Fresh(redirects, i, m)
    ensures !RawAfter(redirects, i, k)
    decreases k
  {
    if k >= m {
      SameContinuation(redirects, i, j, m, k - m);
      NeverRaw(redirects, i, j, m, j + (k - m));
    }
  }

  lemma NeverResolves(redirects: seq<Line>, i: nat, j: nat, m: nat)
    requires WellFormed(redirects) && i < |redirects|
    requires j < m && Walk(redirects, i, j) == Walk(redirects, i, m) && Fresh(redirects, i, m)
    ensures !Resolves(redirects, i)
  {
    forall k: nat
      ensures !RawAfter(redirects, i, k)
    {
      NeverRaw(redirects, i, j, m, k);
    }
  }

  lemma FreshStep(redirects: seq<Line>, i: nat, m: nat)
    requires WellFormed(redirects) && i < |redirects| && Fresh(redirects, i, m) && !RawAfter(redirects, i, m)
    requires forall k: nat :: k < m ==> Walk(redirects, i, k) != Walk(redirects, i, m)
    ensures Fresh(redirects, i, m + 1)
  {
  }

  /** The repeated line lies on a cycle. */
  lemma RepeatIsOnCycle(redirects: seq<Line>, i: nat, j: nat, m: nat)
    requires WellFormed(redirects) && i < |redirects|
    requires j < m && Walk(redirects, i, j) == Walk(redirects, i, m)
    ensures OnCycle(redirects, Walk(redirects, i, m))
  {
    WalkAdd(redirects, i, j, m - j);
    assert Walk(redirects, Walk(redirects, i, m), m - j) == Walk(redirects, i, m);
  }

  lemma {:induction false} Around(redirects: seq<Line>, i: nat, p: nat, n: nat)
    requires WellFormed(redirects) && i < |redirects| && Walk(redirects, i, p) == i
    ensures Walk(redirects, i, n * p) == i
  {
    if n > 0 {
      Around(redirects, i, p, n - 1);
      WalkAdd(redirects, i, (n - 1) * p, p);
      assert n * p == (n - 1) * p + p;
    }
  }

  /** A walk around a cycle is back at its start as late as we like. */
  lemma BackAgain(redirects: seq<Line>, i: nat, p: nat, from: nat) returns (n: nat)
    requires WellFormed(redirects) && i < |redirects| && p > 0 && Walk(redirects, i, p) == i
    ensures n >= from && Walk(redirects, i, n) == i
  {
    n := from * p;
    Around(redirects, i, p, from);
    DivMod.MulAtLeast(p, from);
  }

  lemma PeriodFromStart(redirects: seq<Line>, i: nat, j: nat, m: nat)
    requires WellFormed(redirects) && i < |redirects| && OnCycle(redirects, i)
    requires j < m && Walk(redirects, i, j) == Walk(redirects, i, m)
    ensures Walk(redirects, i, m - j) == i
  {
    var p: nat :| p > 0 && Walk(redirects, i, p) == i;
    var n := BackAgain(redirects, i, p, j);
    SameContinuation(redirects, i, j, m, n - j);
    WalkAdd(redirects, i, n, m - j);
    assert n + (m - j) == m + (n - j);
  }

  /** From a line on a cycle, the first line to be seen twice is that line itself. */
  lemma CycleReturnsToStart(redirects: seq<Line>, i: nat, j: nat, m: nat)
    requires WellFormed(redirects) && i < |redirects| && OnCycle(redirects, i)
    requires j < m && Walk(redirects, i, j) == Walk(redirects, i, m) && Fresh(redirects, i, m)
    ensures j == 0
  {
    PeriodFromStart(redirects, i, j, m);
    assert Walk(redirects, i, 0) == i;
  }

  lemma {:induction false} RawStays(redirects: seq<Line>, i: nat, k: nat, d: nat)
    requires WellFormed(redirects) && i < |redirects| && RawAfter(redirects, i, k)
    ensures Walk(redirects, i, k + d) == Walk(redirects, i, k)
  {
    if d > 0 {
      RawStays(redirects, i, k, d - 1);
    }
  }

  /** A walk stops at one place only. */
  lemma StopIsUnique(redirects: seq<Line>, i: nat, m: nat, m': nat)
    requires WellFormed(redirects) && i < |redirects|
    requires StopsAfter(redirects, i, m) && StopsAfter(redirects, i, m')
    ensures m == m'
  {
  }

  /** A redirect resolves exactly when its target does, and it takes one hop more. */
  lemma ResolvesLikeTarget(redirects: seq<Line>, i: nat, k: nat)
    requires WellFormed(redirects) && i < |redirects| && redirects[i].Some?
    ensures RawAfter(redirects, i, k + 1) <==> RawAfter(redirects, redirects[i].value, k)
    ensures Walk(redirects, i, k + 1) == Walk(redirects, redirects[i].value, k)
    ensures Resolves(redirects, i) <==> Resolves(redirects, redirects[i].value)
  {
    var t := redirects[i].value;
    forall n: nat
      ensures Walk(redirects, i, n + 1) == Walk(redirects, t, n)
    {
      WalkAdd(redirects, i, 1, n);
      assert Walk(redirects, i, 1) == t;
    }
    if Resolves(redirects, i) {
      var n: nat :| RawAfter(redirects, i, n);
      assert n > 0 by {
        assert !RawAfter(redirects, i, 0);
      }
      assert RawAfter(redirects, t, n - 1);
    }
    if Resolves(redirects, t) {
      var n: nat :| RawAfter(redirects, t, n);
      assert RawAfter(redirects, i, n + 1);
    }
  }

  // ---- following one line ----

  ghost function LineSet(n: nat): (r: set<nat>)
    ensures forall x: nat :: x in r <==> x < n
  {
    if n == 0 then {} else LineSet(n - 1) + {n - 1}
  }

  /** The hops of the walk, without its start. */
  ghost predicate IsLink(redirects: seq<Line>, i: nat, link: seq<nat>)
    requires WellFormed(redirects) && i < |redirects|
  {
    forall k :: 0 <= k < |link| ==> link[k] == Walk(redirects, i, k + 1)
  }

  /** The set of the first m lines of the walk. */
  ghost function Seen(redirects: seq<Line>, i: nat, m: nat): set<nat>
    requires WellFormed(redirects) && i < |redirects|
  {
    if m == 0 then {} else Seen(redirects, i, m - 1) + {Walk(redirects, i, m - 1)}
  }

  lemma {:induction false} SeenHas(redirects: seq<Line>, i: nat, m: nat)
    requires WellFormed(redirects) && i < |redirects|
    ensures forall k: nat :: k < m ==> Walk(redirects, i, k) in Seen(redirects, i, m)
  {
    if m > 0 {
      SeenHas(redirects, i, m - 1);
    }
  }

  lemma {:induction false} WhenSeen(redirects: seq<Line>, i: nat, m: nat, x: nat) returns (k: nat)
    requires WellFormed(redirects) && i < |redirects| && x in Seen(redirects, i, m)
    ensures k < m && Walk(redirects, i, k) == x
  {
    if x == Walk(redirects, i, m - 1) {
      k := m - 1;
    } else {
      k := WhenSeen(redirects, i, m - 1, x);
    }
  }

  lemma LinkStep(redirects: seq<Line>, i: nat, link: seq<nat>)
    requires WellFormed(redirects) && i < |redirects| && IsLink(redirects, i, link)
    ensures IsLink(redirects, i, link + [Walk(redirects, i, |link| + 1)])
  {
  }

  /** The inner loop: hops until a raw line (the link) or a line already visited (no link). */
  method Follow(redirects: seq<Line>, i: nat) returns (link: Option<seq<nat>>, cur: nat)
    requires WellFormed(redirects) && i < |redirects|
    ensures link.None? <==> !Resolves(redirects, i)
    ensures link.Some? ==> IsLink(redirects, i, link.value) && RawAfter(redirects, i, |link.value|)
    ensures link.Some? ==> Fresh(redirects, i, |link.value|) && cur == Walk(redirects, i, |link.value|)
    ensures link.None? ==> exists j: nat, m: nat :: Repeats(redirects, i, j, m, cur)
  {
    var tmpLink := [];
    cur := i;
    var visited: set<nat> := {};
    ghost var all := LineSet(|redirects|);
    while redirects[cur].Some?
      invariant cur == Walk(redirects, i, |tmpLink|) && IsLink(redirects, i, tmpLink)
      invariant visited == Seen(redirects, i, |tmpLink|)
      invariant Fresh(redirects, i, |tmpLink|) && cur !in visited
      decreases all - visited
    {
      ghost var m := |tmpLink|;
      LinkStep(redirects, i, tmpLink);
      SeenHas(redirects, i, m);
      FreshStep(redirects, i, m);
      assert cur in all;
      visited := visited + {cur};
      tmpLink := tmpLink + [redirects[cur].value];
      cur := redirects[cur].value;
      assert cur == Walk(redirects, i, m + 1);
      if cur in visited {
        ghost var j := WhenSeen(redirects, i, m + 1, cur);
        NeverResolves(redirects, i, j, m + 1);
        assert Repeats(redirects, i, j, m + 1, cur);
        return None, cur;
      }
    }
    assert RawAfter(redirects, i, |tmpLink|);
    link := Some(tmpLink);
  }

  /** The walk from i meets line cur again after m hops, having seen it after j. */
  ghost predicate Repeats(redirects: seq<Line>, i: nat, j: nat, m: nat, cur: nat)
    requires WellFormed(redirects) && i < |redirects|
  {
    j < m && Fresh(redirects, i, m) && Walk(redirects, i, j) == Walk(redirects, i, m) == cur
  }

  // ---- all lines, values in place ----

  /** Lines whose value no step of the outer loop changes. */
  ghost predicate Untouched(redirects: seq<Line>, x: nat)
    requires WellFormed(redirects) && x < |redirects|
  {
    redirects[x].None? || OnCycle(redirects, x)
  }

  lemma StopIsUntouched(redirects: seq<Line>, i: nat, j: nat, m: nat, cur: nat)
    requires WellFormed(redirects) && i < |redirects| && Repeats(redirects, i, j, m, cur)
    ensures cur < |redirects| && Untouched(redirects, cur) && StopsAfter(redirects, i, m)
    ensures OnCycle(redirects, i) ==> cur == i
  {
    RepeatIsOnCycle(redirects, i, j, m);
    if OnCycle(redirects, i) {
      CycleReturnsToStart(redirects, i, j, m);
    }
  }

  lemma NotBack(redirects: seq<Line>, i: nat, m: nat, p: nat)
    requires WellFormed(redirects) && i < |redirects| && redirects[i].Some?
    requires RawAfter(redirects, i, m) && p > 0
    ensures Walk(redirects, i, p) != i
  {
    if Walk(redirects, i, p) == i {
      var n := BackAgain(redirects, i, p, m);
      RawStays(redirects, i, m, n - m);
    }
  }

  lemma RawIsUntouchedStop(redirects: seq<Line>, i: nat, m: nat)
    requires WellFormed(redirects) && i < |redirects| && redirects[i].Some?
    requires Fresh(redirects, i, m) && RawAfter(redirects, i, m)
    ensures StopsAfter(redirects, i, m) && Untouched(redirects, Walk(redirects, i, m))
    ensures !OnCycle(redirects, i)
  {
    if OnCycle(redirects, i) {
      var p: nat :| p > 0 && Walk(redirects, i, p) == i;
      NotBack(redirects, i, m, p);
    }
  }

  /** What the loop has to leave in line i. */
  ghost predicate Resolved<T>(redirects: seq<Line>, before: seq<T>, i: nat, value: T, link: Option<seq<nat>>, ring: bool)
    requires WellFormed(redirects) && i < |redirects| == |before|
  {
    && (ring <==> !Resolves(redirects, i))
    && (ring <==> link.None?)
    && (link.Some? ==> IsLink(redirects, i, link.value) && RawAfter(redirects, i, |link.value|) && Fresh(redirects, i, |link.value|))
    && (exists m: nat :: StopsAfter(redirects, i, m) && value == before[Walk(redirects, i, m)])
  }

  /** The redirects and the values decide the outcome of every line. */
  lemma OutcomeIsUnique<T>(redirects: seq<Line>, before: seq<T>, i: nat,
                           value: T, link: Option<seq<nat>>, ring: bool, value': T, link': Option<seq<nat>>, ring': bool)
    requires WellFormed(redirects) && i < |redirects| == |before|
    requires Resolved(redirects, before, i, value, link, ring) && Resolved(redirects, before, i, value', link', ring')
    ensures value == value' && link == link' && ring == ring'
  {
    var m: nat :| StopsAfter(redirects, i, m) && value == before[Walk(redirects, i, m)];
    var m': nat :| StopsAfter(redirects, i, m') && value' == before[Walk(redirects, i, m')];
    StopIsUnique(redirects, i, m, m');
    if link.Some? && link'.Some? {
      StopIsUnique(redirects, i, |link.value|, |link'.value|);
      assert link.value == link'.value;
    }
  }

  lemma RawIsResolved<T>(redirects: seq<Line>, before: seq<T>, i: nat)
    requires WellFormed(redirects) && i < |redirects| == |before| && redirects[i].None?
    ensures Resolved(redirects, before, i, before[i], Some([]), false)
  {
    assert RawAfter(redirects, i, 0);
    assert StopsAfter(redirects, i, 0);
  }

  lemma RingIsResolved<T>(redirects: seq<Line>, before: seq<T>, i: nat, cur: nat)
    requires WellFormed(redirects) && i < |redirects| == |before| && !Resolves(redirects, i)
    requires exists j: nat, m: nat :: Repeats(redirects, i, j, m, cur)
    ensures cur < |redirects| && Untouched(redirects, cur)
    ensures Resolved(redirects, before, i, before[cur], None, true)
    ensures Untouched(redirects, i) ==> cur == i
  {
    var j: nat, m: nat :| Repeats(redirects, i, j, m, cur);
    StopIsUntouched(redirects, i, j, m, cur);
    assert !RawAfter(redirects, i, 0);
  }

  lemma LinkIsResolved<T>(redirects: seq<Line>, before: seq<T>, i: nat, link: seq<nat>)
    requires WellFormed(redirects) && i < |redirects| == |before| && redirects[i].Some?
    requires IsLink(redirects, i, link) && RawAfter(redirects, i, |link|) && Fresh(redirects, i, |link|)
    ensures Untouched(redirects, Walk(redirects, i, |link|)) && !Untouched(redirects, i)
    ensures Resolved(redirects, before, i, before[Walk(redirects, i, |link|)], Some(link), false)
  {
    RawIsUntouchedStop(redirects, i, |link|);
  }

  lemma FollowedIsResolved<T>(redirects: seq<Line>, before: seq<T>, i: nat, link: Option<seq<nat>>, cur: nat)
    requires WellFormed(redirects) && i < |redirects| == |before| && redirects[i].Some?
    requires link.None? ==> !Resolves(redirects, i) && exists j: nat, m: nat :: Repeats(redirects, i, j, m, cur)
    requires link.Some? ==> IsLink(redirects, i, link.value) && RawAfter(redirects, i, |link.value|)
    requires link.Some? ==> Fresh(redirects, i, |link.value|) && cur == Walk(redirects, i, |link.value|)
    ensures cur < |redirects| && Untouched(redirects, cur)
    ensures Resolved(redirects, before, i, before[cur], link, link.None?)
    ensures Untouched(redirects, i) ==> cur == i
  {
    match link
    case None => RingIsResolved(redirects, before, i, cur);
    case Some(hops) => LinkIsResolved(redirects, before, i, hops);
  }

  /** The first n lines are resolved; the others, the raw ones and those on a cycle still hold their own value. */
  ghost predicate Progress<T>(redirects: seq<Line>, before: seq<T>, values: seq<T>, links: seq<Option<seq<nat>>>,
                              rings: set<nat>, n: nat)
    requires WellFormed(redirects)
  {
    && |before| == |values| == |links| == |redirects|
    && (forall x :: x in rings ==> x < n)
    && (forall x :: n <= x < |redirects| ==> values[x] == before[x] && links[x] == Some([]))
    && (forall x :: 0 <= x < |redirects| && Untouched(redirects, x) ==> values[x] == before[x])
    && (forall x :: 0 <= x < n && x < |redirects| ==> Resolved(redirects, before, x, values[x], links[x], x in rings))
  }

  lemma ProgressStep<T>(redirects: seq<Line>, before: seq<T>, values: seq<T>, links: seq<Option<seq<nat>>>,
                        rings: set<nat>, n: nat, value: T, link: Option<seq<nat>>)
    requires WellFormed(redirects) && n < |redirects| && Progress(redirects, before, values, links, rings, n)
    requires Resolved(redirects, before, n, value, link, link.None?)
    requires Untouched(redirects, n) ==> value == before[n]
    ensures Progress(redirects, before, values[n := value], links[n := link],
                     if link.None? then rings + {n} else rings, n + 1)
  {
  }

  lemma RawProgress<T>(redirects: seq<Line>, before: seq<T>, values: seq<T>, links: seq<Option<seq<nat>>>, rings: set<nat>, n: nat)
    requires WellFormed(redirects) && n < |redirects| && redirects[n].None?
    requires Progress(redirects, before, values, links, rings, n)
    ensures Progress(redirects, before, values, links, rings, n + 1)
  {
    RawIsResolved(redirects, before, n);
    ProgressStep(redirects, before, values, links, rings, n, before[n], Some([]));
    assert values[n := before[n]] == values && links[n := Some([])] == links;
  }

  method ResolveLinks<T>(redirects: seq<Line>, values: array<T>)
    returns (links: seq<Option<seq<nat>>>, containsRing: set<nat>)
    requires WellFormed(redirects) && values.Length == |redirects|
    modifies values
    ensures Progress(redirects, old(values[..]), values[..], links, containsRing, |redirects|)
  {
    var numLines := |redirects|;
    ghost var before := values[..];
    links := seq(numLines, _ => Some([]));
    containsRing := {};
    for i := 0 to numLines
      invariant Progress(redirects, before, values[..], links, containsRing, i)
    {
      ghost var was := values[..];
      if redirects[i].None? {
        RawProgress(redirects, before, was, links, containsRing, i);
        continue;
      }
      var tmpLink, cur := Follow(redirects, i);
      FollowedIsResolved(redirects, before, i, tmpLink, cur);
      ProgressStep(redirects, before, was, links, containsRing, i, values[cur], tmpLink);
      if tmpLink.None? {
        containsRing := containsRing + {i};
      }
      values[i] := values[cur];
      assert values[..] == was[i := was[cur]];
      links := links[i := tmpLink];
    }
  }

  // ---- groups ----

  /** Line i belongs under key: it has a link, one hop shorter than the key. */
  predicate InGroup(links: seq<Option<seq<nat>>>, i: int, key: nat) {
    0 <= i < |links| && links[i].Some? && |links[i].value| + 1 == key
  }

  /** The first n lines under their keys, in line order; no key without lines. */
  ghost predicate Grouped(links: seq<Option<seq<nat>>>, groups: map<nat, seq<nat>>, n: nat) {
    && (forall key :: key in groups ==> groups[key] != [])
    && (forall key, a, b :: key in groups && 0 <= a < b < |groups[key]| ==> groups[key][a] < groups[key][b])
    && (forall key, i :: key in groups && i in groups[key] ==> i < n && InGroup(links, i, key))
    && (forall i :: 0 <= i < n && i < |links| && links[i].Some? ==>
          |links[i].value| + 1 in groups && i in groups[|links[i].value| + 1])
  }

  lemma GroupedStep(links: seq<Option<seq<nat>>>, groups: map<nat, seq<nat>>, i: nat)
    requires i < |links| && links[i].Some? && Grouped(links, groups, i)
    ensures var key := |links[i].value| + 1;
            var before := if key in groups then groups[key] else [];
            Grouped(links, groups[key := before + [i]], i + 1)
  {
    var key := |links[i].value| + 1;
    var before := if key in groups then groups[key] else [];
    var after := groups[key := before + [i]];
    assert InGroup(links, i, key);
    assert after[key][|before|] == i;
    forall k, x | k in after && x in after[k]
      ensures x < i + 1 && InGroup(links, x, k)
    {
      if k == key && x != i {
        assert x in before;
      }
    }
    forall x | 0 <= x < i && links[x].Some?
      ensures |links[x].value| + 1 in after && x in after[|links[x].value| + 1]
    {
      assert x in groups[|links[x].value| + 1];
    }
    forall k, a, b | k in after && 0 <= a < b < |after[k]|
      ensures after[k][a] < after[k][b]
    {
      if k == key && b == |before| {
        assert before[a] in before;
      }
    }
  }

  /** The grouping loop, over the lines that are not in a ring. */
  method GroupByNumHops(links: seq<Option<seq<nat>>>, containsRing: set<nat>) returns (groups: map<nat, seq<nat>>)
    requires forall i :: 0 <= i < |links| ==> (i in containsRing <==> links[i].None?)
    ensures Grouped(links, groups, |links|)
  {
    groups := map[];
    for i := 0 to |links|
      invariant Grouped(links, groups, i)
    {
      if i in containsRing {
        continue;
      }
      var key := |links[i].value| + 1;
      GroupedStep(links, groups, i);
      groups := groups[key := (if key in groups then groups[key] else []) + [i]];
    }
  }

  /** Every line that resolves is in one group, once, and the others are in none. */
  lemma GroupsPartition(links: seq<Option<seq<nat>>>, groups: map<nat, seq<nat>>, i: nat, key: nat, a: nat, key': nat, a': nat)
    requires Grouped(links, groups, |links|)
    requires key in groups && a < |groups[key]| && groups[key][a] == i
    requires key' in groups && a' < |groups[key']| && groups[key'][a'] == i
    ensures key == key' && a == a' && InGroup(links, i, key)
  {
    assert i in groups[key] && i in groups[key'];
  }

  /** generate_lines from the redirects on: links, rings, resolved values and groups. */
  method ResolveAndGroup<T>(redirects: seq<Line>, values: array<T>)
    returns (links: seq<Option<seq<nat>>>, containsRing: set<nat>, groups: map<nat, seq<nat>>)
    requires WellFormed(redirects) && values.Length == |redirects|
    modifies values
    ensures |links| == |redirects|
    ensures forall i :: 0 <= i < |redirects| ==>
              Resolved(redirects, old(values[..]), i, values[i], links[i], i in containsRing)
    ensures Grouped(links, groups, |redirects|)
  {
    links, containsRing := ResolveLinks(redirects, values);
    groups := GroupByNumHops(links, containsRing);
    assert forall i :: 0 <= i < |redirects| ==> values[..][i] == values[i];
  }

  // ---- what the links say ----

  lemma {:induction false} DistinctFit(xs: seq<nat>, n: nat)
    requires forall a, b :: 0 <= a < b < |xs| ==> xs[a] != xs[b]
    requires forall a :: 0 <= a < |xs| ==> xs[a] < n
    ensures |xs| <= n
  {
    if |xs| > 0 {
      if n - 1 in xs {
        var a :| 0 <= a < |xs| && xs[a] == n - 1;
        DistinctFit(xs[..a] + xs[a + 1..], n - 1);
      } else {
        assert n > 0 by {
          assert xs[0] < n;
        }
        DistinctFit(xs, n - 1);
      }
    }
  }

  /** A link visits different lines: it is shorter than the number of lines. */
  lemma LinkIsShort(redirects: seq<Line>, i: nat, link: seq<nat>)
    requires WellFormed(redirects) && i < |redirects|
    requires RawAfter(redirects, i, |link|) && Fresh(redirects, i, |link|)
    ensures |link| < |redirects|
  {
    var nodes := seq(|link| + 1, (k: nat) => Walk(redirects, i, k));
    forall a, b | 0 <= a < b < |nodes|
      ensures nodes[a] != nodes[b]
    {
      if b == |link| {
        assert !RawAfter(redirects, i, a);
      }
    }
    DistinctFit(nodes, |redirects|);
  }
}
