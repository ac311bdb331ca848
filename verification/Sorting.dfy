/** Python's sort for a total order, and what it does to permutations of a list. */
module Sorting {

  type Order<!T> = (T, T) -> bool

  ghost predicate Total<T(!new)>(leq: Order<T>) {
    && (forall x, y :: leq(x, y) || leq(y, x))
    && (forall x, y, z :: leq(x, y) && leq(y, z) ==> leq(x, z))
  }

  function ByKey<T>(key: T -> int): Order<T> {
    (x: T, y: T) => key(x) <= key(y)
  }

  ghost predicate Sorted<T>(xs: seq<T>, leq: Order<T>) {
    forall i, j :: 0 <= i < j < |xs| ==> leq(xs[i], xs[j])
  }

  /** Strictly ordered: no two elements tie. */
  ghost predicate Ascending<T>(xs: seq<T>, leq: Order<T>) {
    forall i, j :: 0 <= i < j < |xs| ==> leq(xs[i], xs[j]) && !leq(xs[j], xs[i])
  }

  /** Inserts x after the last element that is not greater. */
  function Insert<T>(xs: seq<T>, x: T, leq: Order<T>): (r: seq<T>)
    ensures |r| == |xs| + 1
  {
    if |xs| == 0 || leq(xs[|xs| - 1], x) then xs + [x]
    else Insert(xs[..|xs| - 1], x, leq) + [xs[|xs| - 1]]
  }

  function SortBy<T>(xs: seq<T>, leq: Order<T>): (r: seq<T>)
    ensures |r| == |xs|
  {
    if |xs| == 0 then [] else Insert(SortBy(xs[..|xs| - 1], leq), xs[|xs| - 1], leq)
  }

  lemma DropLast<T>(xs: seq<T>)
    requires |xs| > 0
    ensures xs == xs[..|xs| - 1] + [xs[|xs| - 1]]
    ensures multiset(xs) == multiset(xs[..|xs| - 1]) + multiset{xs[|xs| - 1]}
  {
    assert xs == xs[..|xs| - 1] + [xs[|xs| - 1]];
  }

  lemma {:induction false} InsertKeeps<T>(xs: seq<T>, x: T, leq: Order<T>)
    ensures multiset(Insert(xs, x, leq)) == multiset(xs) + multiset{x}
  {
    if |xs| > 0 {
      DropLast(xs);
      InsertKeeps(xs[..|xs| - 1], x, leq);
    }
  }

  ghost predicate AtMost<T>(xs: seq<T>, leq: Order<T>, bound: T) {
    forall i :: 0 <= i < |xs| ==> leq(xs[i], bound)
  }

  lemma {:induction false} InsertAtMost<T>(xs: seq<T>, x: T, leq: Order<T>, bound: T)
    requires AtMost(xs, leq, bound) && leq(x, bound)
    ensures AtMost(Insert(xs, x, leq), leq, bound)
  {
    if |xs| > 0 && !leq(xs[|xs| - 1], x) {
      InsertAtMost(xs[..|xs| - 1], x, leq, bound);
    }
  }

  lemma {:induction false} InsertSorted<T(!new)>(xs: seq<T>, x: T, leq: Order<T>)
    requires Total(leq) && Sorted(xs, leq)
    ensures Sorted(Insert(xs, x, leq), leq)
  {
    if |xs| > 0 {
      var last := xs[|xs| - 1];
      if leq(last, x) {
        assert forall i :: 0 <= i < |xs| ==> leq(xs[i], last) || i == |xs| - 1;
      } else {
        InsertSorted(xs[..|xs| - 1], x, leq);
        InsertAtMost(xs[..|xs| - 1], x, leq, last);
      }
    }
  }

  /** The result is an ordered permutation of the list. */
  lemma {:induction false} SortSorts<T(!new)>(xs: seq<T>, leq: Order<T>)
    requires Total(leq)
    ensures Sorted(SortBy(xs, leq), leq)
    ensures multiset(SortBy(xs, leq)) == multiset(xs)
  {
    if |xs| > 0 {
      DropLast(xs);
      var init, x := SortBy(xs[..|xs| - 1], leq), xs[|xs| - 1];
      SortSorts(xs[..|xs| - 1], leq);
      InsertKeeps(init, x, leq);
      InsertSorted(init, x, leq);
    }
  }

  lemma {:induction false} SortedUnique<T>(xs: seq<T>, ys: seq<T>, leq: Order<T>)
    requires Sorted(xs, leq) && Ascending(ys, leq)
    requires multiset(xs) == multiset(ys)
    ensures xs == ys
  {
    assert |xs| == |multiset(xs)| == |multiset(ys)| == |ys|;
    if |xs| > 0 {
      var n := |xs| - 1;
      DropLast(xs);
      DropLast(ys);
      SameLast(xs, ys, leq);
      assert multiset(xs[..n]) == multiset(xs) - multiset{xs[n]};
      assert multiset(ys[..n]) == multiset(ys) - multiset{ys[n]};
      SortedUnique(xs[..n], ys[..n], leq);
    }
  }

  lemma SameLast<T>(xs: seq<T>, ys: seq<T>, leq: Order<T>)
    requires |xs| == |ys| > 0
    requires Sorted(xs, leq) && Ascending(ys, leq)
    requires multiset(xs) == multiset(ys)
    ensures xs[|xs| - 1] == ys[|ys| - 1]
  {
    var n := |xs| - 1;
    assert xs[n] in multiset(ys) && ys[n] in multiset(xs);
    var a :| 0 <= a <= n && ys[a] == xs[n];
    var b :| 0 <= b <= n && xs[b] == ys[n];
    assert b < n ==> leq(xs[b], xs[n]);
  }

  /** Sorting any permutation of a strictly ordered list gives the list back. */
  lemma SortRestores<T(!new)>(xs: seq<T>, ys: seq<T>, leq: Order<T>)
    requires Total(leq)
    requires multiset(xs) == multiset(ys) && Ascending(ys, leq)
    ensures SortBy(xs, leq) == ys
  {
    SortSorts(xs, leq);
    SortedUnique(SortBy(xs, leq), ys, leq);
  }

  /** Sorting is stable: an ordered list stays as it is. */
  lemma {:induction false} SortedStays<T>(xs: seq<T>, leq: Order<T>)
    requires Sorted(xs, leq)
    ensures SortBy(xs, leq) == xs
  {
    if |xs| > 0 {
      DropLast(xs);
      SortedStays(xs[..|xs| - 1], leq);
    }
  }

  ghost predicate SameOrder<T(!new)>(leq: Order<T>, leq': Order<T>) {
    forall x, y :: leq(x, y) == leq'(x, y)
  }

  lemma {:induction false} InsertAgrees<T(!new)>(xs: seq<T>, x: T, leq: Order<T>, leq': Order<T>)
    requires SameOrder(leq, leq')
    ensures Insert(xs, x, leq) == Insert(xs, x, leq')
  {
    if |xs| > 0 {
      InsertAgrees(xs[..|xs| - 1], x, leq, leq');
    }
  }

  /** The sort depends on the comparisons only. */
  lemma {:induction false} SortAgrees<T(!new)>(xs: seq<T>, leq: Order<T>, leq': Order<T>)
    requires SameOrder(leq, leq')
    ensures SortBy(xs, leq) == SortBy(xs, leq')
  {
    if |xs| > 0 {
      SortAgrees(xs[..|xs| - 1], leq, leq');
      InsertAgrees(SortBy(xs[..|xs| - 1], leq), xs[|xs| - 1], leq, leq');
    }
  }

  predicate Distinct<T(==)>(xs: seq<T>) {
    forall i, j :: 0 <= i < j < |xs| ==> xs[i] != xs[j]
  }

  lemma TwoCopies<T>(xs: seq<T>, i: nat, j: nat)
    requires i < j < |xs| && xs[i] == xs[j]
    ensures multiset(xs)[xs[i]] >= 2
  {
    assert xs == xs[..i] + [xs[i]] + xs[i + 1..j] + [xs[j]] + xs[j + 1..];
  }

  /** A set listed in some order without repetition. */
  lemma {:induction false} DistinctMultiset<T>(xs: seq<T>)
    requires forall i, j :: 0 <= i < j < |xs| ==> xs[i] != xs[j]
    ensures multiset(xs) == multiset(set x | x in xs)
  {
    if |xs| > 0 {
      var n := |xs| - 1;
      DistinctMultiset(xs[..n]);
      DropLast(xs);
      assert (set x | x in xs) == (set x | x in xs[..n]) + {xs[n]};
      assert xs[n] !in xs[..n];
    }
  }

  /** range(n) */
  function Indices(n: nat): (r: seq<nat>)
    ensures |r| == n
  {
    seq(n, (i: nat) => i)
  }

  lemma {:induction false} IndicesOnce(n: nat)
    ensures forall i: nat :: multiset(Indices(n))[i] == if i < n then 1 else 0
  {
    if n > 0 {
      IndicesOnce(n - 1);
      assert Indices(n) == Indices(n - 1) + [n - 1];
    }
  }
}
