/** Binomial coefficients, and the number of k-element subsets that they count. */
module Binomials {

  function Binom(n: nat, k: nat): nat {
    if k == 0 then 1 else if n == 0 then 0 else Binom(n - 1, k - 1) + Binom(n - 1, k)
  }

  lemma {:induction false} BinomPositive(n: nat, k: nat)
    ensures Binom(n, k) > 0 <==> k <= n
  {
    if k > 0 && n > 0 {
      BinomPositive(n - 1, k - 1);
      BinomPositive(n - 1, k);
    }
  }

  lemma AbsorbStep(v: int, k: int, a: int, b: int, p: int, q: int)
    requires a * (v - k) == (v - 1) * p && b * (v - 1 - k) == (v - 1) * q && b == p + q
    ensures (a + b) * (v - k) == v * b
  {
    assert (v - 1) * (p + q) == (v - 1) * p + (v - 1) * q;
    assert b * (v - k) == b * (v - 1 - k) + b;
    assert (a + b) * (v - k) == a * (v - k) + b * (v - k);
  }

  /** (v - k) C(v, k) = v C(v - 1, k) */
  lemma {:induction false} Absorb(v: nat, k: nat)
    requires v >= 1
    ensures Binom(v, k) * (v - k) == v * Binom(v - 1, k)
  {
    if k == 0 {
    } else if v == 1 {
      BinomPositive(0, k);
      BinomPositive(1, k);
    } else {
      Absorb(v - 1, k - 1);
      Absorb(v - 1, k);
      AbsorbStep(v, k, Binom(v - 1, k - 1), Binom(v - 1, k), Binom(v - 2, k - 1), Binom(v - 2, k));
    }
  }

  lemma NextStep(v: int, k: int, a: int, c: int)
    requires c * (k + 1) == a * (v - 1 - k)
    ensures (a + c) * (k + 1) == v * a
  {
    assert (a + c) * (k + 1) == a * (k + 1) + c * (k + 1);
    assert a * (k + 1) + a * (v - 1 - k) == a * (k + 1 + (v - 1 - k));
  }

  /** (k + 1) C(v, k + 1) = (v - k) C(v, k) */
  lemma {:induction false} NextK(v: nat, k: nat)
    requires k <= v
    ensures Binom(v, k + 1) * (k + 1) == Binom(v, k) * (v - k)
  {
    if v == k {
      BinomPositive(v, k + 1);
    } else {
      NextK(v - 1, k);
      Absorb(v, k);
      NextStep(v, k, Binom(v - 1, k), Binom(v - 1, k + 1));
    }
  }

  lemma {:induction false} BinomMonotone(m: nat, n: nat, k: nat)
    requires m <= n
    ensures Binom(m, k) <= Binom(n, k)
  {
    if m < n {
      BinomMonotone(m, n - 1, k);
    }
  }

  // ---- subsets ----

  ghost function Subsets<T>(s: set<T>, k: nat): set<set<T>> {
    set t | t <= s && |t| == k
  }

  function AddToAll<T>(ts: set<set<T>>, x: T): set<set<T>> {
    set t | t in ts :: t + {x}
  }

  lemma {:induction false} AddToAllSize<T>(ts: set<set<T>>, x: T)
    requires forall t :: t in ts ==> x !in t
    ensures |AddToAll(ts, x)| == |ts|
  {
    if ts != {} {
      var t :| t in ts;
      AddToAllSize(ts - {t}, x);
      AddToAllMore(ts - {t}, t, x);
      assert ts == (ts - {t}) + {t};
    }
  }

  lemma AddToAllMore<T>(ts: set<set<T>>, t: set<T>, x: T)
    requires t !in ts && x !in t && forall u :: u in ts ==> x !in u
    ensures AddToAll(ts + {t}, x) == AddToAll(ts, x) + {t + {x}}
    ensures t + {x} !in AddToAll(ts, x)
  {
    forall u | u in ts
      ensures u + {x} != t + {x}
    {
      assert (u + {x}) - {x} == u && (t + {x}) - {x} == t;
    }
  }

  /** The subsets without x, and those with x. */
  lemma SubsetsSplit<T>(s: set<T>, x: T, k: nat)
    requires x in s && k > 0
    ensures Subsets(s, k) == Subsets(s - {x}, k) + AddToAll(Subsets(s - {x}, k - 1), x)
    ensures Subsets(s - {x}, k) !! AddToAll(Subsets(s - {x}, k - 1), x)
  {
    var with := AddToAll(Subsets(s - {x}, k - 1), x);
    forall t | t in Subsets(s, k)
      ensures t in Subsets(s - {x}, k) + with
    {
      if x in t {
        assert t - {x} in Subsets(s - {x}, k - 1) && t == (t - {x}) + {x};
      }
    }
  }

  lemma SubsetsStep<T>(s: set<T>, x: T, k: nat)
    requires x in s && k > 0
    ensures |Subsets(s, k)| == |Subsets(s - {x}, k)| + |Subsets(s - {x}, k - 1)|
  {
    AddToAllSize(Subsets(s - {x}, k - 1), x);
    SubsetsSplit(s, x, k);
    DisjointSizes(Subsets(s - {x}, k), AddToAll(Subsets(s - {x}, k - 1), x));
  }

  /** A set of n elements has C(n, k) subsets of k elements. */
  lemma {:induction false} SubsetsCount<T>(s: set<T>, k: nat)
    ensures |Subsets(s, k)| == Binom(|s|, k)
  {
    if k == 0 {
      NoChoice(s);
    } else if s == {} {
      assert Subsets(s, k) == {};
    } else {
      var x :| x in s;
      var rest := s - {x};
      SubsetsCount(rest, k - 1);
      SubsetsCount(rest, k);
      SubsetsStep(s, x, k);
    }
  }

  lemma NoChoice<T>(s: set<T>)
    ensures Subsets(s, 0) == {{}}
  {
  }

  lemma DisjointSizes<T>(a: set<T>, b: set<T>)
    requires a !! b
    ensures |a + b| == |a| + |b|
  {
  }
}
