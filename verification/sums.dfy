/** Finite sums of reals over finite sets, independent of enumeration order. */
module Sums {
  ghost function Pick<T>(s: set<T>): (x: T)
    requires s != {}
    ensures x in s
  {
    var x :| x in s; x
  }

  /** The next key of a map iteration, whose order the language leaves open. */
  method Next<T>(todo: set<T>) returns (x: T)
    requires todo != {}
    ensures x in todo
  {
    x :| x in todo;
  }

  lemma SameSet<T>(a: set<T>, b: set<T>)
    requires forall x :: x in a <==> x in b
    ensures a == b
  {
  }

  lemma SameMap<K, V>(m: map<K, V>, n: map<K, V>)
    requires forall x :: x in m <==> x in n
    requires forall x :: x in m ==> m[x] == n[x]
    ensures m == n
  {
  }

  lemma SubsetSize<T>(a: set<T>, b: set<T>)
    requires a <= b
    ensures |a| <= |b|
  {
    assert b == a + (b - a);
  }

  ghost function Sum<T(!new)>(s: set<T>, f: T -> real): real
  {
    if s == {} then 0.0 else f(Pick(s)) + Sum(s - {Pick(s)}, f)
  }

  /** Any element may be taken out first. */
  lemma {:induction false} SumRemove<T(!new)>(s: set<T>, f: T -> real, x: T)
    requires x in s
    ensures Sum(s, f) == f(x) + Sum(s - {x}, f)
    decreases s
  {
    var y := Pick(s);
    if y != x {
      SumRemove(s - {y}, f, x);
      SumRemove(s - {x}, f, y);
      assert s - {y} - {x} == s - {x} - {y};
    }
  }

  lemma {:induction false} SumAdd1<T(!new)>(s: set<T>, f: T -> real, x: T)
    requires x !in s
    ensures Sum(s + {x}, f) == f(x) + Sum(s, f)
  {
    SumRemove(s + {x}, f, x);
    assert s + {x} - {x} == s;
  }

  lemma {:induction false} SumEq<T(!new)>(s: set<T>, f: T -> real, g: T -> real)
    requires forall x :: x in s ==> f(x) == g(x)
    ensures Sum(s, f) == Sum(s, g)
    decreases s
  {
    if s != {} {
      SumEq(s - {Pick(s)}, f, g);
    }
  }

  lemma {:induction false} SumZero<T(!new)>(s: set<T>, f: T -> real)
    requires forall x :: x in s ==> f(x) == 0.0
    ensures Sum(s, f) == 0.0
    decreases s
  {
    if s != {} {
      SumZero(s - {Pick(s)}, f);
    }
  }

  lemma {:induction false} SumNonNegative<T(!new)>(s: set<T>, f: T -> real)
    requires forall x :: x in s ==> f(x) >= 0.0
    ensures Sum(s, f) >= 0.0
    decreases s
  {
    if s != {} {
      SumNonNegative(s - {Pick(s)}, f);
    }
  }

  lemma {:induction false} SumPlus<T(!new)>(s: set<T>, f: T -> real, g: T -> real, h: T -> real)
    requires forall x :: x in s ==> h(x) == f(x) + g(x)
    ensures Sum(s, h) == Sum(s, f) + Sum(s, g)
    decreases s
  {
    if s != {} {
      SumPlus(s - {Pick(s)}, f, g, h);
    }
  }

  lemma {:induction false} SumScale<T(!new)>(s: set<T>, k: real, f: T -> real, h: T -> real)
    requires forall x :: x in s ==> h(x) == k * f(x)
    ensures Sum(s, h) == k * Sum(s, f)
    decreases s
  {
    if s != {} {
      var x := Pick(s);
      SumScale(s - {x}, k, f, h);
      Distribute(k, f(x), Sum(s - {x}, f));
    }
  }

  lemma Distribute(k: real, a: real, b: real)
    ensures k * (a + b) == k * a + k * b
  {
  }

  /** Elements of value zero may be dropped. */
  lemma {:induction false} SumSubset<T(!new)>(s: set<T>, t: set<T>, f: T -> real)
    requires t <= s
    requires forall x :: x in s - t ==> f(x) == 0.0
    ensures Sum(s, f) == Sum(t, f)
    decreases s - t
  {
    if s - t == {} {
      assert s == t by {
        assert forall x :: x in s ==> x in t || x in s - t;
      }
    } else {
      var x := Pick(s - t);
      SumRemove(s, f, x);
      SumSubset(s - {x}, t, f);
    }
  }

  /** A function that is zero away from x sums to its value at x. */
  lemma {:induction false} SumPoint<T(!new)>(s: set<T>, f: T -> real, x: T)
    requires x in s
    requires forall y :: y in s && y != x ==> f(y) == 0.0
    ensures Sum(s, f) == f(x)
  {
    SumRemove(s, f, x);
    SumZero(s - {x}, f);
  }

  /** sum over a of sum over b of r(i)(j). */
  ghost function Sum2<T(!new)>(a: set<T>, b: set<T>, r: (T, T) -> real): real
  {
    Sum(a, Row(b, r))
  }

  ghost function Row<T(!new)>(b: set<T>, r: (T, T) -> real): T -> real
  {
    (i: T) => Sum(b, Slice(r, i))
  }

  ghost function Slice<T(!new)>(r: (T, T) -> real, i: T): T -> real
  {
    (j: T) => r(i, j)
  }

  ghost function Flip<T(!new)>(r: (T, T) -> real): (T, T) -> real
  {
    (j: T, i: T) => r(i, j)
  }

  lemma {:induction false} Sum2Eq<T(!new)>(a: set<T>, b: set<T>, r: (T, T) -> real, q: (T, T) -> real)
    requires forall i, j :: i in a && j in b ==> r(i, j) == q(i, j)
    ensures Sum2(a, b, r) == Sum2(a, b, q)
  {
    forall i | i in a
      ensures Row(b, r)(i) == Row(b, q)(i)
    {
      SumEq(b, Slice(r, i), Slice(q, i));
    }
    SumEq(a, Row(b, r), Row(b, q));
  }

  /** The order of two finite summations may be exchanged. */
  lemma {:induction false} SumSwap<T(!new)>(a: set<T>, b: set<T>, r: (T, T) -> real)
    ensures Sum2(a, b, r) == Sum2(b, a, Flip(r))
    decreases a
  {
    if a == {} {
      SumZero(b, Row(a, Flip(r)));
    } else {
      var x := Pick(a);
      SumSwap(a - {x}, b, r);
      forall j | j in b
        ensures Row(a, Flip(r))(j) == Slice(r, x)(j) + Row(a - {x}, Flip(r))(j)
      {
        SumRemove(a, Slice(Flip(r), j), x);
      }
      SumPlus(b, Slice(r, x), Row(a - {x}, Flip(r)), Row(a, Flip(r)));
    }
  }

  /**
    Grouping: every i in s contributes r(i, p(i)) once when the groups c of P are
    summed and i is counted in the group p(i) only.
  */
  lemma {:induction false} SumGroup<T(!new)>(P: set<T>, s: set<T>, p: T -> T, r: (T, T) -> real,
                                    masked: (T, T) -> real, f: T -> real)
    requires forall i :: i in s ==> p(i) in P && f(i) == r(i, p(i))
    requires forall c, i :: c in P && i in s ==> masked(c, i) == if p(i) == c then r(i, c) else 0.0
    ensures Sum2(P, s, masked) == Sum(s, f)
  {
    SumSwap(P, s, masked);
    forall i | i in s
      ensures Row(P, Flip(masked))(i) == f(i)
    {
      SumPoint(P, Slice(Flip(masked), i), p(i));
    }
    SumEq(s, Row(P, Flip(masked)), f);
  }
}
