/** Sorting by a comparison, as sort.Slice and sort.SliceStable do. */
module Orders {
  type Less<!T> = (T, T) -> bool

  /** What a sort demands of its comparison. */
  ghost predicate WeakOrder<T(!new)>(less: Less<T>) {
    && (forall a, b :: less(a, b) ==> !less(b, a))
    && (forall a, b, c :: !less(b, a) && !less(c, b) ==> !less(c, a))
  }

  ghost predicate Ordered<T(!new)>(less: Less<T>, xs: seq<T>) {
    forall i, j :: 0 <= i < j < |xs| ==> !less(xs[j], xs[i])
  }

  /** Puts x before the first element that is not below it. */
  function InsertBy<T(!new)>(less: Less<T>, x: T, xs: seq<T>): (r: seq<T>)
    ensures multiset(r) == multiset{x} + multiset(xs)
    ensures |r| == |xs| + 1
  {
    if xs == [] then [x]
    else if less(xs[0], x) then
      assert xs == [xs[0]] + xs[1..];
      [xs[0]] + InsertBy(less, x, xs[1..])
    else [x] + xs
  }

  lemma {:induction false} InsertOrdered<T(!new)>(less: Less<T>, x: T, xs: seq<T>)
    requires WeakOrder(less) && Ordered(less, xs)
    ensures Ordered(less, InsertBy(less, x, xs))
  {
    if xs != [] && less(xs[0], x) {
      InsertOrdered(less, x, xs[1..]);
      var tail := InsertBy(less, x, xs[1..]);
      forall j | 0 <= j < |tail|
        ensures !less(tail[j], xs[0])
      {
        assert tail[j] in multiset(tail);
        if tail[j] != x {
          assert tail[j] in multiset(xs[1..]);
          assert tail[j] in xs[1..];
        }
      }
    }
  }

  /** A stable sort. */
  function SortBy<T(!new)>(less: Less<T>, xs: seq<T>): (r: seq<T>)
    ensures multiset(r) == multiset(xs)
    ensures |r| == |xs|
  {
    if xs == [] then [] else
      assert xs == [xs[0]] + xs[1..];
      InsertBy(less, xs[0], SortBy(less, xs[1..]))
  }

  lemma {:induction false} SortOrdered<T(!new)>(less: Less<T>, xs: seq<T>)
    requires WeakOrder(less)
    ensures Ordered(less, SortBy(less, xs))
  {
    if xs == [] {
    } else {
      SortOrdered(less, xs[1..]);
      InsertOrdered(less, xs[0], SortBy(less, xs[1..]));
    }
  }

  ghost predicate Distinct<T>(xs: seq<T>) {
    forall i, j :: 0 <= i < j < |xs| ==> xs[i] != xs[j]
  }

  /** Nothing counted twice means no two places hold the same. */
  lemma CountsDiffer<T(!new)>(xs: seq<T>)
    requires forall x :: multiset(xs)[x] <= 1
    ensures Distinct(xs)
  {
    forall i, j | 0 <= i < j < |xs|
      ensures xs[i] != xs[j]
    {
      var a, b := xs[..j], xs[j..];
      assert xs == a + b;
      assert multiset(xs) == multiset(a) + multiset(b);
      assert a[i] in multiset(a) && b[0] in multiset(b);
      var x := xs[j];
      assert multiset(xs)[x] <= 1;
    }
  }

  lemma {:induction false} DifferCounts<T(!new)>(xs: seq<T>)
    requires Distinct(xs)
    ensures forall x :: multiset(xs)[x] <= 1
  {
    if xs == [] {
    } else {
      assert xs == [xs[0]] + xs[1..];
      DifferCounts(xs[1..]);
    }
  }

  /** A rearrangement has the same members and repeats nothing new. */
  lemma StaysDistinct<T(!new)>(xs: seq<T>, ys: seq<T>)
    requires multiset(xs) == multiset(ys) && Distinct(xs)
    ensures Distinct(ys)
  {
    hide Distinct;
    DifferCounts(xs);
    CountsDiffer(ys);
  }

  /** An element of one arrangement is somewhere in every other. */
  lemma FoundAgain<T>(xs: seq<T>, ys: seq<T>, i: nat) returns (j: nat)
    requires multiset(xs) == multiset(ys) && i < |xs|
    ensures j < |ys| && ys[j] == xs[i]
  {
    assert xs[i] in multiset(ys);
    j :| 0 <= j < |ys| && ys[j] == xs[i];
  }

  lemma WithoutOne<T>(xs: seq<T>, k: nat)
    requires k < |xs|
    ensures multiset(xs[..k] + xs[k + 1..]) == multiset(xs) - multiset{xs[k]}
  {
    assert xs == xs[..k] + [xs[k]] + xs[k + 1..];
  }

  lemma Rearranged<T(!new)>(xs: seq<T>, ys: seq<T>)
    requires multiset(xs) == multiset(ys)
    ensures forall x :: x in xs <==> x in ys
    ensures Distinct(xs) <==> Distinct(ys)
  {
    forall x
      ensures x in xs <==> x in ys
    {
      assert x in xs <==> x in multiset(xs);
    }
    if Distinct(xs) {
      StaysDistinct(xs, ys);
    }
    if Distinct(ys) {
      StaysDistinct(ys, xs);
    }
  }

  /** Lists without repetition that have the same members are rearrangements. */
  lemma SameMembersRearranged<T(!new)>(xs: seq<T>, ys: seq<T>)
    requires Distinct(xs) && Distinct(ys) && forall x :: x in xs <==> x in ys
    ensures multiset(xs) == multiset(ys)
  {
    hide Distinct;
    DifferCounts(xs);
    DifferCounts(ys);
    forall x
      ensures multiset(xs)[x] == multiset(ys)[x]
    {
      assert x in xs <==> x in multiset(xs);
      assert x in ys <==> x in multiset(ys);
    }
  }

  /* ---- When an arrangement is the only one ---- */

  ghost predicate Tied<T(!new)>(less: Less<T>, a: T, b: T) {
    !less(a, b) && !less(b, a)
  }

  /** No two places tie. */
  ghost predicate Untied<T(!new)>(less: Less<T>, xs: seq<T>) {
    forall i, j :: 0 <= i < j < |xs| ==> !Tied(less, xs[i], xs[j])
  }

  lemma {:induction false} UntiedUnique<T(!new)>(less: Less<T>, xs: seq<T>, ys: seq<T>)
    requires Ordered(less, xs) && Untied(less, xs) && Ordered(less, ys) && multiset(xs) == multiset(ys)
    ensures xs == ys
    decreases |xs|
  {
    assert |multiset(xs)| == |xs| && |multiset(ys)| == |ys|;
    if xs == [] {
    } else {
      SameHead(less, xs, ys);
      TailOrdered(less, xs);
      TailOrdered(less, ys);
      hide Ordered, Untied;
      assert xs == [xs[0]] + xs[1..] && ys == [ys[0]] + ys[1..];
      assert multiset(xs[1..]) == multiset(xs) - multiset{xs[0]} == multiset(ys[1..]);
      UntiedUnique(less, xs[1..], ys[1..]);
    }
  }

  lemma TailOrdered<T(!new)>(less: Less<T>, xs: seq<T>)
    requires xs != [] && Ordered(less, xs)
    ensures Ordered(less, xs[1..]) && (Untied(less, xs) ==> Untied(less, xs[1..]))
  {
  }

  lemma SameHead<T(!new)>(less: Less<T>, xs: seq<T>, ys: seq<T>)
    requires Ordered(less, xs) && Untied(less, xs) && Ordered(less, ys) && multiset(xs) == multiset(ys)
    requires xs != [] && ys != []
    ensures xs[0] == ys[0]
  {
    assert xs[0] in multiset(ys) && ys[0] in multiset(xs);
    var i :| 0 <= i < |xs| && xs[i] == ys[0];
    var j :| 0 <= j < |ys| && ys[j] == xs[0];
    assert i > 0 ==> !Tied(less, xs[0], xs[i]);
  }

  /** xs with its places i and j exchanged. */
  ghost function Swapped<T>(xs: seq<T>, i: nat, j: nat): seq<T>
    requires i < |xs| && j < |xs|
  {
    xs[i := xs[j]][j := xs[i]]
  }

  /** Exchanging two places that tie keeps the order. */
  lemma SwapTied<T(!new)>(less: Less<T>, xs: seq<T>, i: nat, j: nat)
    requires WeakOrder(less) && Ordered(less, xs) && i < j < |xs| && Tied(less, xs[i], xs[j])
    ensures Ordered(less, Swapped(xs, i, j)) && multiset(Swapped(xs, i, j)) == multiset(xs)
  {
    var ys := Swapped(xs, i, j);
    forall a, b | 0 <= a < b < |ys|
      ensures !less(ys[b], ys[a])
    {
      TiedKeeps(less, xs[a], xs[b], ys[a], ys[b]);
    }
  }

  lemma TiedKeeps<T(!new)>(less: Less<T>, a: T, b: T, c: T, d: T)
    requires WeakOrder(less) && !less(b, a) && (a == c || Tied(less, a, c)) && (b == d || Tied(less, b, d))
    ensures !less(d, c)
  {
    assert !less(b, c);
  }

  /** An ordered list without repetition is the only arrangement of its elements exactly when none of them tie. */
  lemma OnlyArrangementIff<T(!new)>(less: Less<T>, xs: seq<T>)
    requires WeakOrder(less) && Ordered(less, xs) && Distinct(xs)
    ensures (forall ys :: multiset(ys) == multiset(xs) && Ordered(less, ys) ==> ys == xs) <==> Untied(less, xs)
  {
    hide WeakOrder, Ordered, Tied;
    if Untied(less, xs) {
      forall ys | multiset(ys) == multiset(xs) && Ordered(less, ys)
        ensures ys == xs
      {
        UntiedUnique(less, xs, ys);
      }
    } else {
      var i, j :| 0 <= i < j < |xs| && Tied(less, xs[i], xs[j]);
      SwapTied(less, xs, i, j);
      assert Swapped(xs, i, j)[i] != xs[i];
    }
  }

  /* ---- Stability ---- */

  /** Ties by less are broken by position. */
  predicate ByPosition<T>(less: Less<T>, pos: T -> int, a: T, b: T) {
    less(a, b) || (!less(b, a) && pos(a) < pos(b))
  }

  ghost predicate Rising<T(!new)>(pos: T -> int, xs: seq<T>) {
    forall i, j :: 0 <= i < j < |xs| ==> pos(xs[i]) < pos(xs[j])
  }

  lemma ByPositionWeak<T(!new)>(less: Less<T>, pos: T -> int)
    requires WeakOrder(less)
    ensures WeakOrder((a, b) => ByPosition(less, pos, a, b))
  {
  }

  lemma {:induction false} InsertByPosition<T(!new)>(less: Less<T>, pos: T -> int, x: T, xs: seq<T>)
    requires WeakOrder(less) && forall i :: 0 <= i < |xs| ==> pos(x) < pos(xs[i])
    ensures InsertBy(less, x, xs) == InsertBy((a, b) => ByPosition(less, pos, a, b), x, xs)
  {
    if xs == [] {
    } else {
      InsertByPosition(less, pos, x, xs[1..]);
    }
  }

  lemma {:induction false} SortByPosition<T(!new)>(less: Less<T>, pos: T -> int, xs: seq<T>)
    requires WeakOrder(less) && Rising(pos, xs)
    ensures SortBy(less, xs) == SortBy((a, b) => ByPosition(less, pos, a, b), xs)
  {
    if xs == [] {
    } else {
      SortByPosition(less, pos, xs[1..]);
      var tail := SortBy(less, xs[1..]);
      forall i | 0 <= i < |tail|
        ensures pos(xs[0]) < pos(tail[i])
      {
        assert tail[i] in multiset(tail);
        assert tail[i] in xs[1..];
      }
      InsertByPosition(less, pos, xs[0], tail);
    }
  }

  /** The sort is stable: elements that tie keep the order they came in. */
  lemma SortStable<T(!new)>(less: Less<T>, pos: T -> int, xs: seq<T>)
    requires WeakOrder(less) && Rising(pos, xs)
    ensures Ordered((a, b) => ByPosition(less, pos, a, b), SortBy(less, xs))
  {
    SortByPosition(less, pos, xs);
    ByPositionWeak(less, pos);
    SortOrdered((a, b) => ByPosition(less, pos, a, b), xs);
  }
}
