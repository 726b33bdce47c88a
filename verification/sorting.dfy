/** Sorting of identifier lists, standing for the sort package of the Go library. */
module Sorting {
  import opened Ids
  import Orders

  ghost predicate Sorted(xs: seq<Id>) {
    forall i, j :: 0 <= i < j < |xs| ==> xs[i] <= xs[j]
  }

  /** A head no larger than any element keeps a sorted list sorted. */
  lemma ConsSorted(h: Id, tail: seq<Id>, bag: multiset<Id>)
    requires Sorted(tail) && multiset(tail) == bag
    requires forall y :: y in bag ==> h <= y
    ensures Sorted([h] + tail)
  {
    forall j | 0 <= j < |tail|
      ensures h <= tail[j]
    {
      var y := tail[j];
      assert y in multiset(tail);
    }
  }

  lemma BoundedBelow(xs: seq<Id>, h: Id)
    requires forall i :: 0 <= i < |xs| ==> h <= xs[i]
    ensures forall y :: y in multiset(xs) ==> h <= y
  {
  }

  function Insert(x: Id, xs: seq<Id>): (r: seq<Id>)
    requires Sorted(xs)
    ensures Sorted(r) && multiset(r) == multiset(xs) + multiset{x}
  {
    if xs == [] then [x]
    else
      assert xs == [xs[0]] + xs[1..];
      if x <= xs[0] then [x] + xs
      else
        var tail := Insert(x, xs[1..]);
        BoundedBelow(xs[1..], xs[0]);
        ConsSorted(xs[0], tail, multiset(xs[1..]) + multiset{x});
        [xs[0]] + tail
  }

  /** The ascending arrangement of xs. */
  function SortIds(xs: seq<Id>): (r: seq<Id>)
    ensures Sorted(r) && multiset(r) == multiset(xs)
  {
    if xs == [] then [] else
      assert xs == [xs[0]] + xs[1..];
      Insert(xs[0], SortIds(xs[1..]))
  }

  /** Membership is what a sort preserves. */
  lemma SameElements(xs: seq<Id>, ys: seq<Id>, x: Id)
    requires multiset(xs) == multiset(ys)
    ensures x in xs <==> x in ys
  {
    assert x in xs <==> x in multiset(xs);
    assert x in ys <==> x in multiset(ys);
  }

  lemma TailMultiset(xs: seq<Id>)
    requires xs != []
    ensures multiset(xs[1..]) == multiset(xs) - multiset{xs[0]}
  {
    assert xs == [xs[0]] + xs[1..];
  }

  /** Sorted lists with the same elements are equal, so sorting forgets the input order. */
  lemma {:induction false} SortedUnique(xs: seq<Id>, ys: seq<Id>)
    requires Sorted(xs) && Sorted(ys) && multiset(xs) == multiset(ys)
    ensures xs == ys
  {
    if xs == [] {
      assert |multiset(ys)| == 0;
    } else {
      SameElements(xs, ys, xs[0]);
      assert ys != [] by { assert xs[0] in ys; }
      SameElements(xs, ys, ys[0]);
      var i :| 0 <= i < |ys| && ys[i] == xs[0];
      var j :| 0 <= j < |xs| && xs[j] == ys[0];
      assert xs[0] == ys[0];
      TailMultiset(xs);
      TailMultiset(ys);
      SortedUnique(xs[1..], ys[1..]);
    }
  }

  /** In a sorted list without repetition every step is strict. */
  lemma SortDistinct(xs: seq<Id>)
    requires Orders.Distinct(xs)
    ensures Orders.Distinct(SortIds(xs))
    ensures forall i, j :: 0 <= i < j < |SortIds(xs)| ==> SortIds(xs)[i] < SortIds(xs)[j]
  {
    hide SortIds;
    var sorted := SortIds(xs);
    Orders.StaysDistinct(xs, sorted);
    forall i, j | 0 <= i < j < |sorted|
      ensures sorted[i] < sorted[j]
    {
      assert sorted[i] != sorted[j];
    }
  }

  lemma SortMembers(xs: seq<Id>)
    ensures forall x :: x in SortIds(xs) <==> x in xs
  {
    forall x
      ensures x in SortIds(xs) <==> x in xs
    {
      SameElements(SortIds(xs), xs, x);
    }
  }
}
