/** Deduplicated lists: the first occurrence of each element, in order, a blank one left out. */
module FirstOccurrences {
  import Orders

  /** First occurrences in order, blanks dropped. */
  function Firsts<T(==, !new)>(blank: T, xs: seq<T>): (r: seq<T>)
    ensures Orders.Distinct(r) && forall s :: s in r <==> s != blank && s in xs
  {
    if xs == [] then []
    else
      var front, last := Firsts(blank, xs[..|xs| - 1]), xs[|xs| - 1];
      assert xs == xs[..|xs| - 1] + [last];
      if last == blank || last in front then front else front + [last]
  }

  /** x occurs in xs at a place before which y does not. */
  ghost predicate OccursFirst<T>(xs: seq<T>, x: T, y: T) {
    exists k :: 0 <= k < |xs| && xs[k] == x && y !in xs[..k]
  }

  /** The list is in order of first occurrence. */
  lemma {:induction false} FirstsInOrder<T(!new)>(blank: T, xs: seq<T>, i: nat, j: nat)
    requires i < j < |Firsts(blank, xs)|
    ensures OccursFirst(xs, Firsts(blank, xs)[i], Firsts(blank, xs)[j])
  {
    var init, last := xs[..|xs| - 1], xs[|xs| - 1];
    var front := Firsts(blank, init);
    assert xs == init + [last];
    if j < |front| {
      FirstsInOrder(blank, init, i, j);
      var k :| 0 <= k < |init| && init[k] == front[i] && front[j] !in init[..k];
      assert xs[k] == front[i] && xs[..k] == init[..k];
    } else {
      assert front[i] in init;
      var k :| 0 <= k < |init| && init[k] == front[i];
      assert xs[k] == front[i] && last !in init;
      assert forall p :: 0 <= p < k ==> xs[..k][p] == init[p] && init[p] in init;
    }
  }
}
