/**
  Repeated sweeps over the nodes of a graph, for any rule that relabels one node at a time
  and any order in which every change is an improvement. Both detectors are instances.
*/
module Sweeps {
  import opened Ids
  import opened Sums
  import opened Modularity

  type Rule = (Labels, Id) -> Labels
  type Order = (Labels, Labels) -> bool

  /** Each visit relabels within ids, and either does nothing or improves strictly. */
  ghost predicate Improving(ids: set<Id>, visit: Rule, better: Order) {
    && (forall c, v :: IsLabelling(ids, c) && v in ids ==>
      IsLabelling(ids, visit(c, v)) && (visit(c, v) == c || better(visit(c, v), c)))
    && StrictOrder(better)
  }

  ghost predicate StrictOrder(better: Order) {
    && (forall c :: !better(c, c))
    && (forall a, b, c :: better(a, b) && better(b, c) ==> better(a, c))
  }

  ghost predicate Covers(order: seq<Id>, ids: set<Id>) {
    && (forall i :: 0 <= i < |order| ==> order[i] in ids)
    && (forall v :: v in ids ==> v in order)
  }

  /** The labelling after the first n visits of a sweep. */
  ghost function Sweep(visit: Rule, c: Labels, order: seq<Id>, n: nat): Labels
    requires n <= |order|
  {
    if n == 0 then c else visit(Sweep(visit, c, order, n - 1), order[n - 1])
  }

  /** The labelling after n sweeps. */
  ghost function Rounds(visit: Rule, c: Labels, order: seq<Id>, n: nat): Labels {
    if n == 0 then c else Sweep(visit, Rounds(visit, c, order, n - 1), order, |order|)
  }

  ghost predicate Settled(ids: set<Id>, visit: Rule, c: Labels) {
    forall v :: v in ids ==> visit(c, v) == c
  }

  ghost predicate SameOrBetter(better: Order, c: Labels, d: Labels) {
    c == d || better(c, d)
  }

  lemma OneVisit(ids: set<Id>, visit: Rule, better: Order, c: Labels, v: Id)
    requires Improving(ids, visit, better) && IsLabelling(ids, c) && v in ids
    ensures IsLabelling(ids, visit(c, v)) && SameOrBetter(better, visit(c, v), c)
  {
    hide IsLabelling, StrictOrder;
  }

  lemma BetterChains(ids: set<Id>, visit: Rule, better: Order, a: Labels, b: Labels, c: Labels)
    requires Improving(ids, visit, better) && SameOrBetter(better, a, b) && SameOrBetter(better, b, c)
    ensures SameOrBetter(better, a, c)
    ensures a == c ==> b == c
  {
    hide IsLabelling;
  }

  lemma CoveredAt(order: seq<Id>, ids: set<Id>, n: nat)
    requires Covers(order, ids) && n < |order|
    ensures order[n] in ids
  {
  }

  lemma {:induction false} SweepImproves(ids: set<Id>, visit: Rule, better: Order, c: Labels, order: seq<Id>, m: nat,
                                         n: nat)
    requires Improving(ids, visit, better) && IsLabelling(ids, c) && Covers(order, ids)
    requires m <= n <= |order|
    ensures IsLabelling(ids, Sweep(visit, c, order, n))
    ensures SameOrBetter(better, Sweep(visit, c, order, n), Sweep(visit, c, order, m))
    decreases n
  {
    hide Improving, IsLabelling, Covers;
    if n == 0 {
    } else {
      SweepImproves(ids, visit, better, c, order, if m < n then m else n - 1, n - 1);
      var before := Sweep(visit, c, order, n - 1);
      CoveredAt(order, ids, n - 1);
      OneVisit(ids, visit, better, before, order[n - 1]);
      if m < n {
        BetterChains(ids, visit, better, Sweep(visit, c, order, n), before, Sweep(visit, c, order, m));
      }
    }
  }

  /** Every later labelling of a run equals the present one or improves on it. */
  lemma {:induction false} RoundsImprove(ids: set<Id>, visit: Rule, better: Order, c: Labels, order: seq<Id>, m: nat,
                                         n: nat)
    requires Improving(ids, visit, better) && IsLabelling(ids, c) && Covers(order, ids)
    requires m <= n
    ensures IsLabelling(ids, Rounds(visit, c, order, n))
    ensures SameOrBetter(better, Rounds(visit, c, order, n), Rounds(visit, c, order, m))
    decreases n
  {
    hide Improving, IsLabelling, Covers, Sweep;
    if n == 0 {
    } else {
      RoundsImprove(ids, visit, better, c, order, if m < n then m else n - 1, n - 1);
      var before := Rounds(visit, c, order, n - 1);
      SweepImproves(ids, visit, better, before, order, 0, |order|);
      NoVisits(visit, before, order);
      if m < n {
        BetterChains(ids, visit, better, Rounds(visit, c, order, n), before, Rounds(visit, c, order, m));
      }
    }
  }

  lemma NoVisits(visit: Rule, c: Labels, order: seq<Id>)
    ensures Sweep(visit, c, order, 0) == c
  {
  }

  /** A sweep that ends where it began moved nothing on the way. */
  lemma {:induction false} StillSweep(ids: set<Id>, visit: Rule, better: Order, c: Labels, order: seq<Id>, n: nat)
    requires Improving(ids, visit, better) && IsLabelling(ids, c) && Covers(order, ids)
    requires n <= |order| && Sweep(visit, c, order, |order|) == c
    ensures Sweep(visit, c, order, n) == c
  {
    hide Improving, IsLabelling, Covers, Sweep;
    NoVisits(visit, c, order);
    SweepImproves(ids, visit, better, c, order, 0, n);
    SweepImproves(ids, visit, better, c, order, n, |order|);
    BetterChains(ids, visit, better, c, Sweep(visit, c, order, n), c);
  }

  /** The fixpoints of a sweep are the labellings no visit changes. */
  lemma {:induction false} FixpointIffSettled(ids: set<Id>, visit: Rule, better: Order, c: Labels, order: seq<Id>)
    requires Improving(ids, visit, better) && IsLabelling(ids, c) && Covers(order, ids)
    ensures Sweep(visit, c, order, |order|) == c <==> Settled(ids, visit, c)
  {
    hide Improving, IsLabelling;
    if Sweep(visit, c, order, |order|) == c {
      forall v | v in ids
        ensures visit(c, v) == c
      {
        var i :| 0 <= i < |order| && order[i] == v;
        StillSweep(ids, visit, better, c, order, i);
        StillSweep(ids, visit, better, c, order, i + 1);
      }
    }
    if Settled(ids, visit, c) {
      SettledSweep(ids, visit, c, order, |order|);
    }
  }

  lemma {:induction false} SettledSweep(ids: set<Id>, visit: Rule, c: Labels, order: seq<Id>, n: nat)
    requires Settled(ids, visit, c) && Covers(order, ids) && n <= |order|
    ensures Sweep(visit, c, order, n) == c
  {
    if n == 0 {
    } else {
      SettledSweep(ids, visit, c, order, n - 1);
      var v := order[n - 1];
      assert visit(c, v) == c;
    }
  }

  /* ---- Termination without an iteration cap ---- */

  /** The finitely many maps from dom into ran. */
  ghost function Labellings(dom: set<Id>, ran: set<Id>): set<Labels> {
    if dom == {} then {map[]}
    else set m, k | m in Labellings(dom - {Pick(dom)}, ran) && k in ran :: m[Pick(dom) := k]
  }

  lemma {:induction false} LabellingsComplete(dom: set<Id>, ran: set<Id>, c: Labels)
    requires c.Keys == dom && forall i :: i in dom ==> c[i] in ran
    ensures c in Labellings(dom, ran)
    decreases dom
  {
    if dom == {} {
      assert c == map[];
    } else {
      var x := Pick(dom);
      var rest := map i | i in dom - {x} :: c[i];
      LabellingsComplete(dom - {x}, ran, rest);
      assert rest[x := c[x]] == c;
      var k := c[x];
      assert rest[x := k] in (set m, k | m in Labellings(dom - {x}, ran) && k in ran :: m[x := k]);
    }
  }

  ghost predicate Moves(visit: Rule, c: Labels, order: seq<Id>, m: nat) {
    Rounds(visit, c, order, m + 1) != Rounds(visit, c, order, m)
  }

  ghost function History(visit: Rule, c: Labels, order: seq<Id>, n: nat): set<Labels> {
    if n == 0 then {c} else History(visit, c, order, n - 1) + {Rounds(visit, c, order, n)}
  }

  lemma {:induction false} HistoryIsRounds(visit: Rule, c: Labels, order: seq<Id>, n: nat, h: Labels)
    requires h in History(visit, c, order, n)
    ensures exists m: nat :: m <= n && h == Rounds(visit, c, order, m)
  {
    if h == Rounds(visit, c, order, n) {
    } else {
      HistoryIsRounds(visit, c, order, n - 1, h);
    }
  }

  lemma {:induction false} LastIsNew(ids: set<Id>, visit: Rule, better: Order, c: Labels, order: seq<Id>, n: nat)
    requires Improving(ids, visit, better) && IsLabelling(ids, c) && Covers(order, ids)
    requires n > 0 && Moves(visit, c, order, n - 1)
    ensures Rounds(visit, c, order, n) !in History(visit, c, order, n - 1)
  {
    hide Improving, IsLabelling, Covers, Rounds, History;
    var last, before := Rounds(visit, c, order, n), Rounds(visit, c, order, n - 1);
    RoundsImprove(ids, visit, better, c, order, n - 1, n);
    if last in History(visit, c, order, n - 1) {
      HistoryIsRounds(visit, c, order, n - 1, last);
      var m: nat :| m <= n - 1 && last == Rounds(visit, c, order, m);
      RoundsImprove(ids, visit, better, c, order, m, n - 1);
      BetterChains(ids, visit, better, last, before, last);
      assert false;
    }
  }

  /** As long as every sweep moves a node, all labellings seen are different. */
  lemma {:induction false} HistoryGrows(ids: set<Id>, visit: Rule, better: Order, c: Labels, order: seq<Id>, n: nat)
    requires Improving(ids, visit, better) && IsLabelling(ids, c) && Covers(order, ids)
    requires forall m: nat :: m < n ==> Moves(visit, c, order, m)
    ensures |History(visit, c, order, n)| == n + 1
  {
    hide Improving, IsLabelling, Covers, Rounds;
    if n == 0 {
    } else {
      HistoryGrows(ids, visit, better, c, order, n - 1);
      LastIsNew(ids, visit, better, c, order, n);
    }
  }

  lemma {:induction false} HistoryBounded(ids: set<Id>, visit: Rule, better: Order, c: Labels, order: seq<Id>, n: nat,
                                          all: set<Labels>)
    requires Improving(ids, visit, better) && IsLabelling(ids, c) && Covers(order, ids)
    requires forall d :: IsLabelling(ids, d) ==> d in all
    ensures History(visit, c, order, n) <= all
  {
    hide Improving, IsLabelling, Covers;
    RoundsImprove(ids, visit, better, c, order, n, n);
    if n == 0 {
    } else {
      HistoryBounded(ids, visit, better, c, order, n - 1, all);
    }
  }

  lemma {:induction false} FixpointPersists(visit: Rule, c: Labels, order: seq<Id>, m: nat, n: nat)
    requires m <= n && Rounds(visit, c, order, m + 1) == Rounds(visit, c, order, m)
    ensures Rounds(visit, c, order, n) == Rounds(visit, c, order, m)
    decreases n
  {
    if m < n {
      FixpointPersists(visit, c, order, m, n - 1);
    }
  }

  lemma AllLabellings(ids: set<Id>)
    ensures forall d :: IsLabelling(ids, d) ==> d in Labellings(ids, ids)
  {
    forall d | IsLabelling(ids, d)
      ensures d in Labellings(ids, ids)
    {
      LabellingsComplete(ids, ids, d);
    }
  }

  /**
    No labelling recurs before the sweeps settle, so they settle within as many rounds as
    there are labellings, and any larger cap gives the same result.
  */
  lemma {:induction false} SweepsTerminate(ids: set<Id>, visit: Rule, better: Order, c: Labels, order: seq<Id>, n: nat)
    requires Improving(ids, visit, better) && IsLabelling(ids, c) && Covers(order, ids)
    requires n >= |Labellings(ids, ids)|
    ensures Settled(ids, visit, Rounds(visit, c, order, n))
    ensures Rounds(visit, c, order, n) == Rounds(visit, c, order, |Labellings(ids, ids)|)
  {
    hide Improving, IsLabelling, Covers, Labellings, History, Settled;
    var bound := |Labellings(ids, ids)|;
    if forall m: nat :: m < bound ==> Moves(visit, c, order, m) {
      HistoryGrows(ids, visit, better, c, order, bound);
      AllLabellings(ids);
      HistoryBounded(ids, visit, better, c, order, bound, Labellings(ids, ids));
      SubsetSize(History(visit, c, order, bound), Labellings(ids, ids));
      assert false;
    }
    var m: nat :| m < bound && !Moves(visit, c, order, m);
    FixpointPersists(visit, c, order, m, bound);
    FixpointPersists(visit, c, order, m, n);
    RoundsImprove(ids, visit, better, c, order, 0, m);
    FixpointIffSettled(ids, visit, better, Rounds(visit, c, order, m), order);
  }

  /* ---- Under an iteration cap ---- */

  /** Every labelling of the chain improves on the one before. */
  ghost predicate Climbs(better: Order, chain: seq<Labels>) {
    forall k :: 0 <= k < |chain| - 1 ==> better(chain[k + 1], chain[k])
  }

  /** n sweeps from c to d each of which improved the labelling. */
  ghost predicate ClimbsTo(better: Order, c: Labels, d: Labels, n: nat) {
    exists chain :: |chain| == n + 1 && chain[0] == c && chain[n] == d && Climbs(better, chain)
  }

  /** Sweeps under a cap of n either end settled or have improved the labelling n times. */
  lemma {:induction false} SettledOrClimbs(ids: set<Id>, visit: Rule, better: Order, c: Labels, order: seq<Id>, n: nat)
    requires Improving(ids, visit, better) && IsLabelling(ids, c) && Covers(order, ids)
    ensures IsLabelling(ids, Rounds(visit, c, order, n))
    ensures Settled(ids, visit, Rounds(visit, c, order, n)) || ClimbsTo(better, c, Rounds(visit, c, order, n), n)
  {
    hide Improving, IsLabelling, Covers, Settled, Rounds, Sweep;
    RoundsImprove(ids, visit, better, c, order, 0, n);
    if m: nat :| m < n && !Moves(visit, c, order, m) {
      FixpointPersists(visit, c, order, m, n);
      SettledAt(ids, visit, better, c, order, m);
    } else {
      var chain := seq(n + 1, k requires 0 <= k < n + 1 => Rounds(visit, c, order, k));
      forall k | 0 <= k < |chain| - 1
        ensures better(chain[k + 1], chain[k])
      {
        RoundsImprove(ids, visit, better, c, order, k, k + 1);
        assert Moves(visit, c, order, k);
      }
      assert chain[0] == c by {
        NoRounds(visit, c, order);
      }
      assert Climbs(better, chain);
    }
  }

  lemma NoRounds(visit: Rule, c: Labels, order: seq<Id>)
    ensures Rounds(visit, c, order, 0) == c
  {
  }

  lemma SettledAt(ids: set<Id>, visit: Rule, better: Order, c: Labels, order: seq<Id>, m: nat)
    requires Improving(ids, visit, better) && IsLabelling(ids, c) && Covers(order, ids)
    requires !Moves(visit, c, order, m)
    ensures Settled(ids, visit, Rounds(visit, c, order, m))
  {
    hide Improving, IsLabelling, Covers, Settled;
    RoundsImprove(ids, visit, better, c, order, 0, m);
    FixpointIffSettled(ids, visit, better, Rounds(visit, c, order, m), order);
  }

  /** A run that ends where it began, after a sweep at least, began settled. */
  lemma {:induction false} BackSettled(ids: set<Id>, visit: Rule, better: Order, c: Labels, order: seq<Id>, n: nat)
    requires Improving(ids, visit, better) && IsLabelling(ids, c) && Covers(order, ids)
    requires n >= 1 && Rounds(visit, c, order, n) == c
    ensures Settled(ids, visit, c)
  {
    hide Improving, IsLabelling, Covers, Settled, Rounds, Sweep;
    NoRounds(visit, c, order);
    RoundsImprove(ids, visit, better, c, order, 0, 1);
    RoundsImprove(ids, visit, better, c, order, 1, n);
    BetterChains(ids, visit, better, c, Rounds(visit, c, order, 1), c);
    assert !Moves(visit, c, order, 0);
    SettledAt(ids, visit, better, c, order, 0);
  }
}
