/**
  The local-move phase of Louvain as a function of the labelling, and why it improves,
  cannot cycle, and stops at a stable labelling.
*/
module LouvainMoves {
  import opened Ids
  import opened Sums
  import opened Modularity
  import opened Sweeps

  /** A working graph together with the resolution of the detector. */
  datatype Net = Net(ids: set<Id>, adj: Adjacency, resolution: real)

  ghost predicate Valid(net: Net) {
    IsGraph(net.ids, net.adj) && TotalWeight(net.ids, net.adj) != 0.0
  }

  ghost function Q(net: Net): Labels -> real {
    (c: Labels) => Quality(net.ids, net.adj, net.resolution, c)
  }

  /** Gain of inserting the isolated node v into each community. */
  ghost function Gains(net: Net, c: Labels, v: Id): Id -> real {
    (k: Id) => Pull(net.ids, c, Bond(net.ids, net.adj, net.resolution), v, k)
  }

  /** The node's own community and those of its neighbours. */
  function Candidates(adj: Adjacency, c: Labels, v: Id): (cands: set<Id>) {
    {At(c, v)} + if v in adj then set j | j in adj[v] && j != v :: At(c, j) else {}
  }

  /**
    The outcome of the candidate scan: the largest gain, never below zero, and among the
    communities reaching it the smallest key; the current one stands in for gain zero.
  */
  ghost predicate IsChoice(cands: set<Id>, gains: Id -> real, cur: Id, best: Id, gain: real) {
    && gain >= 0.0
    && (forall k :: k in cands ==> gains(k) < gain || (gains(k) == gain && best <= k))
    && (gain == 0.0 ==> best <= cur)
    && ((best in cands && gains(best) == gain) || (best == cur && gain == 0.0))
  }

  ghost function Scan(cands: set<Id>, gains: Id -> real, cur: Id): (r: (Id, real))
    ensures IsChoice(cands, gains, cur, r.0, r.1)
    decreases cands
  {
    if cands == {} then (cur, 0.0)
    else
      var k := Pick(cands);
      var (best, gain) := Scan(cands - {k}, gains, cur);
      if gains(k) > gain || (gains(k) == gain && k < best) then (k, gains(k)) else (best, gain)
  }

  lemma ChoiceUnique(cands: set<Id>, gains: Id -> real, cur: Id, b: Id, g: real, b': Id, g': real)
    requires IsChoice(cands, gains, cur, b, g) && IsChoice(cands, gains, cur, b', g')
    ensures b == b' && g == g'
  {
  }

  ghost function Choice(net: Net, c: Labels, v: Id): (best: Id)
    ensures exists gain :: IsChoice(Candidates(net.adj, c, v), Gains(net, c, v), At(c, v), best, gain)
  {
    Scan(Candidates(net.adj, c, v), Gains(net, c, v), At(c, v)).0
  }

  /** The visit of one node: it is taken out and put into the chosen community. */
  ghost function Visit(net: Net): Rule {
    (c: Labels, v: Id) => c[v := Choice(net, c, v)]
  }

  /** Every node prefers its own community: no alternative beats max(0, own gain). */
  ghost predicate Content(net: Net, c: Labels, v: Id) {
    var own := Gains(net, c, v)(At(c, v));
    var bar := if own > 0.0 then own else 0.0;
    forall k :: k in Candidates(net.adj, c, v) ==>
      Gains(net, c, v)(k) < bar || (Gains(net, c, v)(k) == bar && At(c, v) <= k)
  }

  /* ---- Improvement ---- */

  ghost predicate Below(ids: set<Id>, c: Labels, d: Labels) {
    && (forall i :: i in ids ==> At(c, i) <= At(d, i))
    && (exists i :: i in ids && At(c, i) < At(d, i))
  }

  /** Higher potential, or the same potential with smaller keys. */
  ghost function Better(ids: set<Id>, q: Labels -> real): Order {
    (c: Labels, d: Labels) => q(c) > q(d) || (q(c) == q(d) && Below(ids, c, d))
  }

  lemma BelowTransitive(ids: set<Id>, a: Labels, b: Labels, c: Labels)
    requires Below(ids, a, b) && Below(ids, b, c)
    ensures Below(ids, a, c)
  {
    var i :| i in ids && At(a, i) < At(b, i);
    assert At(a, i) < At(c, i);
  }

  lemma BetterIsStrictOrder(ids: set<Id>, q: Labels -> real)
    ensures StrictOrder(Better(ids, q))
  {
    forall c
      ensures !Better(ids, q)(c, c)
    {
      assert !Below(ids, c, c);
    }
    forall a, b, c | Better(ids, q)(a, b) && Better(ids, q)(b, c)
      ensures Better(ids, q)(a, c)
    {
      if q(a) == q(c) {
        BelowTransitive(ids, a, b, c);
      }
    }
  }

  lemma {:induction false} VisitLabels(net: Net, c: Labels, v: Id)
    requires IsGraph(net.ids, net.adj) && IsLabelling(net.ids, c) && v in net.ids
    ensures Choice(net, c, v) in net.ids
  {
    hide Gains, Choice;
    var gain :| IsChoice(Candidates(net.adj, c, v), Gains(net, c, v), At(c, v), Choice(net, c, v), gain);
    assert Candidates(net.adj, c, v) <= net.ids;
  }

  /** A move raises modularity by twice the gain difference, which the scan makes >= 0. */
  lemma {:induction false} MoveImproves(net: Net, c: Labels, v: Id)
    requires Valid(net) && IsLabelling(net.ids, c) && v in net.ids && Choice(net, c, v) != c[v]
    ensures Q(net)(c[v := Choice(net, c, v)]) > Q(net)(c)
      || (Q(net)(c[v := Choice(net, c, v)]) == Q(net)(c) && Choice(net, c, v) < c[v])
  {
    hide Agreement, Pull, Bond, Choice, IsGraph;
    var best, bond := Choice(net, c, v), Bond(net.ids, net.adj, net.resolution);
    var gain :| IsChoice(Candidates(net.adj, c, v), Gains(net, c, v), At(c, v), best, gain);
    BondSymmetric(net.ids, net.adj, net.resolution);
    MoveDelta(net.ids, c, bond, v, best);
    assert c[v] in Candidates(net.adj, c, v);
    assert Gains(net, c, v)(c[v]) == Pull(net.ids, c, bond, v, c[v]);
    assert Gains(net, c, v)(best) == Pull(net.ids, c, bond, v, best);
  }

  lemma {:induction false} VisitImproves(net: Net, c: Labels, v: Id)
    requires Valid(net) && IsLabelling(net.ids, c) && v in net.ids
    ensures IsLabelling(net.ids, Visit(net)(c, v))
    ensures Visit(net)(c, v) == c || Better(net.ids, Q(net))(Visit(net)(c, v), c)
  {
    hide Q, Choice, IsGraph, TotalWeight, Candidates, Gains, IsChoice;
    var best, d := Choice(net, c, v), Visit(net)(c, v);
    VisitLabels(net, c, v);
    assert d == c[v := best] && d.Keys == net.ids;
    if best == c[v] {
      assert d == c;
    } else {
      MoveImproves(net, c, v);
      assert Q(net)(d) == Q(net)(c) ==> At(d, v) < At(c, v) && Below(net.ids, d, c);
    }
  }

  /** Each move strictly raises modularity, or keeps it and gives the node a smaller key. */
  lemma {:induction false} VisitsImprove(net: Net)
    requires Valid(net)
    ensures Improving(net.ids, Visit(net), Better(net.ids, Q(net)))
  {
    hide Q, Visit, Better, IsGraph, TotalWeight, IsLabelling, StrictOrder;
    BetterIsStrictOrder(net.ids, Q(net));
    forall c, v | IsLabelling(net.ids, c) && v in net.ids
      ensures IsLabelling(net.ids, Visit(net)(c, v))
      ensures Visit(net)(c, v) == c || Better(net.ids, Q(net))(Visit(net)(c, v), c)
    {
      VisitImproves(net, c, v);
    }
  }

  /* ---- Stability ---- */

  /** A visit keeps v where it is exactly when no candidate beats v's bar. */
  lemma {:induction false} StaysIffContent(net: Net, c: Labels, v: Id)
    ensures Choice(net, c, v) == At(c, v) <==> Content(net, c, v)
  {
    hide Gains, Choice;
    var cands, gains, cur := Candidates(net.adj, c, v), Gains(net, c, v), At(c, v);
    var gain :| IsChoice(cands, gains, cur, Choice(net, c, v), gain);
    assert cur in cands;
    if Content(net, c, v) {
      ChoiceUnique(cands, gains, cur, Choice(net, c, v), gain, cur, if gains(cur) > 0.0 then gains(cur) else 0.0);
    }
  }

  /** The sweeps settle within a bounded number of rounds, in a labelling no node wants to leave. */
  lemma {:induction false} LouvainSettles(net: Net, c: Labels, order: seq<Id>, n: nat)
    requires Valid(net) && IsLabelling(net.ids, c) && Covers(order, net.ids)
    requires n >= |Labellings(net.ids, net.ids)|
    ensures forall v :: v in net.ids ==> Content(net, Rounds(Visit(net), c, order, n), v)
    ensures Rounds(Visit(net), c, order, n) == Rounds(Visit(net), c, order, |Labellings(net.ids, net.ids)|)
  {
    hide Q, Choice, Content, IsGraph, TotalWeight;
    var d := Rounds(Visit(net), c, order, n);
    VisitsImprove(net);
    SweepsTerminate(net.ids, Visit(net), Better(net.ids, Q(net)), c, order, n);
    RoundsImprove(net.ids, Visit(net), Better(net.ids, Q(net)), c, order, 0, n);
    forall v | v in net.ids
      ensures Content(net, d, v)
    {
      assert Visit(net)(d, v) == d[v := Choice(net, d, v)];
      StaysIffContent(net, d, v);
    }
  }

  /** Modularity after any number of rounds is at least the initial one. */
  lemma {:induction false} RoundsRaiseQuality(net: Net, c: Labels, order: seq<Id>, n: nat)
    requires Valid(net) && IsLabelling(net.ids, c) && Covers(order, net.ids)
    ensures IsLabelling(net.ids, Rounds(Visit(net), c, order, n))
    ensures Q(net)(Rounds(Visit(net), c, order, n)) >= Q(net)(c)
  {
    hide Q, Visit;
    VisitsImprove(net);
    RoundsImprove(net.ids, Visit(net), Better(net.ids, Q(net)), c, order, 0, n);
  }
}
