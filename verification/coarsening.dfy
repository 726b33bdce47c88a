/** Collapsing every class of a partition into one node, and what that preserves. */
module Coarsening {
  import opened Ids
  import opened Sums
  import opened Modularity

  /** p sends every fine node to its super-node in P. */
  ghost predicate Maps(ids: set<Id>, p: Labels, P: set<Id>) {
    && (forall i :: i in ids ==> At(p, i) in P)
    && (forall c :: c in P ==> exists i :: i in ids && At(p, i) == c)
  }

  ghost function BlockMask(p: Labels, b: (Id, Id) -> real, c: Id, d: Id): (Id, Id) -> real {
    (i: Id, j: Id) => if At(p, i) == c && At(p, j) == d then b(i, j) else 0.0
  }

  /** The sum of b between the members of two super-nodes. */
  ghost function Block(ids: set<Id>, p: Labels, b: (Id, Id) -> real, c: Id, d: Id): real {
    Sum2(ids, ids, BlockMask(p, b, c, d))
  }

  ghost function Weights(adj: Adjacency): (Id, Id) -> real {
    (i: Id, j: Id) => Weight(adj, i, j)
  }

  /** The coarse adjacency aggregates the fine one block by block. */
  ghost predicate IsCoarse(ids: set<Id>, adj: Adjacency, p: Labels, P: set<Id>, coarse: Adjacency) {
    && Maps(ids, p, P)
    && coarse.Keys == P
    && (forall c :: c in P ==> coarse[c].Keys <= P)
    && (forall c, d :: Weight(coarse, c, d) == Block(ids, p, Weights(adj), c, d))
  }

  ghost function Compose(q: Labels, p: Labels): Labels {
    map i | i in p :: At(q, p[i])
  }

  /* ---- Summing block by block ---- */

  ghost function PartRow(p: Labels, b: (Id, Id) -> real, i: Id, d: Id): Id -> real {
    (j: Id) => if At(p, j) == d then b(i, j) else 0.0
  }

  /** h(i, d): the bonds of the fine node i to the members of d. */
  ghost function Part(ids: set<Id>, p: Labels, b: (Id, Id) -> real, i: Id, d: Id): real {
    Sum(ids, PartRow(p, b, i, d))
  }

  ghost function PartIn(ids: set<Id>, p: Labels, b: (Id, Id) -> real, c: Id, d: Id): Id -> real {
    (i: Id) => if At(p, i) == c then Part(ids, p, b, i, d) else 0.0
  }

  lemma {:induction false} BlockByRows(ids: set<Id>, p: Labels, b: (Id, Id) -> real, c: Id, d: Id)
    ensures Block(ids, p, b, c, d) == Sum(ids, PartIn(ids, p, b, c, d))
  {
    hide Sum;
    var mask := BlockMask(p, b, c, d);
    forall i | i in ids
      ensures Row(ids, mask)(i) == PartIn(ids, p, b, c, d)(i)
    {
      if At(p, i) == c {
        SumEq(ids, Slice(mask, i), PartRow(p, b, i, d));
      } else {
        SumZero(ids, Slice(mask, i));
      }
    }
    SumEq(ids, Row(ids, mask), PartIn(ids, p, b, c, d));
  }

  /** [q(c) == q(d)] * h(i, d), as a function of d. */
  ghost function Toward(ids: set<Id>, p: Labels, q: Labels, b: (Id, Id) -> real, i: Id, c: Id): Id -> real {
    (d: Id) => TowardAt(ids, p, q, b, i, c, d)
  }

  ghost function TowardAt(ids: set<Id>, p: Labels, q: Labels, b: (Id, Id) -> real, i: Id, c: Id, d: Id): real {
    if At(q, c) == At(q, d) then Part(ids, p, b, i, d) else 0.0
  }

  ghost function GroupMask(p: Labels, r: (Id, Id) -> real): (Id, Id) -> real {
    (c: Id, i: Id) => if At(p, i) == c then r(i, c) else 0.0
  }

  ghost function Alike(q: Labels, b: (Id, Id) -> real, i: Id, c: Id): (Id, Id) -> real {
    (j: Id, d: Id) => if At(q, c) == At(q, d) then b(i, j) else 0.0
  }

  lemma {:induction false} TowardRow(ids: set<Id>, p: Labels, q: Labels, b: (Id, Id) -> real, i: Id, c: Id, d: Id)
    ensures Toward(ids, p, q, b, i, c)(d) == Row(ids, GroupMask(p, Alike(q, b, i, c)))(d)
  {
    hide Sum;
    var masked := GroupMask(p, Alike(q, b, i, c));
    if At(q, c) == At(q, d) {
      SumEq(ids, Slice(masked, d), PartRow(p, b, i, d));
    } else {
      SumZero(ids, Slice(masked, d));
    }
  }

  /** Summing h(i, d) over the super-nodes d labelled like c sums b over their members. */
  lemma {:induction false} TowardMembers(ids: set<Id>, p: Labels, P: set<Id>, q: Labels, b: (Id, Id) -> real, i: Id)
    requires Maps(ids, p, P) && p.Keys == ids && i in ids
    ensures Sum(P, Toward(ids, p, q, b, i, At(p, i))) == Sum(ids, Slice(Masked(Compose(q, p), b), i))
  {
    hide Sum, Toward;
    var r := Alike(q, b, i, At(p, i));
    forall d | d in P
      ensures Toward(ids, p, q, b, i, At(p, i))(d) == Row(ids, GroupMask(p, r))(d)
    {
      TowardRow(ids, p, q, b, i, At(p, i), d);
    }
    SumEq(P, Toward(ids, p, q, b, i, At(p, i)), Row(ids, GroupMask(p, r)));
    var f := Slice(Masked(Compose(q, p), b), i);
    forall j | j in ids
      ensures f(j) == r(j, At(p, j))
    {
      assert At(Compose(q, p), j) == At(q, At(p, j)) && At(Compose(q, p), i) == At(q, At(p, i));
    }
    SumGroup(P, ids, (j: Id) => At(p, j), r, GroupMask(p, r), f);
  }

  ghost function OuterMask(ids: set<Id>, p: Labels, q: Labels, b: (Id, Id) -> real, c: Id): (Id, Id) -> real {
    (d: Id, i: Id) => if At(p, i) == c then TowardAt(ids, p, q, b, i, c, d) else 0.0
  }

  ghost function TowardSum(ids: set<Id>, p: Labels, P: set<Id>, q: Labels, b: (Id, Id) -> real): (Id, Id) -> real {
    (i: Id, c: Id) => Sum(P, Toward(ids, p, q, b, i, c))
  }

  /** One coarse row of the agreement, regrouped by the fine nodes of c. */
  lemma {:induction false} CoarseRow(ids: set<Id>, p: Labels, P: set<Id>, q: Labels, b: (Id, Id) -> real,
                                     big: (Id, Id) -> real, c: Id)
    requires forall d :: d in P ==> big(c, d) == Block(ids, p, b, c, d)
    ensures Sum(P, Slice(Masked(q, big), c)) == Sum(ids, Slice(GroupMask(p, TowardSum(ids, p, P, q, b)), c))
  {
    hide Sum, Block, Part;
    var outer := OuterMask(ids, p, q, b, c);
    forall d | d in P
      ensures Slice(Masked(q, big), c)(d) == Row(ids, outer)(d)
    {
      BlockByRows(ids, p, b, c, d);
      if At(q, c) == At(q, d) {
        SumEq(ids, Slice(outer, d), PartIn(ids, p, b, c, d));
      } else {
        SumZero(ids, Slice(outer, d));
      }
    }
    SumEq(P, Slice(Masked(q, big), c), Row(ids, outer));
    SumSwap(P, ids, outer);
    forall i | i in ids
      ensures Row(P, Flip(outer))(i) == Slice(GroupMask(p, TowardSum(ids, p, P, q, b)), c)(i)
    {
      if At(p, i) == c {
        SumEq(P, Slice(Flip(outer), i), Toward(ids, p, q, b, i, c));
      } else {
        SumZero(P, Slice(Flip(outer), i));
      }
    }
    SumEq(ids, Row(P, Flip(outer)), Slice(GroupMask(p, TowardSum(ids, p, P, q, b)), c));
  }

  /** Agreement of a coarse labelling is the agreement of the labelling it induces below. */
  lemma {:induction false} AgreementLifts(ids: set<Id>, p: Labels, P: set<Id>, q: Labels, b: (Id, Id) -> real,
                                          big: (Id, Id) -> real)
    requires Maps(ids, p, P) && p.Keys == ids
    requires forall c, d :: c in P && d in P ==> big(c, d) == Block(ids, p, b, c, d)
    ensures Agreement(P, q, big) == Agreement(ids, Compose(q, p), b)
  {
    hide Sum, Block, Masked, Toward, Compose;
    var r := TowardSum(ids, p, P, q, b);
    var masked, fine := GroupMask(p, r), Masked(Compose(q, p), b);
    forall c | c in P
      ensures Row(P, Masked(q, big))(c) == Row(ids, masked)(c)
    {
      CoarseRow(ids, p, P, q, b, big, c);
    }
    SumEq(P, Row(P, Masked(q, big)), Row(ids, masked));
    forall i | i in ids
      ensures Row(ids, fine)(i) == r(i, At(p, i))
    {
      TowardMembers(ids, p, P, q, b, i);
    }
    SumGroup(P, ids, (j: Id) => At(p, j), r, masked, Row(ids, fine));
  }

  /* ---- Degrees, total weight and bonds of the coarse graph ---- */

  lemma {:induction false} CoarseDegree(ids: set<Id>, adj: Adjacency, p: Labels, P: set<Id>, coarse: Adjacency, c: Id)
    requires IsCoarse(ids, adj, p, P, coarse) && p.Keys == ids && c in P
    ensures Degree(P, coarse, c) == Sum(ids, In(p, c, Degrees(ids, adj)))
  {
    hide Sum, Block, Part, Toward;
    var one: Labels := map d | d in P :: EMPTY_ID;
    var b, big := Weights(adj), Weights(coarse);
    forall d | d in P
      ensures Incident(coarse, c)(d) == Slice(Masked(one, big), c)(d)
    {
      assert At(one, d) == EMPTY_ID && At(one, c) == EMPTY_ID;
    }
    SumEq(P, Incident(coarse, c), Slice(Masked(one, big), c));
    CoarseRow(ids, p, P, one, b, big, c);
    forall i | i in ids
      ensures Slice(GroupMask(p, TowardSum(ids, p, P, one, b)), c)(i) == In(p, c, Degrees(ids, adj))(i)
    {
      if At(p, i) == c {
        TowardMembers(ids, p, P, one, b, i);
        forall j | j in ids
          ensures Slice(Masked(Compose(one, p), b), i)(j) == Incident(adj, i)(j)
        {
          assert At(Compose(one, p), j) == EMPTY_ID && At(Compose(one, p), i) == EMPTY_ID;
        }
        SumEq(ids, Slice(Masked(Compose(one, p), b), i), Incident(adj, i));
      }
    }
    SumEq(ids, Slice(GroupMask(p, TowardSum(ids, p, P, one, b)), c), In(p, c, Degrees(ids, adj)));
  }

  ghost function Constant(f: Id -> real): (Id, Id) -> real {
    (i: Id, c: Id) => f(i)
  }

  /** Coarsening keeps 2m. */
  lemma {:induction false} TotalWeightKept(ids: set<Id>, adj: Adjacency, p: Labels, P: set<Id>, coarse: Adjacency)
    requires IsCoarse(ids, adj, p, P, coarse) && p.Keys == ids
    ensures TotalWeight(P, coarse) == TotalWeight(ids, adj)
  {
    hide Sum, Block, Degree;
    var f := Degrees(ids, adj);
    var masked := GroupMask(p, Constant(f));
    forall c | c in P
      ensures Degrees(P, coarse)(c) == Row(ids, masked)(c)
    {
      CoarseDegree(ids, adj, p, P, coarse, c);
      SumEq(ids, In(p, c, f), Slice(masked, c));
    }
    SumEq(P, Degrees(P, coarse), Row(ids, masked));
    SumGroup(P, ids, (i: Id) => At(p, i), Constant(f), masked, f);
  }

  lemma {:induction false} GainOfSums(s: set<Id>, f: Id -> real, g: Id -> real, h: Id -> real, k: real, twoM: real,
                                      resolution: real)
    requires twoM != 0.0
    requires forall i :: i in s ==> h(i) == Gain(f(i), g(i), k, twoM, resolution)
    ensures Sum(s, h) == Gain(Sum(s, f), Sum(s, g), k, twoM, resolution)
    decreases s
  {
    if s == {} {
      GainZero(k, twoM, resolution);
      GainSymmetric(0.0, 0.0, k, twoM, resolution);
    } else {
      var x := Pick(s);
      GainOfSums(s - {x}, f, g, h, k, twoM, resolution);
      GainAdditiveLeft(f(x), Sum(s - {x}, f), g(x), Sum(s - {x}, g), k, twoM, resolution);
    }
  }

  /** h(i, d) for the modularity bond is the gain formula applied to block sums. */
  lemma {:induction false} PartIsGain(ids: set<Id>, adj: Adjacency, resolution: real, p: Labels, i: Id, d: Id)
    requires TotalWeight(ids, adj) != 0.0
    ensures Part(ids, p, Bond(ids, adj, resolution), i, d)
         == Gain(Part(ids, p, Weights(adj), i, d), Degree(ids, adj, i),
                 Sum(ids, In(p, d, Degrees(ids, adj))), TotalWeight(ids, adj), resolution)
  {
    hide Sum, Gain, TotalWeight, Degree;
    var bond := Bond(ids, adj, resolution);
    GainIsPull(ids, ids, adj, resolution, p, i, d);
    SumEq(ids, PartRow(p, bond, i, d), PullTerm(p, bond, i, d));
    SumEq(ids, PartRow(p, Weights(adj), i, d), In(p, d, Incident(adj, i)));
  }

  lemma GainOfNothing(k: real, twoM: real, resolution: real)
    requires twoM != 0.0
    ensures Gain(0.0, 0.0, k, twoM, resolution) == 0.0
  {
    GainZero(k, twoM, resolution);
    GainSymmetric(0.0, 0.0, k, twoM, resolution);
  }

  /** The coarse modularity bond is the block sum of the fine one. */
  lemma {:induction false} BondBlocks(ids: set<Id>, adj: Adjacency, resolution: real, p: Labels, P: set<Id>,
                                      coarse: Adjacency, c: Id, d: Id)
    requires IsCoarse(ids, adj, p, P, coarse) && p.Keys == ids && c in P && d in P
    ensures Bond(P, coarse, resolution)(c, d) == Block(ids, p, Bond(ids, adj, resolution), c, d)
  {
    hide Sum, Gain, Degree, TotalWeight, Block, Part;
    var bond, twoM := Bond(ids, adj, resolution), TotalWeight(ids, adj);
    TotalWeightKept(ids, adj, p, P, coarse);
    BlockByRows(ids, p, bond, c, d);
    if twoM == 0.0 {
      forall i | i in ids
        ensures PartIn(ids, p, bond, c, d)(i) == 0.0
      {
        NoBondNoPart(ids, adj, resolution, p, i, d);
      }
      SumZero(ids, PartIn(ids, p, bond, c, d));
    } else {
      CoarseDegree(ids, adj, p, P, coarse, c);
      CoarseDegree(ids, adj, p, P, coarse, d);
      BlockByRows(ids, p, Weights(adj), c, d);
      var k := Degree(P, coarse, d);
      var f, g, h := PartIn(ids, p, Weights(adj), c, d), In(p, c, Degrees(ids, adj)), PartIn(ids, p, bond, c, d);
      forall i | i in ids
        ensures h(i) == Gain(f(i), g(i), k, twoM, resolution)
      {
        PartIsGain(ids, adj, resolution, p, i, d);
        GainOfNothing(k, twoM, resolution);
      }
      GainOfSums(ids, f, g, h, k, twoM, resolution);
    }
  }

  lemma {:induction false} NoBondNoPart(ids: set<Id>, adj: Adjacency, resolution: real, p: Labels, i: Id, d: Id)
    requires TotalWeight(ids, adj) == 0.0
    ensures Part(ids, p, Bond(ids, adj, resolution), i, d) == 0.0
  {
    hide Sum, TotalWeight;
    SumZero(ids, PartRow(p, Bond(ids, adj, resolution), i, d));
  }

  /** The aggregated weights are again symmetric and non-negative. */
  lemma {:induction false} CoarseIsGraph(ids: set<Id>, adj: Adjacency, p: Labels, P: set<Id>, coarse: Adjacency)
    requires IsGraph(ids, adj) && IsCoarse(ids, adj, p, P, coarse)
    ensures IsGraph(P, coarse)
  {
    hide Sum;
    forall c, d
      ensures Weight(coarse, c, d) == Weight(coarse, d, c)
    {
      var mask := BlockMask(p, Weights(adj), c, d);
      SumSwap(ids, ids, mask);
      Sum2Eq(ids, ids, Flip(mask), BlockMask(p, Weights(adj), d, c));
    }
    forall c, d
      ensures Weight(coarse, c, d) >= 0.0
    {
      var mask := BlockMask(p, Weights(adj), c, d);
      forall i
        ensures Row(ids, mask)(i) >= 0.0
      {
        SumNonNegative(ids, Slice(mask, i));
      }
      SumNonNegative(ids, Row(ids, mask));
    }
  }

  /**
    Coarsening preserves meaning: every labelling q of the super-nodes has the modularity
    of the labelling it induces on the finer graph, at any resolution.
  */
  lemma {:induction false} QualityLifts(ids: set<Id>, adj: Adjacency, resolution: real, p: Labels, P: set<Id>,
                                        coarse: Adjacency, q: Labels)
    requires IsCoarse(ids, adj, p, P, coarse) && p.Keys == ids
    ensures Quality(P, coarse, resolution, q) == Quality(ids, adj, resolution, Compose(q, p))
  {
    hide Agreement, Bond, Block, Compose;
    forall c, d | c in P && d in P
      ensures Bond(P, coarse, resolution)(c, d) == Block(ids, p, Bond(ids, adj, resolution), c, d)
    {
      BondBlocks(ids, adj, resolution, p, P, coarse, c, d);
    }
    AgreementLifts(ids, p, P, q, Bond(ids, adj, resolution), Bond(P, coarse, resolution));
  }
}
