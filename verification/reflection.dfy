/** Deciding, grading and choosing among the rounds of a reflective answer. */
module Reflection {
  import opened Ids
  import opened Options
  import opened ActiveRetrieval
  import Sums

  const DEFAULT_MAX_ROUNDS := 1
  const DEFAULT_ADAPTIVE_THRESHOLD := 0.6
  const DEFAULT_WEIGHT := 0.5

  datatype Mode = Rule | Model | Hybrid

  datatype ReflectionOptions = ReflectionOptions(
    mode: Mode, maxRounds: int, minHits: int, minScore: real, minUniqueDocs: int, requireCitations: bool, allowRewrite: bool,
    failOpen: bool, enableChunkGrading: bool, graderRelevanceWeight: real, graderSupportWeight: real, bestByScore: bool,
    adaptiveRetrieval: bool, adaptiveThreshold: real, enableActiveRetrieval: bool, maxFollowupQueries: int,
    maxFollowupQueriesPerAsk: int, relevanceFloor: real)

  /** A non-positive round limit counts as one. */
  function NormalizeReflectionOptions(opts: ReflectionOptions): (r: ReflectionOptions)
    ensures r == opts.(maxRounds := if opts.maxRounds >= 1 then opts.maxRounds else 1)
  {
    if opts.maxRounds <= 0 then opts.(maxRounds := DEFAULT_MAX_ROUNDS) else opts
  }

  function EffectiveAdaptiveThreshold(opts: ReflectionOptions): (t: real)
    ensures t == if opts.adaptiveThreshold <= 0.0 then 0.6 else opts.adaptiveThreshold
  {
    if opts.adaptiveThreshold > 0.0 then opts.adaptiveThreshold else DEFAULT_ADAPTIVE_THRESHOLD
  }

  /** What one round came to: the hits packed into its prompt, and its answer. */
  datatype RoundResult = RoundResult(text: string, hits: seq<Hit>, topScore: real, followups: seq<string>)

  /** Distinct document IDs among the packed hits; hits without one do not count. */
  function DocIds(hits: seq<Hit>): (ids: set<Id>)
    ensures forall d :: d in ids <==> d != EMPTY_ID && exists i :: 0 <= i < |hits| && hits[i].docId == d
  {
    set h | h in hits && h.docId != EMPTY_ID :: h.docId
  }

  function ChunkIds(hits: seq<Hit>): (ids: set<Id>)
    ensures forall c :: c in ids <==> exists i :: 0 <= i < |hits| && hits[i].chunkId == c
  {
    set h | h in hits :: h.chunkId
  }

  ghost predicate Shows(hits: seq<Hit>, chunkId: Id) {
    exists i :: 0 <= i < |hits| && hits[i].chunkId == chunkId
  }

  /* ---- Decisions ---- */

  datatype Decision = Stop | Continue | RewriteAndContinue

  datatype StopReason = Satisfied | MaxRoundsReached | GoOn | EvidenceUnchanged | DecisionError | ModelStop | RewriteUnchanged

  datatype DecisionResult = DecisionResult(decision: Decision, reason: StopReason, nextQuery: string)

  /** Each hit packed is cited once, so there are as many citations as hits. */
  predicate MeetsThresholds(opts: ReflectionOptions, round: RoundResult): (met: bool)
    ensures !met <==>
      || |round.hits| < opts.minHits || round.topScore < opts.minScore || |DocIds(round.hits)| < opts.minUniqueDocs
      || (opts.requireCitations && round.hits == [])
  {
    && |round.hits| >= opts.minHits && round.topScore >= opts.minScore && |DocIds(round.hits)| >= opts.minUniqueDocs
    && (opts.requireCitations ==> |round.hits| > 0)
  }

  function DecideRule(roundIndex: int, opts: ReflectionOptions, round: RoundResult): DecisionResult {
    if MeetsThresholds(opts, round) then DecisionResult(Stop, Satisfied, "")
    else if roundIndex >= opts.maxRounds then DecisionResult(Stop, MaxRoundsReached, "")
    else DecisionResult(Continue, GoOn, "")
  }

  /** The model's parsed reply. */
  datatype Reply = Reply(decision: Decision, rewrite: string)

  /** A rewrite is refused when not allowed or blank. */
  function DecideWithModel(opts: ReflectionOptions, trim: string -> string, reply: Reply): DecisionResult {
    var rewrite := trim(reply.rewrite);
    match reply.decision
    case Stop => DecisionResult(Stop, ModelStop, rewrite)
    case Continue => DecisionResult(Continue, GoOn, rewrite)
    case RewriteAndContinue =>
      if !opts.allowRewrite || rewrite == "" then DecisionResult(Continue, GoOn, "")
      else DecisionResult(RewriteAndContinue, GoOn, rewrite)
  }

  /** A rewrite into the current query stops. */
  function ResolveModelRewrite(trim: string -> string, currentQuery: string, d: DecisionResult): DecisionResult {
    if d.decision != RewriteAndContinue then d
    else if trim(d.nextQuery) == trim(currentQuery) then DecisionResult(Stop, RewriteUnchanged, "")
    else d
  }

  function ClampDecisionAtMaxRounds(d: DecisionResult): DecisionResult {
    d.(decision := Stop, reason := MaxRoundsReached)
  }

  /** The prompt holds the same chunks as in the round before. */
  predicate EvidenceUnchangedFrom(current: RoundResult, previous: Option<RoundResult>): (same: bool)
    ensures same <==> previous.Some? && forall c :: Shows(previous.value.hits, c) <==> Shows(current.hits, c)
  {
    previous.Some? && (SameShown(previous.value.hits, current.hits); ChunkIds(previous.value.hits) == ChunkIds(current.hits))
  }

  lemma SameShown(a: seq<Hit>, b: seq<Hit>)
    ensures ChunkIds(a) == ChunkIds(b) <==> forall c :: Shows(a, c) <==> Shows(b, c)
  {
    forall c
      ensures Shows(a, c) <==> c in ChunkIds(a)
      ensures Shows(b, c) <==> c in ChunkIds(b)
    {
    }
    if forall c :: Shows(a, c) <==> Shows(b, c) {
      forall c
        ensures c in ChunkIds(a) <==> c in ChunkIds(b)
      {
        assert Shows(a, c) <==> Shows(b, c);
      }
      Sums.SameSet(ChunkIds(a), ChunkIds(b));
    }
  }

  /* ---- Grades ---- */

  datatype ChunkScore = ChunkScore(hitId: Id, relevance: real, support: real)

  /** The largest relevance, and zero when there is none above it. */
  function TopRelevance(scores: seq<ChunkScore>): real {
    if scores == [] then 0.0 else
      var before, r := TopRelevance(scores[..|scores| - 1]), scores[|scores| - 1].relevance;
      if r > before then r else before
  }

  /** It bounds all relevances and, when above zero, is one of them. */
  lemma {:induction false} TopMeans(scores: seq<ChunkScore>)
    ensures TopRelevance(scores) >= 0.0 && forall i :: 0 <= i < |scores| ==> scores[i].relevance <= TopRelevance(scores)
    ensures TopRelevance(scores) > 0.0 ==> exists i :: 0 <= i < |scores| && scores[i].relevance == TopRelevance(scores)
  {
    if scores == [] {
    } else {
      var init := scores[..|scores| - 1];
      TopMeans(init);
      assert forall i :: 0 <= i < |init| ==> scores[i] == init[i];
    }
  }

  lemma TopNext(scores: seq<ChunkScore>, cs: ChunkScore)
    ensures TopRelevance(scores + [cs]) ==
      if cs.relevance > TopRelevance(scores) then cs.relevance else TopRelevance(scores)
  {
    assert (scores + [cs])[..|scores + [cs]| - 1] == scores;
  }

  /** Grades every packed hit on both sides; a grading error counts as neutral. */
  method GradeRound(relevance: Option<Hit -> Option<real>>, support: Hit -> Option<real>, round: RoundResult)
    returns (scores: seq<ChunkScore>, maxRel: real)
    ensures relevance.None? ==> scores == []
    ensures relevance.Some? ==> |scores| == |round.hits|
    ensures relevance.Some? ==> forall i :: 0 <= i < |scores| ==>
      scores[i] == ChunkScore(round.hits[i].chunkId, Relevance(relevance.value, round.hits[i]), Relevance(support, round.hits[i]))
    ensures maxRel == TopRelevance(scores)
  {
    scores, maxRel := [], 0.0;
    assert TopRelevance([]) == 0.0;
    hide TopRelevance;
    if relevance.None? || |round.hits| == 0 {
      return;
    }
    for i := 0 to |round.hits|
      invariant |scores| == i && maxRel == TopRelevance(scores)
      invariant forall k :: 0 <= k < i ==>
        scores[k] == ChunkScore(round.hits[k].chunkId, Relevance(relevance.value, round.hits[k]),
                                Relevance(support, round.hits[k]))
    {
      var hit := round.hits[i];
      var rel := match relevance.value(hit) case None => NEUTRAL_RELEVANCE case Some(r) => r;
      var sup := match support(hit) case None => NEUTRAL_RELEVANCE case Some(r) => r;
      if rel > maxRel {
        maxRel := rel;
      }
      TopNext(scores, ChunkScore(hit.chunkId, rel, sup));
      scores := scores + [ChunkScore(hit.chunkId, rel, sup)];
    }
  }

  ghost function SumOf(scores: seq<ChunkScore>, n: nat): (real, real)
    requires n <= |scores|
  {
    if n == 0 then (0.0, 0.0) else
      (SumOf(scores, n - 1).0 + scores[n - 1].relevance, SumOf(scores, n - 1).1 + scores[n - 1].support)
  }

  /** The weights that count: one half each when neither is positive. */
  function EffectiveWeights(relWeight: real, supWeight: real): (w: (real, real))
    ensures w == if relWeight > 0.0 || supWeight > 0.0 then (relWeight, supWeight) else (0.5, 0.5)
  {
    if relWeight <= 0.0 && supWeight <= 0.0 then (DEFAULT_WEIGHT, DEFAULT_WEIGHT) else (relWeight, supWeight)
  }

  /** Each weight defaults on its own, as its documentation has it, exactly when both are positive or neither is. */
  lemma WeightsAsDocumentedIff(relWeight: real, supWeight: real)
    ensures EffectiveWeights(relWeight, supWeight) == (DocumentedWeight(relWeight), DocumentedWeight(supWeight))
      <==> (relWeight <= 0.0 <==> supWeight <= 0.0)
  {
  }

  ghost function DocumentedWeight(weight: real): real {
    if weight <= 0.0 then DEFAULT_WEIGHT else weight
  }

  ghost function AggregateScore(scores: seq<ChunkScore>, relWeight: real, supWeight: real): real {
    if scores == [] then 0.0 else
      var w, sums, n := EffectiveWeights(relWeight, supWeight), SumOf(scores, |scores|), |scores| as real;
      w.0 * (sums.0 / n) + w.1 * (sums.1 / n)
  }

  /** The score with each weight defaulted on its own. */
  ghost function DocumentedScore(scores: seq<ChunkScore>, relWeight: real, supWeight: real): real {
    if scores == [] then 0.0 else
      var sums, n := SumOf(scores, |scores|), |scores| as real;
      DocumentedWeight(relWeight) * (sums.0 / n) + DocumentedWeight(supWeight) * (sums.1 / n)
  }

  /**
    A round's score is the documented one exactly when the weights are, or the side whose
    weight is not scores nothing.
  */
  lemma ScoreAsDocumentedIff(scores: seq<ChunkScore>, relWeight: real, supWeight: real)
    ensures AggregateScore(scores, relWeight, supWeight) == DocumentedScore(scores, relWeight, supWeight) <==>
      scores == [] || (if relWeight <= 0.0 < supWeight then SumOf(scores, |scores|).0 == 0.0
                       else supWeight <= 0.0 < relWeight ==> SumOf(scores, |scores|).1 == 0.0)
  {
    hide SumOf;
    if scores != [] {
      var sums, n := SumOf(scores, |scores|), |scores| as real;
      if relWeight <= 0.0 < supWeight {
        Weighted(relWeight, DEFAULT_WEIGHT, sums.0, n);
      } else if supWeight <= 0.0 < relWeight {
        Weighted(supWeight, DEFAULT_WEIGHT, sums.1, n);
      }
    }
  }

  /** Two weights of one mean come to the same only where the mean is zero. */
  lemma Weighted(a: real, b: real, sum: real, n: real)
    requires a < b && n > 0.0
    ensures a * (sum / n) == b * (sum / n) <==> sum == 0.0
  {
    var mean := sum / n;
    assert mean == 0.0 <==> sum == 0.0 by {
      assert mean * n == sum;
    }
    assert (b - a) * mean == b * mean - a * mean;
  }

  /** A single chunk scores the weighted sum of its sides. */
  lemma ScoreOfOne(cs: ChunkScore, relWeight: real, supWeight: real)
    ensures AggregateScore([cs], relWeight, supWeight) ==
      if relWeight > 0.0 || supWeight > 0.0 then relWeight * cs.relevance + supWeight * cs.support
      else 0.5 * cs.relevance + 0.5 * cs.support
  {
    assert SumOf([cs], 1) == (cs.relevance, cs.support);
  }

  /** Scores of two parts combine as means do, each part counting by its size. */
  lemma ScoreOfBoth(a: seq<ChunkScore>, b: seq<ChunkScore>, relWeight: real, supWeight: real)
    ensures |a + b| as real * AggregateScore(a + b, relWeight, supWeight)
         == |a| as real * AggregateScore(a, relWeight, supWeight) + |b| as real * AggregateScore(b, relWeight, supWeight)
  {
    hide SumOf;
    SumOfBoth(a, b, |b|);
    assert a + b[..|b|] == a + b;
    SumOfPrefix(a + b, a, |a|);
    TimesSize(a, relWeight, supWeight);
    TimesSize(b, relWeight, supWeight);
    TimesSize(a + b, relWeight, supWeight);
  }

  lemma TimesSize(scores: seq<ChunkScore>, relWeight: real, supWeight: real)
    ensures var w, sums := EffectiveWeights(relWeight, supWeight), SumOf(scores, |scores|);
      |scores| as real * AggregateScore(scores, relWeight, supWeight) == w.0 * sums.0 + w.1 * sums.1
  {
    var w, sums, n := EffectiveWeights(relWeight, supWeight), SumOf(scores, |scores|), |scores| as real;
    if scores != [] {
      Spread(w.0, sums.0, n);
      Spread(w.1, sums.1, n);
      Expand(n, w.0 * (sums.0 / n), w.1 * (sums.1 / n));
    }
  }

  lemma Spread(w: real, sum: real, n: real)
    requires n > 0.0
    ensures n * (w * (sum / n)) == w * sum
  {
    assert n * (sum / n) == sum;
  }

  lemma Expand(n: real, a: real, b: real)
    ensures n * (a + b) == n * a + n * b
  {
  }

  lemma {:induction false} SumOfBoth(a: seq<ChunkScore>, b: seq<ChunkScore>, n: nat)
    requires n <= |b|
    ensures SumOf(a + b, |a| + n) == (SumOf(a, |a|).0 + SumOf(b, n).0, SumOf(a, |a|).1 + SumOf(b, n).1)
  {
    if n == 0 {
      SumOfPrefix(a + b, a, |a|);
    } else {
      SumOfBoth(a, b, n - 1);
      assert (a + b)[|a| + n - 1] == b[n - 1];
    }
  }

  lemma {:induction false} SumOfPrefix(a: seq<ChunkScore>, b: seq<ChunkScore>, n: nat)
    requires n <= |a| && n <= |b| && forall i :: 0 <= i < n ==> a[i] == b[i]
    ensures SumOf(a, n) == SumOf(b, n)
  {
    if n == 0 {
    } else {
      SumOfPrefix(a, b, n - 1);
    }
  }

  method RoundAggregateScore(scores: seq<ChunkScore>, relWeight: real, supWeight: real) returns (score: real)
    ensures score == AggregateScore(scores, relWeight, supWeight)
  {
    if |scores| == 0 {
      return 0.0;
    }
    var w := EffectiveWeights(relWeight, supWeight);
    var relSum, supSum := 0.0, 0.0;
    for i := 0 to |scores|
      invariant (relSum, supSum) == SumOf(scores, i)
    {
      relSum, supSum := relSum + scores[i].relevance, supSum + scores[i].support;
    }
    var n := |scores| as real;
    score := w.0 * (relSum / n) + w.1 * (supSum / n);
  }

  /** k is the earliest place of highest aggregate score. */
  ghost predicate IsPick(graded: seq<seq<ChunkScore>>, relWeight: real, supWeight: real, k: int) {
    && 0 <= k < |graded|
    && (forall i :: 0 <= i < |graded| ==>
      AggregateScore(graded[i], relWeight, supWeight) <= AggregateScore(graded[k], relWeight, supWeight))
    && (forall i :: 0 <= i < k ==>
      AggregateScore(graded[i], relWeight, supWeight) < AggregateScore(graded[k], relWeight, supWeight))
  }

  method PickBestRound(graded: seq<seq<ChunkScore>>, relWeight: real, supWeight: real) returns (best: int)
    ensures graded == [] ==> best == -1
    ensures graded != [] ==> IsPick(graded, relWeight, supWeight, best)
  {
    hide AggregateScore;
    if |graded| <= 1 {
      return |graded| - 1;
    }
    best := 0;
    var bestScore := RoundAggregateScore(graded[0], relWeight, supWeight);
    for i := 1 to |graded|
      invariant 0 <= best < i && bestScore == AggregateScore(graded[best], relWeight, supWeight)
      invariant forall j :: 0 <= j < i ==> AggregateScore(graded[j], relWeight, supWeight) <= bestScore
      invariant forall j :: 0 <= j < best ==> AggregateScore(graded[j], relWeight, supWeight) < bestScore
    {
      var s := RoundAggregateScore(graded[i], relWeight, supWeight);
      if s > bestScore {
        bestScore, best := s, i;
      }
    }
  }
}
