/** What the figures of the scoreboard are, in terms of the examples' own fields. */
module Scoreboard {
  import opened Options
  import opened Sums
  import opened BenchmarkMetrics

  /** The places of the examples with a property. */
  ghost function Places(p: Example -> bool, per: seq<Example>, n: nat): set<int>
    requires n <= |per|
  {
    set i | 0 <= i < n && p(per[i])
  }

  ghost function SumBy(g: Example -> real, per: seq<Example>, n: nat): real
    requires n <= |per|
  {
    if n == 0 then 0.0 else SumBy(g, per, n - 1) + g(per[n - 1])
  }

  /** The sum of g over the examples with the property. */
  ghost function SumOver(p: Example -> bool, g: Example -> real, per: seq<Example>, n: nat): real
    requires n <= |per|
  {
    if n == 0 then 0.0 else SumOver(p, g, per, n - 1) + if p(per[n - 1]) then g(per[n - 1]) else 0.0
  }

  /** A mean, or nothing to take one of. */
  ghost predicate IsRatio(o: Option<real>, sum: real, count: real) {
    if count == 0.0 then o == None else o == Some(sum / count)
  }

  lemma {:induction false} CountIsSize(p: Example -> bool, f: Example -> nat, per: seq<Example>, n: nat)
    requires n <= |per| && forall r :: f(r) == if p(r) then 1 else 0
    ensures Count(f, per, n) == |Places(p, per, n)|
  {
    if n == 0 {
      assert Places(p, per, 0) == {};
    } else {
      CountIsSize(p, f, per, n - 1);
      var rest := Places(p, per, n - 1);
      forall i
        ensures i in Places(p, per, n) <==> i in rest || (i == n - 1 && p(per[n - 1]))
      {
      }
      if p(per[n - 1]) {
        SameSet(Places(p, per, n), rest + {n - 1});
      } else {
        SameSet(Places(p, per, n), rest);
      }
    }
  }

  lemma {:induction false} CountIsSum(p: Example -> bool, g: Example -> real, f: Example -> nat, per: seq<Example>,
                                      n: nat)
    requires n <= |per| && forall r :: f(r) as real == if p(r) then g(r) else 0.0
    ensures Count(f, per, n) as real == SumOver(p, g, per, n)
  {
    if n == 0 {
    } else {
      CountIsSum(p, g, f, per, n - 1);
    }
  }

  lemma {:induction false} TotalIsSum(p: Example -> bool, g: Example -> real, f: Example -> real, per: seq<Example>,
                                      n: nat)
    requires n <= |per| && forall r :: f(r) == if p(r) then g(r) else 0.0
    ensures Total(f, per, n) == SumOver(p, g, per, n)
  {
    if n == 0 {
    } else {
      TotalIsSum(p, g, f, per, n - 1);
    }
  }

  lemma {:induction false} CountsAgree(f: Example -> nat, g: Example -> real, per: seq<Example>, n: nat)
    requires n <= |per| && forall r :: f(r) as real == g(r)
    ensures Count(f, per, n) as real == SumBy(g, per, n)
  {
    if n == 0 {
    } else {
      CountsAgree(f, g, per, n - 1);
    }
  }

  lemma {:induction false} TotalsAgree(f: Example -> real, g: Example -> real, per: seq<Example>, n: nat)
    requires n <= |per| && forall r :: f(r) == g(r)
    ensures Total(f, per, n) == SumBy(g, per, n)
  {
    if n == 0 {
    } else {
      TotalsAgree(f, g, per, n - 1);
    }
  }

  lemma {:induction false} LargestIsAdopted(per: seq<Example>, n: nat)
    requires n <= |per| && MaxAdopted(per, n) > 0
    ensures exists i :: 0 <= i < n && per[i].reflectionRounds > 0 && per[i].adoptedRound == MaxAdopted(per, n)
  {
    if n == 0 {
    } else if MaxAdopted(per, n - 1) > 0 {
      LargestIsAdopted(per, n - 1);
    }
  }

  /** What concerns the answers themselves. */
  lemma AnswersMean(per: seq<Example>)
    requires per != []
    ensures var n, m := |per|, MetricsOf(per);
      && m.examples == n
      && IsRatio(m.exactMatch, |Places((r: Example) => r.exactMatch, per, n)| as real, n as real)
      && IsRatio(m.f1Token, SumBy((r: Example) => r.f1Token, per, n), n as real)
      && IsRatio(m.requiredPhraseRecall, SumBy((r: Example) => r.phraseHits as real, per, n),
                 SumBy((r: Example) => r.phraseTotal as real, per, n))
  {
    hide Count, Total, SumBy, MaxAdopted, Histogram;
    var n := |per|;
    CountIsSize((r: Example) => r.exactMatch, Exact, per, n);
    TotalsAgree(F1, (r: Example) => r.f1Token, per, n);
    CountsAgree(Hits, (r: Example) => r.phraseHits as real, per, n);
    CountsAgree(Phrases, (r: Example) => r.phraseTotal as real, per, n);
  }

  /** No example that reflected adopted a round above top, and one adopted it unless it is zero. */
  ghost predicate IsLargestAdopted(per: seq<Example>, top: nat) {
    && (forall i :: 0 <= i < |per| && per[i].reflectionRounds > 0 ==> per[i].adoptedRound <= top)
    && (top > 0 ==> exists i :: 0 <= i < |per| && per[i].reflectionRounds > 0 && per[i].adoptedRound == top)
  }

  /** What concerns reflection and grading. */
  lemma ReflectionMeans(per: seq<Example>)
    requires per != []
    ensures var n, m := |per|, MetricsOf(per);
      var reflected := |Places((r: Example) => r.reflectionRounds > 0, per, n)|;
      && IsRatio(m.reflectionRoundsMean, SumBy((r: Example) => r.reflectionRounds as real, per, n), reflected as real)
      && (m.adoptedRoundCounts.None? <==> reflected == 0)
      && (m.adoptedRoundCounts.Some? ==>
        forall k :: 0 <= k < |m.adoptedRoundCounts.value| ==>
          m.adoptedRoundCounts.value[k] == |Places((r: Example) => r.adoptedRound == k + 1, per, n)|)
      && (m.adoptedRoundCounts.Some? ==> IsLargestAdopted(per, |m.adoptedRoundCounts.value|))
    ensures var n, m := |per|, MetricsOf(per);
      IsRatio(m.graderAdoptionRate,
              |Places((r: Example) =>
                r.graderEnabled && r.adoptedRound > 0 && r.adoptedRound != r.reflectionRounds, per, n)| as real,
              |Places((r: Example) => r.graderEnabled, per, n)| as real)
  {
    hide Count, Total, SumBy, MaxAdopted;
    var n := |per|;
    MaxAdoptedIsMost(per, n);
    if MaxAdopted(per, n) > 0 {
      LargestIsAdopted(per, n);
    }
    CountIsSize((r: Example) => r.reflectionRounds > 0, Reflected, per, n);
    CountsAgree(Rounds, (r: Example) => r.reflectionRounds as real, per, n);
    CountIsSize((r: Example) => r.graderEnabled, Graded, per, n);
    CountIsSize(
                (r: Example) => r.graderEnabled && r.adoptedRound > 0 && r.adoptedRound != r.reflectionRounds,
                EarlyAdopt, per, n);
    forall k: nat
      ensures Count(AdoptedAt(k), per, n) == |Places((r: Example) => r.adoptedRound == k + 1, per, n)|
    {
      CountIsSize((r: Example) => r.adoptedRound == k + 1, AdoptedAt(k), per, n);
    }
  }

  /** What concerns follow-ups and the judge. */
  lemma SignalsMean(per: seq<Example>)
    requires per != []
    ensures var n, m := |per|, MetricsOf(per);
      var active := |Places((r: Example) => r.activeEnabled, per, n)|;
      && IsRatio(m.followupQueriesUsedMean,
                 SumOver((r: Example) => r.activeEnabled, (r: Example) => r.followupsUsed as real, per, n), active as real)
      && IsRatio(m.activeRetrievalFireRate,
                 |Places((r: Example) => r.activeEnabled && r.activeFired, per, n)| as real, active as real)
    ensures var n, m := |per|, MetricsOf(per);
      var judged := |Places((r: Example) => r.judgeApplied, per, n)|;
      && IsRatio(m.meanGroundedness,
                 SumOver((r: Example) => r.judgeApplied, (r: Example) => r.groundedness, per, n), judged as real)
      && IsRatio(m.meanAnswerRelevance,
                 SumOver((r: Example) => r.judgeApplied, (r: Example) => r.answerRelevance, per, n), judged as real)
  {
    hide Count, Total, SumOver, MaxAdopted, Histogram;
    var n := |per|;
    CountIsSize((r: Example) => r.activeEnabled, Active, per, n);
    CountIsSize((r: Example) => r.activeEnabled && r.activeFired, Fired, per, n);
    CountIsSum((r: Example) => r.activeEnabled, (r: Example) => r.followupsUsed as real, Followups, per, n);
    CountIsSize((r: Example) => r.judgeApplied, Judged, per, n);
    TotalIsSum((r: Example) => r.judgeApplied, (r: Example) => r.groundedness, Grounded, per, n);
    TotalIsSum((r: Example) => r.judgeApplied, (r: Example) => r.answerRelevance, Relevant, per, n);
  }

  /** The index error: some example reflected, and one adopted a round above those of all that did. */
  lemma OverflowsIff(per: seq<Example>)
    ensures Overflows(per) <==>
      && (exists i :: 0 <= i < |per| && per[i].reflectionRounds > 0)
      && exists j :: 0 <= j < |per| && AdoptsAbove(per, per[j].adoptedRound)
  {
    hide Count, MaxAdopted;
    var n := |per|;
    var p := (r: Example) => r.reflectionRounds > 0;
    CountIsSize(p, Reflected, per, n);
    MaxAdoptedIsMost(per, n);
    if MaxAdopted(per, n) > 0 {
      LargestIsAdopted(per, n);
    }
    if i :| 0 <= i < n && per[i].reflectionRounds > 0 {
      assert i in Places(p, per, n);
      forall j | 0 <= j < n
        ensures AdoptsAbove(per, per[j].adoptedRound) <==> per[j].adoptedRound > MaxAdopted(per, n)
      {
        assert per[i].adoptedRound < per[j].adoptedRound ==> per[j].adoptedRound > 0;
      }
    } else {
      assert Places(p, per, n) == {};
    }
  }

  ghost predicate AdoptsAbove(per: seq<Example>, round: nat) {
    forall i :: 0 <= i < |per| && per[i].reflectionRounds > 0 ==> per[i].adoptedRound < round
  }
}
