/** Reducing the per-example trace of a benchmark to its scoreboard. */
module BenchmarkMetrics {
  import opened Options

  /** The fields of one example's result that the scoreboard reads. */
  datatype Example = Example(exactMatch: bool, f1Token: real, phraseHits: nat, phraseTotal: nat, reflectionRounds: nat,
                             adoptedRound: nat, followupsUsed: nat, activeFired: bool, graderEnabled: bool,
                             activeEnabled: bool,
                             judgeApplied: bool, groundedness: real, answerRelevance: real)

  /** A mean that is not a number is None, and so is a histogram that is nil. */
  datatype Metrics = Metrics(examples: nat, exactMatch: Option<real>, f1Token: Option<real>, requiredPhraseRecall: Option<real>,
                             reflectionRoundsMean: Option<real>, adoptedRoundCounts: Option<seq<nat>>,
                             graderAdoptionRate: Option<real>,
                             followupQueriesUsedMean: Option<real>, activeRetrievalFireRate: Option<real>,
                             meanGroundedness: Option<real>, meanAnswerRelevance: Option<real>)

  function Mean(sum: real, count: nat): Option<real> {
    if count > 0 then Some(sum / count as real) else None
  }

  function One(b: bool): nat {
    if b then 1 else 0
  }

  function Larger(a: nat, b: nat): nat {
    if b > a then b else a
  }

  function Plus(a: nat, b: nat): nat { a + b }

  function PlusReal(a: real, b: real): real { a + b }

  /* ---- Folds over the examples ---- */

  ghost function Fold<A>(op: (A, A) -> A, unit: A, f: Example -> A, per: seq<Example>, n: nat): A
    requires n <= |per|
  {
    if n == 0 then unit else op(Fold(op, unit, f, per, n - 1), f(per[n - 1]))
  }

  ghost function Count(f: Example -> nat, per: seq<Example>, n: nat): nat
    requires n <= |per|
  {
    Fold(Plus, 0, f, per, n)
  }

  ghost function Total(f: Example -> real, per: seq<Example>, n: nat): real
    requires n <= |per|
  {
    Fold(PlusReal, 0.0, f, per, n)
  }

  /** The largest adopted round among the examples that reflected. */
  ghost function MaxAdopted(per: seq<Example>, n: nat): nat
    requires n <= |per|
  {
    Fold(Larger, 0, AdoptedIfReflected, per, n)
  }

  function AdoptedIfReflected(r: Example): nat {
    if r.reflectionRounds > 0 then r.adoptedRound else 0
  }

  function AdoptedAt(k: nat): Example -> nat {
    (r: Example) => One(r.adoptedRound == k + 1)
  }

  ghost predicate Commutes<A(!new)>(op: (A, A) -> A) {
    && (forall a, b :: op(a, b) == op(b, a))
    && (forall a, b, c :: op(op(a, b), c) == op(a, op(b, c)))
  }

  /** A fold over a list without its element at k, and that element. */
  lemma {:induction false} FoldWithout<A(!new)>(op: (A, A) -> A, unit: A, f: Example -> A, per: seq<Example>, k: nat)
    requires Commutes(op) && k < |per|
    ensures Fold(op, unit, f, per, |per|) == op(Fold(op, unit, f, per[..k] + per[k + 1..], |per| - 1), f(per[k]))
  {
    var last := |per| - 1;
    var rest := per[..k] + per[k + 1..];
    if k == last {
      FoldPrefix(op, unit, f, rest, per, last);
    } else {
      var front := per[..last];
      FoldWithout(op, unit, f, front, k);
      var inner := front[..k] + front[k + 1..];
      FoldPrefix(op, unit, f, front, per, last);
      assert rest[..last - 1] == inner && rest[last - 1] == per[last];
      FoldPrefix(op, unit, f, inner, rest, last - 1);
      var base, x, y := Fold(op, unit, f, inner, last - 1), f(per[k]), f(per[last]);
      assert op(op(base, x), y) == op(base, op(x, y)) == op(base, op(y, x)) == op(op(base, y), x);
    }
  }

  lemma {:induction false} FoldPrefix<A>(op: (A, A) -> A, unit: A, f: Example -> A, a: seq<Example>, b: seq<Example>,
                                         n: nat)
    requires n <= |a| && n <= |b| && a[..n] == b[..n]
    ensures Fold(op, unit, f, a, n) == Fold(op, unit, f, b, n)
  {
    if n == 0 {
    } else {
      assert a[..n - 1] == a[..n][..n - 1] == b[..n][..n - 1] == b[..n - 1];
      assert a[n - 1] == a[..n][n - 1] == b[..n][n - 1] == b[n - 1];
      FoldPrefix(op, unit, f, a, b, n - 1);
    }
  }

  /** Where the last element of a sits in b, and that the rests are rearrangements too. */
  lemma TakeOut(a: seq<Example>, b: seq<Example>) returns (k: nat)
    requires a != [] && multiset(a) == multiset(b)
    ensures k < |b| && b[k] == a[|a| - 1] && multiset(a[..|a| - 1]) == multiset(b[..k] + b[k + 1..])
  {
    var x := a[|a| - 1];
    assert a == a[..|a| - 1] + [x];
    assert x in multiset(b);
    k :| 0 <= k < |b| && b[k] == x;
    assert b == b[..k] + [x] + b[k + 1..];
    assert multiset(a[..|a| - 1]) == multiset(a) - multiset{x} == multiset(b) - multiset{x};
    assert multiset(b) == multiset(b[..k]) + multiset{x} + multiset(b[k + 1..]);
  }

  /** A fold does not depend on the order of the examples. */
  lemma {:induction false} FoldPermutes<A(!new)>(op: (A, A) -> A, unit: A, f: Example -> A, a: seq<Example>,
                                                 b: seq<Example>)
    requires Commutes(op) && multiset(a) == multiset(b)
    ensures |a| == |b|
    ensures Fold(op, unit, f, a, |a|) == Fold(op, unit, f, b, |b|)
    decreases |a|
  {
    hide Commutes;
    assert |a| == |multiset(a)| == |multiset(b)| == |b|;
    if a == [] {
    } else {
      var last := |a| - 1;
      var k := TakeOut(a, b);
      FoldPermutes(op, unit, f, a[..last], b[..k] + b[k + 1..]);
      FoldWithout(op, unit, f, b, k);
      FoldPrefix(op, unit, f, a[..last], a, last);
    }
  }

  /* ---- The scoreboard ---- */

  function Exact(r: Example): nat { One(r.exactMatch) }

  function F1(r: Example): real { r.f1Token }

  function Hits(r: Example): nat { r.phraseHits }

  function Phrases(r: Example): nat { r.phraseTotal }

  function Reflected(r: Example): nat { One(r.reflectionRounds > 0) }

  function Rounds(r: Example): nat { r.reflectionRounds }

  function Graded(r: Example): nat { One(r.graderEnabled) }

  /** Graded, and a round before the last one was adopted. */
  function EarlyAdopt(r: Example): nat {
    One(r.graderEnabled && r.adoptedRound > 0 && r.adoptedRound != r.reflectionRounds)
  }

  function Active(r: Example): nat { One(r.activeEnabled) }

  function Followups(r: Example): nat { if r.activeEnabled then r.followupsUsed else 0 }

  function Fired(r: Example): nat { One(r.activeEnabled && r.activeFired) }

  function Judged(r: Example): nat { One(r.judgeApplied) }

  function Grounded(r: Example): real { if r.judgeApplied then r.groundedness else 0.0 }

  function Relevant(r: Example): real { if r.judgeApplied then r.answerRelevance else 0.0 }

  /** Some example reflected, and some adopted a round above those of all that reflected. */
  ghost predicate Overflows(per: seq<Example>) {
    && Count(Reflected, per, |per|) > 0
    && exists i :: 0 <= i < |per| && per[i].adoptedRound > MaxAdopted(per, |per|)
  }

  ghost function Histogram(per: seq<Example>): seq<nat> {
    seq(MaxAdopted(per, |per|), k requires k >= 0 => Count(AdoptedAt(k), per, |per|))
  }

  ghost function MetricsOf(per: seq<Example>): Metrics {
    var n := |per|;
    Metrics(
      n,
      Mean(Count(Exact, per, n) as real, n),
      Mean(Total(F1, per, n), n),
      Mean(Count(Hits, per, n) as real, Count(Phrases, per, n)),
      Mean(Count(Rounds, per, n) as real, Count(Reflected, per, n)),
      if Count(Reflected, per, n) > 0 then Some(Histogram(per)) else None,
      Mean(Count(EarlyAdopt, per, n) as real, Count(Graded, per, n)),
      Mean(Count(Followups, per, n) as real, Count(Active, per, n)),
      Mean(Count(Fired, per, n) as real, Count(Active, per, n)),
      Mean(Total(Grounded, per, n), Count(Judged, per, n)),
      Mean(Total(Relevant, per, n), Count(Judged, per, n)))
  }

  /** The running sums of the aggregation. */
  datatype Sums = Sums(exact: nat, f1: real, hits: nat, phrases: nat, reflected: nat, rounds: nat, maxAdopted: nat,
                       graded: nat, early: nat, active: nat, followups: nat, fired: nat, judged: nat, grounded: real,
                       relevant: real)

  ghost function SumsOf(per: seq<Example>, n: nat): Sums
    requires n <= |per|
  {
    Sums(Count(Exact, per, n), Total(F1, per, n), Count(Hits, per, n), Count(Phrases, per, n), Count(Reflected, per, n),
         Count(Rounds, per, n), MaxAdopted(per, n), Count(Graded, per, n), Count(EarlyAdopt, per, n), Count(Active, per, n),
         Count(Followups, per, n), Count(Fired, per, n), Count(Judged, per, n), Total(Grounded, per, n), Total(Relevant, per, n))
  }

  /** One turn of the summing loop: first what concerns the answer and its reflection. */
  method AddExample(s: Sums, r: Example) returns (t: Sums)
    ensures t == Sums(
      s.exact + Exact(r), s.f1 + F1(r), s.hits + Hits(r), s.phrases + Phrases(r), s.reflected + Reflected(r),
      s.rounds + Rounds(r), Larger(s.maxAdopted, AdoptedIfReflected(r)), s.graded + Graded(r), s.early + EarlyAdopt(r),
      s.active + Active(r), s.followups + Followups(r), s.fired + Fired(r), s.judged + Judged(r),
      s.grounded + Grounded(r), s.relevant + Relevant(r))
  {
    hide Graded, EarlyAdopt, Active, Followups, Fired, Judged, Grounded, Relevant;
    t := s;
    if r.exactMatch {
      t := t.(exact := t.exact + 1);
    }
    t := t.(f1 := t.f1 + r.f1Token, hits := t.hits + r.phraseHits, phrases := t.phrases + r.phraseTotal);
    if r.reflectionRounds > 0 {
      t := t.(reflected := t.reflected + 1, rounds := t.rounds + r.reflectionRounds);
      if r.adoptedRound > t.maxAdopted {
        t := t.(maxAdopted := r.adoptedRound);
      }
    }
    t := AddSignals(t, r);
  }

  /** Then the grading, active-retrieval and judge signals. */
  method AddSignals(s: Sums, r: Example) returns (t: Sums)
    ensures t == s.(
      graded := s.graded + Graded(r), early := s.early + EarlyAdopt(r), active := s.active + Active(r),
      followups := s.followups + Followups(r), fired := s.fired + Fired(r), judged := s.judged + Judged(r),
      grounded := s.grounded + Grounded(r), relevant := s.relevant + Relevant(r))
  {
    t := s;
    if r.graderEnabled {
      t := t.(graded := t.graded + 1);
      if r.adoptedRound > 0 && r.adoptedRound != r.reflectionRounds {
        t := t.(early := t.early + 1);
      }
    }
    if r.activeEnabled {
      t := t.(active := t.active + 1, followups := t.followups + r.followupsUsed);
      if r.activeFired {
        t := t.(fired := t.fired + 1);
      }
    }
    if r.judgeApplied {
      t := t.(judged := t.judged + 1, grounded := t.grounded + r.groundedness, relevant := t.relevant + r.answerRelevance);
    }
  }

  /** Fills the histogram; None when an adopted round has no bucket. */
  method CountAdopted(per: seq<Example>, max: nat) returns (counts: Option<seq<nat>>)
    ensures counts.None? <==> exists i :: 0 <= i < |per| && per[i].adoptedRound > max
    ensures counts.Some? ==>
      |counts.value| == max && forall k :: 0 <= k < max ==> counts.value[k] == Count(AdoptedAt(k), per, |per|)
  {
    var buckets := new nat[max](k => 0);
    for i := 0 to |per|
      invariant forall j :: 0 <= j < i ==> per[j].adoptedRound <= max
      invariant forall k :: 0 <= k < max ==> buckets[k] == Count(AdoptedAt(k), per, i)
    {
      var round := per[i].adoptedRound;
      if round > 0 {
        if round - 1 >= max {
          return None;
        }
        buckets[round - 1] := buckets[round - 1] + 1;
      }
    }
    counts := Some(buckets[..]);
  }

  /** The scoreboard, or None for the index error of an adopted round without a bucket. */
  method AggregateBenchmarkMetrics(per: seq<Example>) returns (out: Option<Metrics>)
    ensures out == if Overflows(per) then None else Some(MetricsOf(per))
  {
    hide Fold, Exact, F1, Hits, Phrases, Reflected, Rounds, Graded, EarlyAdopt, Active, Followups, Fired, Judged;
    hide Grounded, Relevant;
    hide AdoptedIfReflected, Larger, Count, Total, MaxAdopted, AdoptedAt;
    var n := |per|;
    NothingSummed(per);
    if n == 0 {
      return Some(Metrics(0, None, None, None, None, None, None, None, None, None, None));
    }
    var s := Sums(0, 0.0, 0, 0, 0, 0, 0, 0, 0, 0, 0, 0, 0, 0.0, 0.0);
    for i := 0 to n
      invariant s == SumsOf(per, i)
    {
      s := AddExample(s, per[i]);
      OneMoreSummed(per, i);
    }
    var counts: Option<seq<nat>> := None;
    if s.reflected > 0 {
      counts := CountAdopted(per, s.maxAdopted);
      if counts.None? {
        return None;
      }
      assert counts.value == Histogram(per);
    }
    out := Some(Metrics(n, Mean(s.exact as real, n), Mean(s.f1, n), Mean(s.hits as real, s.phrases),
                        Mean(s.rounds as real, s.reflected), counts,
                        Mean(s.early as real, s.graded), Mean(s.followups as real, s.active), Mean(s.fired as real, s.active),
                        Mean(s.grounded, s.judged), Mean(s.relevant, s.judged)));
  }

  lemma NothingSummed(per: seq<Example>)
    ensures SumsOf(per, 0) == Sums(0, 0.0, 0, 0, 0, 0, 0, 0, 0, 0, 0, 0, 0, 0.0, 0.0)
  {
  }

  lemma OneMoreSummed(per: seq<Example>, n: nat)
    requires n < |per|
    ensures var s, r := SumsOf(per, n), per[n];
      SumsOf(per, n + 1) == Sums(
        s.exact + Exact(r), s.f1 + F1(r), s.hits + Hits(r), s.phrases + Phrases(r), s.reflected + Reflected(r),
        s.rounds + Rounds(r), Larger(s.maxAdopted, AdoptedIfReflected(r)), s.graded + Graded(r), s.early + EarlyAdopt(r),
        s.active + Active(r), s.followups + Followups(r), s.fired + Fired(r), s.judged + Judged(r),
        s.grounded + Grounded(r), s.relevant + Relevant(r))
  {
    hide Count, Total, MaxAdopted, Fold, Exact, F1, Hits, Phrases, Reflected, Rounds, Graded, EarlyAdopt, Active;
    hide Followups, Fired, Judged;
    hide Grounded, Relevant, Larger, AdoptedIfReflected;
    CountStep(per, n);
    TotalStep(per, n);
    MaxStep(per, n);
  }

  lemma CountStep(per: seq<Example>, n: nat)
    requires n < |per|
    ensures forall f: Example -> nat :: Count(f, per, n + 1) == Count(f, per, n) + f(per[n])
  {
  }

  lemma TotalStep(per: seq<Example>, n: nat)
    requires n < |per|
    ensures forall f: Example -> real :: Total(f, per, n + 1) == Total(f, per, n) + f(per[n])
  {
  }

  lemma MaxStep(per: seq<Example>, n: nat)
    requires n < |per|
    ensures MaxAdopted(per, n + 1) == Larger(MaxAdopted(per, n), AdoptedIfReflected(per[n]))
  {
  }

  /* ---- What the scoreboard does not depend on ---- */

  lemma CountPermutes(f: Example -> nat, a: seq<Example>, b: seq<Example>)
    requires multiset(a) == multiset(b)
    ensures |a| == |b| && Count(f, a, |a|) == Count(f, b, |b|)
  {
    FoldPermutes(Plus, 0, f, a, b);
  }

  lemma TotalPermutes(f: Example -> real, a: seq<Example>, b: seq<Example>)
    requires multiset(a) == multiset(b)
    ensures |a| == |b| && Total(f, a, |a|) == Total(f, b, |b|)
  {
    FoldPermutes(PlusReal, 0.0, f, a, b);
  }

  /** Neither the scoreboard nor the index error depends on the order of the examples. */
  lemma OrderForgotten(a: seq<Example>, b: seq<Example>)
    requires multiset(a) == multiset(b)
    ensures Overflows(a) <==> Overflows(b)
    ensures MetricsOf(a) == MetricsOf(b)
  {
    hide Count, Total, Fold, MaxAdopted, AdoptedAt;
    var counts := [Exact, Hits, Phrases, Reflected, Rounds, Graded, EarlyAdopt, Active, Followups, Fired, Judged];
    forall i | 0 <= i < |counts|
      ensures |a| == |b| && Count(counts[i], a, |a|) == Count(counts[i], b, |b|)
    {
      CountPermutes(counts[i], a, b);
    }
    assert forall i :: 0 <= i < 11 ==> Count(counts[i], a, |a|) == Count(counts[i], b, |b|);
    TotalPermutes(F1, a, b);
    TotalPermutes(Grounded, a, b);
    TotalPermutes(Relevant, a, b);
    SameBuckets(a, b);
    assert counts[0] == Exact && counts[1] == Hits && counts[2] == Phrases && counts[3] == Reflected && counts[4] == Rounds;
    assert counts[5] == Graded && counts[6] == EarlyAdopt && counts[7] == Active && counts[8] == Followups;
    assert counts[9] == Fired && counts[10] == Judged;
    assert (forall i :: 0 <= i < |a| ==> a[i] in multiset(b)) && forall i :: 0 <= i < |b| ==> b[i] in multiset(a);
  }

  lemma SameBuckets(a: seq<Example>, b: seq<Example>)
    requires multiset(a) == multiset(b)
    ensures |a| == |b| && MaxAdopted(a, |a|) == MaxAdopted(b, |b|) && Histogram(a) == Histogram(b)
  {
    hide Count, Fold, AdoptedAt;
    FoldPermutes(Larger, 0, AdoptedIfReflected, a, b);
    forall k: nat
      ensures Count(AdoptedAt(k), a, |a|) == Count(AdoptedAt(k), b, |b|)
    {
      CountPermutes(AdoptedAt(k), a, b);
    }
  }

  lemma {:induction false} MaxAdoptedIsMost(per: seq<Example>, n: nat)
    requires n <= |per|
    ensures forall i :: 0 <= i < n && per[i].reflectionRounds > 0 ==> per[i].adoptedRound <= MaxAdopted(per, n)
  {
    if n == 0 {
    } else {
      MaxAdoptedIsMost(per, n - 1);
    }
  }

  /** Examples that adopt a round only when they reflected never cause the index error. */
  lemma ReflectedNeverOverflows(per: seq<Example>)
    requires forall i :: 0 <= i < |per| && per[i].adoptedRound > 0 ==> per[i].reflectionRounds > 0
    ensures !Overflows(per)
  {
    MaxAdoptedIsMost(per, |per|);
  }
}
