/** The reflective answer loop: rounds under a limit, an adaptive extension and a shared follow-up budget. */
module Ask {
  import opened Options
  import opened ActiveRetrieval
  import opened Reflection

  /**
    Everything outside the loop, per round: retrieval, planning after the previous answer,
    the rest of a round up to the generated answer, grading and the deciding model.
  */
  datatype World = World(
    retrieve: int -> Retriever, plan: (int, string) -> Planner, dispatch: int -> Dispatch,
    complete: (int, seq<Hit>) -> Option<(string, seq<Hit>)>,
    relevance: int -> Option<(string, Hit) -> Option<real>>, support: int -> Hit -> Option<real>,
    decide: int -> Option<Reply>, trim: string -> string)

  ghost predicate IsWorld(world: World) {
    forall i :: IsDispatch(world.dispatch(i))
  }

  /** How a round grades a hit for one query. */
  function GraderOf(world: World, roundIndex: int, query: string): (grade: Option<Hit -> Option<real>>)
    ensures grade.None? <==> world.relevance(roundIndex).None?
    ensures grade.Some? ==> forall h :: grade.value(h) == world.relevance(roundIndex).value(query, h)
  {
    match world.relevance(roundIndex)
    case None => None
    case Some(relevance) => Some(h => relevance(query, h))
  }

  /** One call: the question, whether follow-ups may be planned, and how many hits to keep. */
  datatype Request = Request(question: string, active: bool, topK: int)

  /** What the diagnostics keep of one round. */
  datatype Round = Round(round: int, inputQuery: string, decision: DecisionResult, followups: seq<string>,
                         scores: seq<ChunkScore>)

  datatype Answer = Answer(result: RoundResult, rounds: seq<Round>, results: seq<RoundResult>, adopted: int, followupsUsed: int,
                           decisionModelCalls: int, failureFallback: bool)

  function TopScore(hits: seq<Hit>): real {
    if |hits| == 0 then 0.0 else hits[0].score
  }

  /** The evidence of a round: what was retrieved for its query, joined by the hits of its follow-ups. */
  ghost function Evidence(world: World, roundIndex: int, topK: int, seed: seq<Hit>, followups: seq<string>): seq<Hit> {
    if followups == [] then seed
    else UnionOf(seed + Followed(world.retrieve(roundIndex), world.dispatch(roundIndex), followups), topK)
  }

  /**
    The round answers from what its own query retrieves: its follow-ups are the plan for that
    seed, and its text, packed hits and top score come from the evidence gathered.
  */
  ghost predicate Answers(world: World, ask: Request, caps: Caps, roundIndex: int, query: string, prevAnswer: string,
                          remaining: int, seed: seq<Hit>, result: RoundResult) {
    && world.retrieve(roundIndex)(query) == Some(seed)
    && (if ask.active then
          IsPlan(world.plan(roundIndex, prevAnswer), caps, GraderOf(world, roundIndex, ask.question), seed, remaining,
                 result.followups)
        else result.followups == [])
    && var hits := Evidence(world, roundIndex, ask.topK, seed, result.followups);
    && world.complete(roundIndex, hits) == Some((result.text, result.hits))
    && result.topScore == if hits == [] then 0.0 else hits[0].score
  }

  ghost predicate IsAnswered(world: World, ask: Request, caps: Caps, roundIndex: int, query: string, prevAnswer: string,
                             remaining: int, result: RoundResult) {
    exists seed :: Answers(world, ask, caps, roundIndex, query, prevAnswer, remaining, seed, result)
  }

  /** One round; None is an error of retrieval, packing or generation. */
  method AskRound(world: World, roundIndex: int, ask: Request, query: string, caps: Caps, prevAnswer: string,
                  budget: Budget)
    returns (out: Option<RoundResult>)
    requires IsWorld(world) && caps.perRound > 0 && caps.floor > 0.0
    modifies budget
    ensures out.Some? ==>
      budget.used == old(budget.used) + |out.value.followups| &&
      budget.remaining == old(budget.remaining) - |out.value.followups|
    ensures out.Some? ==>
      |out.value.followups| <= caps.perRound && (old(budget.remaining) >= 0 ==> budget.remaining >= 0)
    ensures out.Some? && !ask.active ==> out.value.followups == []
    ensures out.Some? ==>
      IsAnswered(world, ask, caps, roundIndex, query, prevAnswer, old(budget.remaining), out.value)
  {
    hide UnionOf, Followed, IsPlan;
    var seed := world.retrieve(roundIndex)(query);
    if seed.None? {
      return None;
    }
    var hits, followups := seed.value, [];
    if ask.active {
      var outcome := budget.RunActiveRetrieval(world.plan(roundIndex, prevAnswer), caps,
                                               GraderOf(world, roundIndex, ask.question),
                                               world.retrieve(roundIndex), world.dispatch(roundIndex), hits, ask.topK);
      hits, followups := outcome.hits, outcome.followups;
    }
    var answer := world.complete(roundIndex, hits);
    if answer.None? {
      return None;
    }
    out := Some(RoundResult(answer.value.0, answer.value.1, TopScore(hits), followups));
    assert Answers(world, ask, caps, roundIndex, query, prevAnswer, old(budget.remaining), seed.value, out.value);
  }

  /* ---- What a transcript of rounds is ---- */

  ghost predicate AdaptiveOn(opts: ReflectionOptions) {
    opts.adaptiveRetrieval && opts.enableChunkGrading
  }

  ghost predicate NoStop(rounds: seq<Round>, n: nat)
    requires n <= |rounds|
  {
    forall j :: 0 <= j < n ==> rounds[j].decision.decision != Stop
  }

  /** Round k stops but is extended: nothing stopped before it, rounds are left and its evidence is weak. */
  ghost predicate Extends(opts: ReflectionOptions, rounds: seq<Round>, k: nat)
    requires k < |rounds|
  {
    && AdaptiveOn(opts) && rounds[k].decision.decision == Stop && NoStop(rounds, k) && k + 1 < opts.maxRounds
    && TopRelevance(rounds[k].scores) < EffectiveAdaptiveThreshold(opts)
  }

  ghost predicate GoesOn(opts: ReflectionOptions, rounds: seq<Round>, n: nat)
    requires n <= |rounds|
  {
    forall k :: 0 <= k < n ==> PassedOver(opts, rounds, k)
  }

  /** Round k is not the last one: it does not stop, or is extended. */
  ghost predicate PassedOver(opts: ReflectionOptions, rounds: seq<Round>, k: nat)
    requires k < |rounds|
  {
    k + 1 < opts.maxRounds && (rounds[k].decision.decision == Stop ==> Extends(opts, rounds, k))
  }

  /** The query after a round: a rewrite when the decision is one, else the question. */
  ghost function QueryAfter(question: string, r: Round): string {
    if r.decision.decision == RewriteAndContinue && r.decision.nextQuery != "" then r.decision.nextQuery else question
  }

  ghost function QueryAt(question: string, rounds: seq<Round>, k: nat): string
    requires k <= |rounds|
  {
    if k == 0 then question else QueryAfter(question, rounds[k - 1])
  }

  ghost function TextBefore(results: seq<RoundResult>, k: nat): string
    requires k <= |results|
  {
    if k == 0 then "" else results[k - 1].text
  }

  function Previous(results: seq<RoundResult>, k: nat): Option<RoundResult>
    requires k <= |results|
  {
    if k == 0 then None else Some(results[k - 1])
  }

  /** The rule leaves the round to the model: always in model mode, when it would go on in hybrid mode. */
  ghost predicate RuleQuiet(opts: ReflectionOptions, roundIndex: int, round: RoundResult) {
    opts.mode == Model || (opts.mode == Hybrid && !MeetsThresholds(opts, round) && roundIndex < opts.maxRounds)
  }

  ghost predicate Consults(opts: ReflectionOptions, roundIndex: int, round: RoundResult, previous: Option<RoundResult>) {
    RuleQuiet(opts, roundIndex, round) && !EvidenceUnchangedFrom(round, previous)
  }

  ghost function Consultations(opts: ReflectionOptions, results: seq<RoundResult>, n: nat): nat
    requires n <= |results|
  {
    if n == 0 then 0 else
      Consultations(opts, results, n - 1) + if Consults(opts, n, results[n - 1], Previous(results, n - 1)) then 1 else 0
  }

  /** What the model's reply may come to, given the query it answers. */
  ghost predicate FollowsReply(opts: ReflectionOptions, trim: string -> string, roundIndex: int, query: string,
                               reply: Reply, d: DecisionResult) {
    var rewrite := trim(reply.rewrite);
    var last := roundIndex >= opts.maxRounds;
    match reply.decision
    case Stop => d.decision == Stop && d.reason == ModelStop
    case Continue => d.decision == if last then Stop else Continue
    case RewriteAndContinue =>
      if !opts.allowRewrite || rewrite == "" then d.decision == if last then Stop else Continue
      else if trim(rewrite) == trim(query) then d.decision == Stop && d.reason == RewriteUnchanged
      else d.nextQuery == rewrite && d.decision == if last then Stop else RewriteAndContinue
  }

  /** The decision a round must get. */
  ghost predicate DecidedBy(opts: ReflectionOptions, world: World, roundIndex: int, query: string, round: RoundResult,
                            previous: Option<RoundResult>, d: DecisionResult) {
    && (roundIndex >= opts.maxRounds ==> d.decision == Stop)
    && (opts.mode != Model && MeetsThresholds(opts, round) ==> d.decision == Stop && d.reason == Satisfied)
    && (opts.mode == Rule && !MeetsThresholds(opts, round) && roundIndex < opts.maxRounds ==> d.decision == Continue)
    && (RuleQuiet(opts, roundIndex, round) && EvidenceUnchangedFrom(round, previous) ==>
      d.decision == Stop && d.reason == EvidenceUnchanged)
    && (Consults(opts, roundIndex, round, previous) ==>
      match world.decide(roundIndex)
      case None => opts.failOpen && d.decision == Stop && d.reason == DecisionError
      case Some(reply) => d.reason != DecisionError && FollowsReply(opts, world.trim, roundIndex, query, reply, d))
  }

  /** With grading on, one score per packed hit of the round, for the query of the round. */
  ghost predicate IsGraded(opts: ReflectionOptions, world: World, roundIndex: int, query: string, result: RoundResult,
                           scores: seq<ChunkScore>) {
    var grade := GraderOf(world, roundIndex, query);
    if !opts.enableChunkGrading || grade.None? then scores == []
    else
      && |scores| == |result.hits|
      && forall i :: 0 <= i < |scores| ==>
        scores[i] == ChunkScore(result.hits[i].chunkId, Relevance(grade.value, result.hits[i]),
                                Relevance(world.support(roundIndex), result.hits[i]))
  }

  ghost predicate IsRound(opts: ReflectionOptions, world: World, ask: Request, caps: Caps, rounds: seq<Round>,
                          results: seq<RoundResult>, k: nat)
    requires k < |rounds| == |results|
  {
    && rounds[k].round == k + 1 && rounds[k].inputQuery == QueryAt(ask.question, rounds, k)
    && rounds[k].followups == results[k].followups && |rounds[k].followups| <= caps.perRound
    && IsAnswered(world, ask, caps, k + 1, rounds[k].inputQuery, TextBefore(results, k),
                  caps.perAsk - FollowupsOf(rounds, k), results[k])
    && IsGraded(opts, world, k + 1, rounds[k].inputQuery, results[k], rounds[k].scores)
    && DecidedBy(opts, world, k + 1, rounds[k].inputQuery, results[k], Previous(results, k), rounds[k].decision)
  }

  ghost function FollowupsOf(rounds: seq<Round>, n: nat): nat
    requires n <= |rounds|
  {
    if n == 0 then 0 else FollowupsOf(rounds, n - 1) + |rounds[n - 1].followups|
  }

  ghost predicate AllRounds(opts: ReflectionOptions, world: World, ask: Request, caps: Caps, rounds: seq<Round>,
                            results: seq<RoundResult>) {
    |rounds| == |results| && forall k :: 0 <= k < |rounds| ==> IsRound(opts, world, ask, caps, rounds, results, k)
  }

  /** The last round stops, and nothing extends it: a failed decision never is, another stop only within Extends. */
  ghost predicate Ends(opts: ReflectionOptions, rounds: seq<Round>) {
    && rounds != [] && |rounds| <= opts.maxRounds && GoesOn(opts, rounds, |rounds| - 1)
    && rounds[|rounds| - 1].decision.decision == Stop
    && (Extends(opts, rounds, |rounds| - 1) ==> rounds[|rounds| - 1].decision.reason == DecisionError)
  }

  ghost predicate Adopts(opts: ReflectionOptions, a: Answer) {
    && 1 <= a.adopted <= |a.rounds| == |a.results|
    && a.result == a.results[a.adopted - 1] && a.rounds[a.adopted - 1].round == a.adopted
    && if opts.bestByScore && |a.rounds| > 1
       then IsPick(ScoresOf(a.rounds), opts.graderRelevanceWeight, opts.graderSupportWeight, a.adopted - 1)
       else a.adopted == |a.rounds|
  }

  function ScoresOf(rounds: seq<Round>): (graded: seq<seq<ChunkScore>>)
    ensures |graded| == |rounds|
    ensures forall i :: 0 <= i < |rounds| ==> graded[i] == rounds[i].scores
  {
    seq(|rounds|, i requires 0 <= i < |rounds| => rounds[i].scores)
  }

  function CapsOf(opts: ReflectionOptions): (caps: Caps)
    ensures caps.perRound > 0 && caps.perAsk > 0 && caps.floor > 0.0
    ensures opts.maxFollowupQueries > 0 ==> caps.perRound == opts.maxFollowupQueries
    ensures opts.maxFollowupQueriesPerAsk > 0 ==> caps.perAsk == opts.maxFollowupQueriesPerAsk
    ensures opts.relevanceFloor > 0.0 ==> caps.floor == opts.relevanceFloor
  {
    EffectiveCaps(opts.maxFollowupQueries, opts.maxFollowupQueriesPerAsk, opts.relevanceFloor)
  }

  /** What a successful run returns. */
  ghost predicate IsAnswer(opts: ReflectionOptions, world: World, ask: Request, a: Answer) {
    && AllRounds(opts, world, ask, CapsOf(opts), a.rounds, a.results) && Ends(opts, a.rounds) && Adopts(opts, a)
    && a.followupsUsed == FollowupsOf(a.rounds, |a.rounds|) <= CapsOf(opts).perAsk
    && (!ask.active ==> a.followupsUsed == 0)
    && a.decisionModelCalls == Consultations(opts, a.results, |a.results|)
    && (a.failureFallback <==> a.rounds[|a.rounds| - 1].decision.reason == DecisionError)
  }

  /* ---- The loops ---- */

  /** What holds before each round. */
  ghost predicate Running(opts: ReflectionOptions, world: World, ask: Request, rounds: seq<Round>,
                          results: seq<RoundResult>, query: string, adaptiveBudget: int) {
    && AllRounds(opts, world, ask, CapsOf(opts), rounds, results) && GoesOn(opts, rounds, |rounds|)
    && query == QueryAt(ask.question, rounds, |rounds|)
    && adaptiveBudget == (if AdaptiveOn(opts) && NoStop(rounds, |rounds|) then 1 else 0)
    && forall k :: 0 <= k < |rounds| ==> rounds[k].decision.reason != DecisionError
  }

  /** One more round, judged as it must be, leaves all rounds as they must be. */
  lemma AppendRound(opts: ReflectionOptions, world: World, ask: Request, rounds: seq<Round>,
                    results: seq<RoundResult>, query: string, adaptiveBudget: int, r: Round, result: RoundResult)
    requires Running(opts, world, ask, rounds, results, query, adaptiveBudget)
    requires r.round == |rounds| + 1 && r.inputQuery == query && r.followups == result.followups
    requires |r.followups| <= CapsOf(opts).perRound
    requires IsAnswered(world, ask, CapsOf(opts), r.round, query, TextBefore(results, |results|),
                        CapsOf(opts).perAsk - FollowupsOf(rounds, |rounds|), result)
    requires IsGraded(opts, world, r.round, query, result, r.scores)
    requires DecidedBy(opts, world, r.round, query, result, Previous(results, |results|), r.decision)
    ensures AllRounds(opts, world, ask, CapsOf(opts), rounds + [r], results + [result])
    ensures GoesOn(opts, rounds + [r], |rounds|)
    ensures FollowupsOf(rounds + [r], |rounds| + 1) == FollowupsOf(rounds, |rounds|) + |r.followups|
    ensures Consultations(opts, results + [result], |results| + 1)
      == Consultations(opts, results, |results|) + if Consults(opts, r.round, result, Previous(results, |results|)) then 1 else 0
  {
    hide DecidedBy, IsGraded, IsAnswered, CapsOf, Consults, Extends, GoesOn, IsRound, QueryAt;
    var rounds', results' := rounds + [r], results + [result];
    forall k: nat | k < |rounds|
      ensures IsRound(opts, world, ask, CapsOf(opts), rounds', results', k)
    {
      assert IsRound(opts, world, ask, CapsOf(opts), rounds, results, k);
      RoundKept(opts, world, ask, CapsOf(opts), rounds, results, r, result, k);
    }
    RoundAdded(opts, world, ask, CapsOf(opts), rounds, results, r, result);
    StillGoesOn(opts, rounds, r);
    FollowupsPrefix(rounds, rounds', |rounds|);
    ConsultationsPrefix(opts, results, results', |results|);
    assert Previous(results', |results|) == Previous(results, |results|);
  }

  /** A round stays what it is when another one follows. */
  lemma RoundKept(opts: ReflectionOptions, world: World, ask: Request, caps: Caps, rounds: seq<Round>,
                  results: seq<RoundResult>, r: Round, result: RoundResult, k: nat)
    requires k < |rounds| == |results| && IsRound(opts, world, ask, caps, rounds, results, k)
    ensures IsRound(opts, world, ask, caps, rounds + [r], results + [result], k)
  {
    hide DecidedBy, IsGraded, IsAnswered, QueryAfter;
    var rounds', results' := rounds + [r], results + [result];
    assert rounds'[k] == rounds[k] && results'[k] == results[k];
    assert QueryAt(ask.question, rounds', k) == QueryAt(ask.question, rounds, k);
    assert Previous(results', k) == Previous(results, k) && TextBefore(results', k) == TextBefore(results, k);
    FollowupsPrefix(rounds, rounds', k);
  }

  lemma RoundAdded(opts: ReflectionOptions, world: World, ask: Request, caps: Caps, rounds: seq<Round>,
                   results: seq<RoundResult>, r: Round, result: RoundResult)
    requires |rounds| == |results| && r.round == |rounds| + 1 && r.inputQuery == QueryAt(ask.question, rounds, |rounds|)
    requires r.followups == result.followups && |r.followups| <= caps.perRound
    requires IsAnswered(world, ask, caps, r.round, r.inputQuery, TextBefore(results, |results|),
                        caps.perAsk - FollowupsOf(rounds, |rounds|), result)
    requires IsGraded(opts, world, r.round, r.inputQuery, result, r.scores)
    requires DecidedBy(opts, world, r.round, r.inputQuery, result, Previous(results, |results|), r.decision)
    ensures IsRound(opts, world, ask, caps, rounds + [r], results + [result], |rounds|)
  {
    hide DecidedBy, IsGraded, IsAnswered, QueryAfter;
    var rounds', results', k := rounds + [r], results + [result], |rounds|;
    assert rounds'[k] == r && results'[k] == result;
    assert QueryAt(ask.question, rounds', k) == QueryAt(ask.question, rounds, k);
    assert Previous(results', k) == Previous(results, k) && TextBefore(results', k) == TextBefore(results, k);
    FollowupsPrefix(rounds, rounds', k);
  }

  lemma StillGoesOn(opts: ReflectionOptions, rounds: seq<Round>, r: Round)
    requires GoesOn(opts, rounds, |rounds|)
    ensures GoesOn(opts, rounds + [r], |rounds|)
  {
    hide Extends;
    forall k: nat | k < |rounds|
      ensures PassedOver(opts, rounds + [r], k)
    {
      assert PassedOver(opts, rounds, k) && (rounds + [r])[k] == rounds[k];
      ExtendsByPrefix(opts, rounds, r, k);
    }
  }

  lemma ExtendsByPrefix(opts: ReflectionOptions, rounds: seq<Round>, r: Round, k: nat)
    requires k < |rounds|
    ensures Extends(opts, rounds + [r], k) == Extends(opts, rounds, k)
  {
    hide TopRelevance, EffectiveAdaptiveThreshold;
    assert forall j :: 0 <= j < |rounds| ==> (rounds + [r])[j] == rounds[j];
    assert NoStop(rounds + [r], k) == NoStop(rounds, k);
  }

  lemma {:induction false} FollowupsPrefix(a: seq<Round>, b: seq<Round>, n: nat)
    requires n <= |a| <= |b| && a <= b
    ensures FollowupsOf(a, n) == FollowupsOf(b, n)
  {
    if n == 0 {
    } else {
      FollowupsPrefix(a, b, n - 1);
    }
  }

  lemma {:induction false} ConsultationsPrefix(opts: ReflectionOptions, a: seq<RoundResult>, b: seq<RoundResult>, n: nat)
    requires n <= |a| <= |b| && a <= b
    ensures Consultations(opts, a, n) == Consultations(opts, b, n)
  {
    hide Consults;
    if n == 0 {
    } else {
      ConsultationsPrefix(opts, a, b, n - 1);
      assert Previous(a, n - 1) == Previous(b, n - 1);
    }
  }

  /** Adopts the last round, or the best one when asked to. */
  method Adopt(opts: ReflectionOptions, rounds: seq<Round>, results: seq<RoundResult>, used: int, calls: int,
               fallback: bool) returns (a: Answer)
    requires rounds != [] && |rounds| == |results| && forall k :: 0 <= k < |rounds| ==> rounds[k].round == k + 1
    ensures Adopts(opts, a) && a.rounds == rounds && a.results == results
    ensures a.followupsUsed == used && a.decisionModelCalls == calls && a.failureFallback == fallback
  {
    var adoptedIdx := |rounds| - 1;
    if opts.bestByScore && |rounds| > 1 {
      adoptedIdx := PickBestRound(ScoresOf(rounds), opts.graderRelevanceWeight, opts.graderSupportWeight);
    }
    a := Answer(results[adoptedIdx], rounds, results, rounds[adoptedIdx].round, used, calls, fallback);
  }

  /** Grades the round when grading is on, and records it. */
  method RecordRound(opts: ReflectionOptions, world: World, roundIndex: int, query: string, result: RoundResult,
                     d: DecisionResult)
    returns (r: Round, maxRel: real)
    ensures r.round == roundIndex && r.inputQuery == query && r.decision == d && r.followups == result.followups
    ensures maxRel == TopRelevance(r.scores) && IsGraded(opts, world, roundIndex, query, result, r.scores)
  {
    var scores: seq<ChunkScore> := [];
    maxRel := 0.0;
    if opts.enableChunkGrading {
      scores, maxRel := GradeRound(GraderOf(world, roundIndex, query), world.support(roundIndex), result);
    }
    r := Round(roundIndex, query, d, result.followups, scores);
  }

  /** The decision of a round and whether the model was asked; None is a failed decision. */
  method Decide(opts: ReflectionOptions, world: World, roundIndex: int, query: string, round: RoundResult,
                previous: Option<RoundResult>)
    returns (d: Option<DecisionResult>, called: bool)
    ensures d.Some? ==>
      DecidedBy(opts, world, roundIndex, query, round, previous, d.value) && d.value.reason != DecisionError
    ensures d.None? ==> Consults(opts, roundIndex, round, previous) && world.decide(roundIndex).None?
    ensures called <==> Consults(opts, roundIndex, round, previous)
  {
    called := false;
    if opts.mode != Model {
      var ruled := DecideRule(roundIndex, opts, round);
      if opts.mode == Rule || ruled.decision == Stop {
        return Some(ruled), false;
      }
    }
    if EvidenceUnchangedFrom(round, previous) {
      return Some(DecisionResult(Stop, EvidenceUnchanged, "")), false;
    }
    var reply := world.decide(roundIndex);
    called := true;
    if reply.None? {
      return None, true;
    }
    var decided := ResolveModelRewrite(world.trim, query, DecideWithModel(opts, world.trim, reply.value));
    if roundIndex >= opts.maxRounds && decided.decision != Stop {
      decided := ClampDecisionAtMaxRounds(decided);
    }
    d := Some(decided);
  }

  /** After a recorded round: extend a stop with the adaptive budget, stop, or go on with the next query. */
  method GoOn(opts: ReflectionOptions, question: string, r: Round, maxRel: real, adaptiveBudget: int)
    returns (goOn: bool, query: string, left: int)
    ensures goOn <==> r.decision.decision != Stop || Extending(opts, r, maxRel, adaptiveBudget)
    ensures goOn ==> query == QueryAfter(question, r)
    ensures left == if Extending(opts, r, maxRel, adaptiveBudget) then adaptiveBudget - 1 else adaptiveBudget
  {
    query, left := question, adaptiveBudget;
    if r.decision.decision == Stop && opts.adaptiveRetrieval && opts.enableChunkGrading && adaptiveBudget > 0
       && r.round < opts.maxRounds && maxRel < EffectiveAdaptiveThreshold(opts) {
      return true, question, adaptiveBudget - 1;
    }
    if r.decision.decision == Stop {
      return false, question, adaptiveBudget;
    }
    goOn := true;
    if r.decision.decision == RewriteAndContinue && r.decision.nextQuery != "" {
      query := r.decision.nextQuery;
    }
  }

  ghost predicate Extending(opts: ReflectionOptions, r: Round, maxRel: real, adaptiveBudget: int) {
    && r.decision.decision == Stop && AdaptiveOn(opts) && adaptiveBudget > 0 && r.round < opts.maxRounds
    && maxRel < EffectiveAdaptiveThreshold(opts)
  }

  lemma StartsRunning(opts: ReflectionOptions, world: World, ask: Request, adaptiveBudget: int)
    requires adaptiveBudget == if opts.adaptiveRetrieval && opts.enableChunkGrading then 1 else 0
    ensures Running(opts, world, ask, [], [], ask.question, adaptiveBudget)
  {
  }

  /** Rounds are left as long as the loop runs. */
  lemma RoundsLeft(opts: ReflectionOptions, world: World, ask: Request, rounds: seq<Round>,
                   results: seq<RoundResult>, query: string, adaptiveBudget: int)
    requires Running(opts, world, ask, rounds, results, query, adaptiveBudget) && opts.maxRounds >= 1
    ensures |rounds| == |results| && |rounds| < opts.maxRounds
  {
    if rounds != [] {
      assert PassedOver(opts, rounds, |rounds| - 1);
    }
  }

  /** Recording a decided round and going on, or not, keeps the loop's invariant or ends the transcript. */
  lemma AfterRound(opts: ReflectionOptions, world: World, ask: Request, rounds: seq<Round>,
                   results: seq<RoundResult>, query: string, adaptiveBudget: int, r: Round, result: RoundResult,
                   maxRel: real, left: int)
    requires Running(opts, world, ask, rounds, results, query, adaptiveBudget) && opts.maxRounds >= 1
    requires AllRounds(opts, world, ask, CapsOf(opts), rounds + [r], results + [result])
    requires GoesOn(opts, rounds + [r], |rounds|)
    requires r.round == |rounds| + 1 && r.decision.reason != DecisionError
    requires (r.round >= opts.maxRounds ==> r.decision.decision == Stop)
    requires maxRel == TopRelevance(r.scores)
    requires left == if Extending(opts, r, maxRel, adaptiveBudget) then adaptiveBudget - 1 else adaptiveBudget
    ensures r.decision.decision != Stop || Extending(opts, r, maxRel, adaptiveBudget) ==>
      Running(opts, world, ask, rounds + [r], results + [result], QueryAfter(ask.question, r), left)
    ensures r.decision.decision == Stop && !Extending(opts, r, maxRel, adaptiveBudget) ==> Ends(opts, rounds + [r])
  {
    hide AllRounds, CapsOf, TopRelevance, EffectiveAdaptiveThreshold;
    RoundsLeft(opts, world, ask, rounds, results, query, adaptiveBudget);
    var rounds' := rounds + [r];
    assert NoStop(rounds', |rounds|) <==> NoStop(rounds, |rounds|) by {
      assert forall k :: 0 <= k < |rounds| ==> rounds'[k] == rounds[k];
    }
    assert Extends(opts, rounds', |rounds|) <==> Extending(opts, r, maxRel, adaptiveBudget);
  }

  lemma FailedEnds(opts: ReflectionOptions, world: World, ask: Request, rounds: seq<Round>,
                   results: seq<RoundResult>, query: string, adaptiveBudget: int, r: Round)
    requires Running(opts, world, ask, rounds, results, query, adaptiveBudget) && opts.maxRounds >= 1
    requires GoesOn(opts, rounds + [r], |rounds|) && r.decision.decision == Stop && r.decision.reason == DecisionError
    ensures Ends(opts, rounds + [r])
  {
    hide AllRounds, CapsOf, Extends, GoesOn;
    RoundsLeft(opts, world, ask, rounds, results, query, adaptiveBudget);
  }

  lemma Numbered(opts: ReflectionOptions, world: World, ask: Request, caps: Caps, rounds: seq<Round>,
                 results: seq<RoundResult>)
    requires AllRounds(opts, world, ask, caps, rounds, results)
    ensures |rounds| == |results| && forall k :: 0 <= k < |rounds| ==> rounds[k].round == k + 1
  {
    hide DecidedBy;
    forall k | 0 <= k < |rounds|
      ensures rounds[k].round == k + 1
    {
      assert IsRound(opts, world, ask, caps, rounds, results, k);
    }
  }

  lemma FailedDecides(opts: ReflectionOptions, world: World, roundIndex: int, query: string, round: RoundResult,
                      previous: Option<RoundResult>)
    requires Consults(opts, roundIndex, round, previous) && world.decide(roundIndex).None? && opts.failOpen
    ensures DecidedBy(opts, world, roundIndex, query, round, previous, DecisionResult(Stop, DecisionError, ""))
  {
  }

  lemma StopsAtLimit(opts: ReflectionOptions, world: World, roundIndex: int, query: string, round: RoundResult,
                     previous: Option<RoundResult>, d: DecisionResult)
    requires DecidedBy(opts, world, roundIndex, query, round, previous, d)
    ensures roundIndex >= opts.maxRounds ==> d.decision == Stop
  {
  }

  lemma NothingCounted(opts: ReflectionOptions)
    ensures FollowupsOf([], 0) == 0 && Consultations(opts, [], 0) == 0
  {
  }

  /** Without active retrieval it does not matter what is left. */
  lemma AnsweredWithin(world: World, ask: Request, caps: Caps, roundIndex: int, query: string, prevAnswer: string,
                       remaining: int, left: int, result: RoundResult)
    requires IsAnswered(world, ask, caps, roundIndex, query, prevAnswer, remaining, result)
    requires ask.active ==> left == remaining
    ensures IsAnswered(world, ask, caps, roundIndex, query, prevAnswer, left, result)
  {
    hide IsPlan, Evidence;
    var seed :| Answers(world, ask, caps, roundIndex, query, prevAnswer, remaining, seed, result);
    assert Answers(world, ask, caps, roundIndex, query, prevAnswer, left, seed, result);
  }

  /** What is spent and what is left make up the per-Ask cap, or nothing without active retrieval. */
  ghost predicate Spent(used: int, remaining: int, active: bool, opts: ReflectionOptions, rounds: seq<Round>) {
    && used == FollowupsOf(rounds, |rounds|) && remaining >= 0
    && used + remaining == if active then CapsOf(opts).perAsk else 0
  }

  /** The reflection loop; None is an error of one of its rounds, or of a decision without FailOpen. */
  method Reflect(opts: ReflectionOptions, world: World, question: string, planner: bool, topK: int)
    returns (out: Option<Answer>)
    requires IsWorld(world) && opts.maxRounds >= 1
    ensures out.Some? ==> 
      IsAnswer(opts, world, Request(question, opts.enableActiveRetrieval && planner, topK), out.value)
  {
    hide IsWorld, AdaptiveOn, NoStop, Extends, PassedOver, GoesOn, QueryAfter, QueryAt, Consults, Consultations;
    hide DecidedBy, IsGraded, IsAnswered;
    hide AllRounds, FollowupsOf, Ends, Adopts, CapsOf, Running, Extending, TopRelevance;
    var ask := Request(question, opts.enableActiveRetrieval && planner, topK);
    var active := ask.active;
    var caps := CapsOf(opts);
    var budget := new Budget(if active then caps.perAsk else 0);
    var query, prevAnswer := question, "";
    var rounds: seq<Round>, results: seq<RoundResult> := [], [];
    var calls, fallback := 0, false;
    var adaptiveBudget := 0;
    if opts.adaptiveRetrieval && opts.enableChunkGrading {
      adaptiveBudget := 1;
    }
    StartsRunning(opts, world, ask, adaptiveBudget);
    NothingCounted(opts);
    var roundIndex := 1;
    while roundIndex <= opts.maxRounds
      invariant roundIndex == |rounds| + 1 <= opts.maxRounds && |rounds| == |results| && !fallback
      invariant Running(opts, world, ask, rounds, results, query, adaptiveBudget)
      invariant prevAnswer == TextBefore(results, |results|)
      invariant fresh(budget) && Spent(budget.used, budget.remaining, active, opts, rounds)
      invariant calls == Consultations(opts, results, |results|)
    {
      ghost var before := budget.remaining;
      var round := AskRound(world, roundIndex, ask, query, caps, prevAnswer, budget);
      if round.None? {
        return None;
      }
      var previous := Previous(results, |results|);
      var d, called := Decide(opts, world, roundIndex, query, round.value, previous);
      if d.None? && !opts.failOpen {
        return None;
      }
      fallback := d.None?;
      if fallback {
        FailedDecides(opts, world, roundIndex, query, round.value, previous);
        d := Some(DecisionResult(Stop, DecisionError, ""));
      }
      calls := if called then calls + 1 else calls;
      var r, maxRel := RecordRound(opts, world, roundIndex, query, round.value, d.value);
      AnsweredWithin(world, ask, caps, roundIndex, query, prevAnswer, before,
                     caps.perAsk - FollowupsOf(rounds, |rounds|), round.value);
      AppendRound(opts, world, ask, rounds, results, query, adaptiveBudget, r, round.value);
      ghost var earlier, earlierResults := rounds, results;
      rounds, results := rounds + [r], results + [round.value];
      if fallback {
        FailedEnds(opts, world, ask, earlier, earlierResults, query, adaptiveBudget, r);
        break;
      }
      prevAnswer := round.value.text;
      var goOn, next, left := GoOn(opts, question, r, maxRel, adaptiveBudget);
      StopsAtLimit(opts, world, roundIndex, query, round.value, previous, d.value);
      AfterRound(opts, world, ask, earlier, earlierResults, query, adaptiveBudget, r, round.value, maxRel, left);
      if !goOn {
        break;
      }
      RoundsLeft(opts, world, ask, rounds, results, next, left);
      query, adaptiveBudget := next, left;
      roundIndex := roundIndex + 1;
    }
    Numbered(opts, world, ask, caps, rounds, results);
    var a := Adopt(opts, rounds, results, budget.used, calls, fallback);
    out := Some(a);
  }

  /** The whole call: options are normalised first. */
  method AskReflectively(opts: ReflectionOptions, world: World, question: string, planner: bool, topK: int)
    returns (out: Option<Answer>)
    requires IsWorld(world)
    ensures var normal := NormalizeReflectionOptions(opts);
      out.Some? ==> IsAnswer(normal, world, Request(question, normal.enableActiveRetrieval && planner, topK), out.value)
  {
    out := Reflect(NormalizeReflectionOptions(opts), world, question, planner, topK);
  }

  /* ---- The shape of every successful run ---- */

  lemma {:induction false} FewConsultations(opts: ReflectionOptions, results: seq<RoundResult>, n: nat)
    requires n <= |results|
    ensures Consultations(opts, results, n) <= n
  {
    if n == 0 {
    } else {
      FewConsultations(opts, results, n - 1);
    }
  }

  /** Only the adaptive extension passes over a stop, and it does so once. */
  lemma OneExtension(opts: ReflectionOptions, rounds: seq<Round>, j: nat, k: nat)
    requires j < k < |rounds| - 1 && GoesOn(opts, rounds, |rounds| - 1)
    ensures rounds[j].decision.decision == Stop ==> rounds[k].decision.decision != Stop && AdaptiveOn(opts)
  {
    if rounds[k].decision.decision == Stop {
      assert PassedOver(opts, rounds, k);
    }
    if rounds[j].decision.decision == Stop {
      assert PassedOver(opts, rounds, j);
    }
  }

  /**
    Rounds are numbered 1 to n within the limit, the last one stops and at most one before
    it does, the adopted round is a recorded one, the model is asked at most once a round,
    and the follow-ups of the rounds add up to what was used, within the per-Ask cap.
  */
  lemma RunShape(opts: ReflectionOptions, world: World, ask: Request, a: Answer)
    requires IsAnswer(opts, world, ask, a)
    ensures 1 <= |a.rounds| <= opts.maxRounds
    ensures forall k :: 0 <= k < |a.rounds| ==> a.rounds[k].round == k + 1
    ensures a.rounds[|a.rounds| - 1].decision.decision == Stop
    ensures forall j, k :: 0 <= j < k < |a.rounds| - 1 && a.rounds[j].decision.decision == Stop ==>
      a.rounds[k].decision.decision != Stop
    ensures 1 <= a.adopted <= |a.rounds| && a.result == a.results[a.adopted - 1]
    ensures a.decisionModelCalls <= |a.rounds| && (opts.mode == Rule ==> a.decisionModelCalls == 0)
    ensures a.followupsUsed == FollowupsOf(a.rounds, |a.rounds|) <= CapsOf(opts).perAsk
  {
    hide DecidedBy, CapsOf, AllRounds, Consultations, FollowupsOf;
    Numbered(opts, world, ask, CapsOf(opts), a.rounds, a.results);
    FewConsultations(opts, a.results, |a.results|);
    if opts.mode == Rule {
      RuleNeverConsults(opts, a.results, |a.results|);
    }
    forall j, k | 0 <= j < k < |a.rounds| - 1 && a.rounds[j].decision.decision == Stop
      ensures a.rounds[k].decision.decision != Stop
    {
      OneExtension(opts, a.rounds, j, k);
    }
  }

  lemma {:induction false} RuleNeverConsults(opts: ReflectionOptions, results: seq<RoundResult>, n: nat)
    requires n <= |results| && opts.mode == Rule
    ensures Consultations(opts, results, n) == 0
  {
    if n == 0 {
    } else {
      RuleNeverConsults(opts, results, n - 1);
    }
  }
}
