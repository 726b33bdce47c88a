/** Follow-up retrieval within a round: planning under caps, dispatch, and the union of the hits. */
module ActiveRetrieval {
  import opened Ids
  import opened Options
  import opened Orders
  import Fanout

  const DEFAULT_PER_ROUND_CAP := 2
  const DEFAULT_GLOBAL_CAP := 4
  const DEFAULT_FLOOR := 0.4
  const NEUTRAL_RELEVANCE := 0.5

  datatype Hit = Hit(chunkId: Id, docId: Id, content: string, score: real)

  /** A retriever: the hits for a query, or None for an error. */
  type Retriever = string -> Option<seq<Hit>>

  /* ---- The union of hit lists ---- */

  /** Chunk IDs in the order they first occur. */
  ghost function FirstSeen(all: seq<Hit>): seq<Id> {
    if all == [] then [] else
      var front, h := FirstSeen(all[..|all| - 1]), all[|all| - 1];
      if h.chunkId in front then front else front + [h.chunkId]
  }

  /** Where a chunk ID first occurs. */
  ghost function FirstAt(all: seq<Hit>, id: Id): int {
    if all == [] then 0
    else if id in FirstSeen(all[..|all| - 1]) then FirstAt(all[..|all| - 1], id)
    else |all| - 1
  }

  lemma {:induction false} SeenIff(all: seq<Hit>, id: Id)
    ensures id in FirstSeen(all) <==> exists k :: 0 <= k < |all| && all[k].chunkId == id
  {
    if all == [] {
    } else {
      SeenIff(all[..|all| - 1], id);
    }
  }

  /** The earliest hit of highest score with the given chunk ID. */
  ghost function Best(all: seq<Hit>, id: Id): Hit
    requires id in FirstSeen(all)
  {
    var front, h := all[..|all| - 1], all[|all| - 1];
    if h.chunkId != id then Best(front, id)
    else if id !in FirstSeen(front) then h
    else if h.score > Best(front, id).score then h
    else Best(front, id)
  }

  lemma {:induction false} BestIsBest(all: seq<Hit>, id: Id)
    requires id in FirstSeen(all)
    ensures Best(all, id).chunkId == id && Best(all, id) in all
    ensures forall k :: 0 <= k < |all| && all[k].chunkId == id ==> all[k].score <= Best(all, id).score
  {
    var front, h := all[..|all| - 1], all[|all| - 1];
    assert all == front + [h];
    SeenIff(front, id);
    if id in FirstSeen(front) {
      BestIsBest(front, id);
    }
  }

  lemma {:induction false} FirstAtIs(all: seq<Hit>, id: Id)
    requires id in FirstSeen(all)
    ensures 0 <= FirstAt(all, id) < |all| && all[FirstAt(all, id)].chunkId == id
    ensures forall k :: 0 <= k < FirstAt(all, id) ==> all[k].chunkId != id
  {
    var front := all[..|all| - 1];
    SeenIff(front, id);
    if id in FirstSeen(front) {
      FirstAtIs(front, id);
    }
  }

  lemma {:induction false} SeenRising(all: seq<Hit>)
    ensures forall i, j :: 0 <= i < j < |FirstSeen(all)| ==>
      FirstAt(all, FirstSeen(all)[i]) < FirstAt(all, FirstSeen(all)[j])
  {
    if all == [] {
    } else {
      var front := all[..|all| - 1];
      SeenRising(front);
      forall i | 0 <= i < |FirstSeen(front)|
        ensures FirstAt(all, FirstSeen(front)[i]) == FirstAt(front, FirstSeen(front)[i]) < |all| - 1
      {
        FirstAtIs(front, FirstSeen(front)[i]);
      }
    }
  }

  ghost function Bests(all: seq<Hit>): (bests: seq<Hit>)
    ensures |bests| == |FirstSeen(all)|
    ensures forall i :: 0 <= i < |bests| ==> bests[i] == Best(all, FirstSeen(all)[i])
  {
    seq(|FirstSeen(all)|, i requires 0 <= i < |FirstSeen(all)| => Best(all, FirstSeen(all)[i]))
  }

  predicate HigherScore(a: Hit, b: Hit) {
    a.score > b.score
  }

  function Cut(hits: seq<Hit>, capK: int): seq<Hit> {
    if capK > 0 && |hits| > capK then hits[..capK] else hits
  }

  ghost function UnionOf(all: seq<Hit>, capK: int): seq<Hit> {
    Cut(SortBy(HigherScore, Bests(all)), capK)
  }

  /** Higher scores first, and among equal scores the chunk seen first. */
  ghost predicate Precedes(all: seq<Hit>, a: Hit, b: Hit) {
    a.score > b.score || (a.score == b.score && FirstAt(all, a.chunkId) < FirstAt(all, b.chunkId))
  }

  /** One hit per chunk, the best one, every chunk present, in order of precedence. */
  ghost predicate IsUnion(all: seq<Hit>, full: seq<Hit>) {
    AllBest(all, full) && Covers(all, full) && InOrder(all, full)
  }

  ghost predicate IsBest(all: seq<Hit>, h: Hit) {
    h in all && forall k :: 0 <= k < |all| && all[k].chunkId == h.chunkId ==> all[k].score <= h.score
  }

  ghost predicate AllBest(all: seq<Hit>, full: seq<Hit>) {
    forall i :: 0 <= i < |full| ==> IsBest(all, full[i])
  }

  ghost predicate Covers(all: seq<Hit>, full: seq<Hit>) {
    forall k :: 0 <= k < |all| ==> Names(full, all[k].chunkId)
  }

  ghost predicate Names(full: seq<Hit>, id: Id) {
    exists i :: 0 <= i < |full| && full[i].chunkId == id
  }

  ghost predicate InOrder(all: seq<Hit>, full: seq<Hit>) {
    forall i, j :: 0 <= i < j < |full| ==> Precedes(all, full[i], full[j])
  }

  /** The union is what it should be, and the cap keeps its first capK hits. */
  lemma UnionMeans(all: seq<Hit>, capK: int)
    ensures IsUnion(all, UnionOf(all, 0))
    ensures UnionOf(all, capK) <= UnionOf(all, 0)
    ensures |UnionOf(all, capK)| == if 0 < capK < |UnionOf(all, 0)| then capK else |UnionOf(all, 0)|
  {
    hide AllBest, Covers, InOrder, Bests, SortBy;
    var full := SortBy(HigherScore, Bests(all));
    SortedPrecede(all);
    Rearranged(full, Bests(all));
    BestsFit(all, full);
  }

  lemma BestsFit(all: seq<Hit>, full: seq<Hit>)
    requires forall h :: h in full <==> h in Bests(all)
    ensures AllBest(all, full) && Covers(all, full)
  {
    hide Best, FirstSeen, IsBest, Names;
    forall i | 0 <= i < |full|
      ensures IsBest(all, full[i])
    {
      assert full[i] in full;
      var k :| 0 <= k < |Bests(all)| && Bests(all)[k] == full[i];
      BestFits(all, FirstSeen(all)[k]);
    }
    forall k | 0 <= k < |all|
      ensures Names(full, all[k].chunkId)
    {
      SeenIff(all, all[k].chunkId);
      var i :| 0 <= i < |FirstSeen(all)| && FirstSeen(all)[i] == all[k].chunkId;
      BestFits(all, FirstSeen(all)[i]);
      assert Bests(all)[i] in Bests(all);
      Named(full, Bests(all)[i]);
    }
  }

  lemma Named(full: seq<Hit>, h: Hit)
    requires h in full
    ensures Names(full, h.chunkId)
  {
  }

  lemma BestFits(all: seq<Hit>, id: Id)
    requires id in FirstSeen(all)
    ensures IsBest(all, Best(all, id)) && Best(all, id).chunkId == id
  {
    BestIsBest(all, id);
  }

  lemma SortedPrecede(all: seq<Hit>)
    ensures var full := SortBy(HigherScore, Bests(all));
      InOrder(all, full)
  {
    hide Best, FirstSeen, FirstAt, SortBy;
    var full := SortBy(HigherScore, Bests(all));
    var pos := (h: Hit) => FirstAt(all, h.chunkId);
    SeenRising(all);
    forall i, j | 0 <= i < j < |Bests(all)|
      ensures pos(Bests(all)[i]) < pos(Bests(all)[j])
    {
      BestIsBest(all, FirstSeen(all)[i]);
      BestIsBest(all, FirstSeen(all)[j]);
    }
    SortStable(HigherScore, pos, Bests(all));
    RisingDiffer(pos, Bests(all));
    Rearranged(full, Bests(all));
    forall i, j | 0 <= i < j < |full|
      ensures Precedes(all, full[i], full[j])
    {
      assert !ByPosition(HigherScore, pos, full[j], full[i]);
      SamePlace(pos, Bests(all), full[i], full[j]);
    }
  }

  lemma RisingDiffer(pos: Hit -> int, xs: seq<Hit>)
    requires Rising(pos, xs)
    ensures Distinct(xs)
  {
  }

  lemma SamePlace(pos: Hit -> int, xs: seq<Hit>, a: Hit, b: Hit)
    requires Rising(pos, xs) && a in xs && b in xs && a != b
    ensures pos(a) != pos(b)
  {
  }

  /** Alike hits precede and follow alike hits, and neither of two alike hits precedes the other. */
  lemma PrecedesAlike(all: seq<Hit>, a: Hit, b: Hit, c: Hit, d: Hit)
    requires a.chunkId == c.chunkId && a.score == c.score && b.chunkId == d.chunkId && b.score == d.score
    ensures Precedes(all, a, b) ==> !Precedes(all, d, c)
    ensures Precedes(all, a, b) ==> a.chunkId != b.chunkId || a.score != b.score
  {
  }

  lemma SameScore(all: seq<Hit>, a: Hit, b: Hit)
    requires IsBest(all, a) && IsBest(all, b) && a.chunkId == b.chunkId
    ensures a.score == b.score
  {
  }

  lemma OncePerChunk(all: seq<Hit>, full: seq<Hit>, i: nat, j: nat)
    requires AllBest(all, full) && InOrder(all, full) && i < j < |full|
    ensures full[i].chunkId != full[j].chunkId
  {
    hide IsBest, Precedes;
    if full[i].chunkId == full[j].chunkId {
      SameScore(all, full[i], full[j]);
      PrecedesAlike(all, full[i], full[j], full[i], full[j]);
    }
  }

  lemma PlaceOf(all: seq<Hit>, full: seq<Hit>, h: Hit) returns (i: nat)
    requires AllBest(all, full) && Covers(all, full) && IsBest(all, h)
    ensures i < |full| && full[i].chunkId == h.chunkId && full[i].score == h.score
  {
    assert Names(full, h.chunkId) by {
      var k :| 0 <= k < |all| && all[k] == h;
    }
    hide IsBest;
    i :| 0 <= i < |full| && full[i].chunkId == h.chunkId;
    SameScore(all, full[i], h);
  }

  /** Two unions of the same hits name the same chunks in the same places, with the same scores. */
  lemma {:induction false} UnionUnique(all: seq<Hit>, a: seq<Hit>, b: seq<Hit>, n: nat)
    requires IsUnion(all, a) && IsUnion(all, b) && n <= |a|
    ensures n <= |b| && forall i :: 0 <= i < n ==> a[i].chunkId == b[i].chunkId && a[i].score == b[i].score
  {
    hide Covers, Precedes, IsBest, InOrder, AllBest;
    if n == 0 {
    } else {
      UnionUnique(all, a, b, n - 1);
      var i := n - 1;
      BestAt(all, a, i);
      var j := PlaceOf(all, b, a[i]);
      if j < i {
        OncePerChunk(all, a, j, i);
      }
      BestAt(all, b, i);
      var m := PlaceOf(all, a, b[i]);
      if m < i {
        OncePerChunk(all, b, m, i);
      }
      if i < j {
        OncePerChunk(all, b, i, j);
        PrecedesAt(all, b, i, j);
        PrecedesAt(all, a, i, m);
        PrecedesAlike(all, b[i], b[j], a[m], a[i]);
      }
    }
  }

  lemma BestAt(all: seq<Hit>, full: seq<Hit>, i: nat)
    requires AllBest(all, full) && i < |full|
    ensures IsBest(all, full[i])
  {
  }

  lemma PrecedesAt(all: seq<Hit>, full: seq<Hit>, i: nat, j: nat)
    requires InOrder(all, full) && i < j < |full|
    ensures Precedes(all, full[i], full[j])
  {
  }

  /** The map of best hits and the list of IDs that a union builds up. */
  class HitUnion {
    var byID: map<Id, Hit>
    var order: seq<Id>

    ghost predicate Holds(all: seq<Hit>)
      reads this
    {
      && order == FirstSeen(all)
      && (forall id :: id in byID <==> id in order)
      && forall id :: id in byID ==> byID[id] == Best(all, id)
    }

    constructor ()
      ensures Holds([])
    {
      byID, order := map[], [];
    }

    method Add(h: Hit, ghost all: seq<Hit>)
      requires Holds(all)
      modifies this
      ensures Holds(all + [h])
    {
      assert (all + [h])[..|all + [h]| - 1] == all;
      if h.chunkId in byID {
        if h.score > byID[h.chunkId].score {
          byID := byID[h.chunkId := h];
        }
        return;
      }
      byID := byID[h.chunkId := h];
      order := order + [h.chunkId];
    }

    method AddAll(hits: seq<Hit>, ghost all: seq<Hit>)
      requires Holds(all)
      modifies this
      ensures Holds(all + hits)
    {
      hide Holds;
      assert all + hits[..0] == all;
      for i := 0 to |hits|
        invariant Holds(all + hits[..i])
      {
        Add(hits[i], all + hits[..i]);
        assert all + hits[..i] + [hits[i]] == all + hits[..i + 1];
      }
      assert hits[..|hits|] == hits;
    }
  }

  ghost function Concat(lists: seq<seq<Hit>>, n: nat): seq<Hit>
    requires n <= |lists|
  {
    if n == 0 then [] else Concat(lists, n - 1) + lists[n - 1]
  }

  /** Dedupes seed and follow-up hits by chunk, sorts them stably and cuts to capK. */
  method UnionHits(seeds: seq<Hit>, followups: seq<seq<Hit>>, capK: int) returns (out: seq<Hit>)
    ensures out == UnionOf(seeds + Concat(followups, |followups|), capK)
  {
    hide Best, FirstSeen, SortBy;
    var u := new HitUnion();
    u.AddAll(seeds, []);
    assert [] + seeds == seeds + Concat(followups, 0);
    for n := 0 to |followups|
      invariant u.Holds(seeds + Concat(followups, n))
    {
      u.AddAll(followups[n], seeds + Concat(followups, n));
      assert seeds + Concat(followups, n) + followups[n] == seeds + Concat(followups, n + 1);
    }
    ghost var all := seeds + Concat(followups, |followups|);
    out := [];
    for i := 0 to |u.order|
      invariant u.Holds(all)
      invariant out == Bests(all)[..i]
    {
      out := out + [u.byID[u.order[i]]];
    }
    assert out == Bests(all);
    out := SortBy(HigherScore, out);
    if capK > 0 && |out| > capK {
      out := out[..capK];
    }
  }

  /* ---- Sequential and parallel dispatch ---- */

  ghost function Retrieved(retrieve: Retriever, planned: seq<string>, n: nat): seq<Hit>
    requires n <= |planned|
  {
    if n == 0 then [] else
      Retrieved(retrieve, planned, n - 1) + match retrieve(planned[n - 1])
                                            case None => []
                                            case Some(hits) => hits
  }

  /** Exactly the hits of the retrievals that succeed. */
  lemma {:induction false} RetrievedMeans(retrieve: Retriever, planned: seq<string>, n: nat, h: Hit)
    requires n <= |planned|
    ensures h in Retrieved(retrieve, planned, n) <==>
      exists i :: 0 <= i < n && retrieve(planned[i]).Some? && h in retrieve(planned[i]).value
  {
    if n == 0 {
    } else {
      RetrievedMeans(retrieve, planned, n - 1, h);
    }
  }

  method RunFollowupsSequential(retrieve: Retriever, planned: seq<string>) returns (sets: seq<seq<Hit>>)
    ensures Concat(sets, |sets|) == Retrieved(retrieve, planned, |planned|)
  {
    sets := [];
    for n := 0 to |planned|
      invariant Concat(sets, |sets|) == Retrieved(retrieve, planned, n)
    {
      var hits := retrieve(planned[n]);
      if hits.None? {
        continue;
      }
      ConcatPrefix(sets, sets + [hits.value], |sets|);
      sets := sets + [hits.value];
    }
  }

  lemma {:induction false} ConcatPrefix(a: seq<seq<Hit>>, b: seq<seq<Hit>>, n: nat)
    requires n <= |a| && n <= |b| && a[..n] == b[..n]
    ensures Concat(a, n) == Concat(b, n)
  {
    if n == 0 {
    } else {
      assert a[..n - 1] == a[..n][..n - 1] == b[..n][..n - 1] == b[..n - 1];
      assert a[n - 1] == a[..n][n - 1] == b[..n][n - 1] == b[n - 1];
      ConcatPrefix(a, b, n - 1);
    }
  }

  /** A failing follow-up ends in an error. */
  datatype RetrieveError = RetrieveError

  type Slot = Fanout.Slot<seq<Hit>, RetrieveError>

  /** The task of planned query i ends as its retrieval does. */
  ghost predicate FollowupTask(retrieve: Retriever, planned: seq<string>, i: int,
                               o: Fanout.Outcome<seq<Hit>, RetrieveError>) {
    0 <= i < |planned| && match retrieve(planned[i])
                          case None => o == Fanout.Failed(RetrieveError)
                          case Some(hits) => o == Fanout.Value(hits)
  }

  function Workers(concurrency: int, planned: nat): (workers: int)
    ensures workers >= 1 && (concurrency > 0 ==> workers == concurrency)
    ensures concurrency <= 0 && planned >= 1 ==> workers == planned
  {
    if concurrency > 0 then concurrency else if planned < 1 then 1 else planned
  }

  /** The slots some uncancelled schedule of the fan-out leaves when all its workers are done. */
  ghost predicate IsFanout(retrieve: Retriever, concurrency: int, planned: seq<string>, slots: seq<Slot>) {
    exists events, s :: FanoutEnds(retrieve, concurrency, planned, events, s) && s.slots == slots
  }

  ghost predicate FanoutEnds(retrieve: Retriever, concurrency: int, planned: seq<string>,
                             events: seq<Fanout.Event<seq<Hit>, RetrieveError>>,
                             s: Fanout.State<seq<Hit>, RetrieveError>) {
    && Fanout.Reaches(Fanout.Config(Workers(concurrency, |planned|), false),
                      (i, o) => FollowupTask(retrieve, planned, i, o), |planned|, events, s)
    && Fanout.AllDone(s) && !s.outer
  }

  lemma SlotsAreRetrievals(retrieve: Retriever, concurrency: int, planned: seq<string>, slots: seq<Slot>)
    requires IsFanout(retrieve, concurrency, planned, slots)
    ensures |slots| == |planned|
    ensures forall i :: 0 <= i < |planned| ==> slots[i].Written? && FollowupTask(retrieve, planned, i, slots[i].outcome)
  {
    var events, s :| FanoutEnds(retrieve, concurrency, planned, events, s) && s.slots == slots;
    Fanout.CollectsAll(Fanout.Config(Workers(concurrency, |planned|), false),
                       (i, o) => FollowupTask(retrieve, planned, i, o), |planned|, events, s);
  }

  /** There is such a schedule for every plan. */
  lemma SomeFanout(retrieve: Retriever, concurrency: int, planned: seq<string>)
    ensures exists slots :: IsFanout(retrieve, concurrency, planned, slots) && IsFinished(concurrency, planned, slots)
  {
    hide Fanout.Reaches, Fanout.AllDone;
    var cfg := Fanout.Config(Workers(concurrency, |planned|), false);
    var tasks := (i: int, o: Fanout.Outcome<seq<Hit>, RetrieveError>) => FollowupTask(retrieve, planned, i, o);
    var start: Fanout.State<seq<Hit>, RetrieveError> := Fanout.Init(|planned|);
    Fanout.Starts(cfg, tasks, |planned|);
    forall i | 0 <= i < |planned|
      ensures Fanout.CanEnd(tasks, i)
    {
      var o: Fanout.Outcome<seq<Hit>, RetrieveError> :=
        match retrieve(planned[i]) case None => Fanout.Failed(RetrieveError) case Some(hits) => Fanout.Value(hits);
      assert o != Fanout.Cancelled && tasks(i, o);
    }
    var more, t := Fanout.CanFinish(cfg, tasks, |planned|, [], start);
    assert FanoutEnds(retrieve, concurrency, planned, [] + more, t);
    assert IsFanout(retrieve, concurrency, planned, t.slots);
    FanoutFinishes(retrieve, concurrency, planned, t.slots);
  }

  /**
    The slots of some finished schedule, whatever became of its tasks: a follow-up may have
    failed, panicked or met a cancelled context.
  */
  ghost predicate IsFinished(concurrency: int, planned: seq<string>, slots: seq<Slot>) {
    exists tasks, events, s :: FinishesAs(concurrency, planned, tasks, events, s) && s.slots == slots
  }

  ghost predicate FinishesAs(concurrency: int, planned: seq<string>, tasks: Fanout.Tasks<seq<Hit>, RetrieveError>,
                             events: seq<Fanout.Event<seq<Hit>, RetrieveError>>,
                             s: Fanout.State<seq<Hit>, RetrieveError>) {
    Fanout.Reaches(Fanout.Config(Workers(concurrency, |planned|), false), tasks, |planned|, events, s) && Fanout.AllDone(s)
  }

  lemma FinishedSlots(concurrency: int, planned: seq<string>, slots: seq<Slot>)
    requires IsFinished(concurrency, planned, slots)
    ensures |slots| == |planned| && forall i :: 0 <= i < |planned| ==> slots[i].Written?
  {
    var tasks, events, s :| FinishesAs(concurrency, planned, tasks, events, s) && s.slots == slots;
    Fanout.FinishedRun(Fanout.Config(Workers(concurrency, |planned|), false), tasks, |planned|, events, s);
  }

  lemma FanoutFinishes(retrieve: Retriever, concurrency: int, planned: seq<string>, slots: seq<Slot>)
    requires IsFanout(retrieve, concurrency, planned, slots)
    ensures IsFinished(concurrency, planned, slots)
  {
    var events, s :| FanoutEnds(retrieve, concurrency, planned, events, s) && s.slots == slots;
    assert FinishesAs(concurrency, planned, (i, o) => FollowupTask(retrieve, planned, i, o), events, s);
  }

  function ValueOf(slot: Slot): seq<Hit> {
    if slot.Written? && slot.outcome.Value? then slot.outcome.value else []
  }

  /** The hits of the first n slots that hold any, in planner order. */
  ghost function ValuesOf(slots: seq<Slot>, n: nat): seq<Hit>
    requires n <= |slots|
  {
    if n == 0 then [] else
      ValuesOf(slots, n - 1) + ValueOf(slots[n - 1])
  }

  /** When nobody cancels and no retrieval panics these are the hits of the sequential dispatch. */
  lemma {:induction false} ValuesAreRetrieved(retrieve: Retriever, concurrency: int, planned: seq<string>,
                                              slots: seq<Slot>, n: nat)
    requires IsFanout(retrieve, concurrency, planned, slots) && n <= |planned|
    ensures |slots| == |planned| && ValuesOf(slots, n) == Retrieved(retrieve, planned, n)
  {
    hide IsFanout;
    SlotsAreRetrievals(retrieve, concurrency, planned, slots);
    if n == 0 {
    } else {
      ValuesAreRetrieved(retrieve, concurrency, planned, slots, n - 1);
      assert FollowupTask(retrieve, planned, n - 1, slots[n - 1].outcome);
    }
  }

  /** Otherwise follow-ups may be missing, and nothing else: a value is still that of its retrieval. */
  lemma {:induction false} ValuesAmongRetrieved(retrieve: Retriever, planned: seq<string>, slots: seq<Slot>, n: nat,
                                                h: Hit)
    requires n <= |planned| == |slots| && h in ValuesOf(slots, n)
    requires forall i :: 0 <= i < |planned| && slots[i].Written? && slots[i].outcome.Value? ==>
      retrieve(planned[i]) == Some(slots[i].outcome.value)
    ensures h in Retrieved(retrieve, planned, n)
  {
    if n > 0 && h in ValuesOf(slots, n - 1) {
      ValuesAmongRetrieved(retrieve, planned, slots, n - 1, h);
    }
  }

  /** Reads the results in planner order; a slot without a value stays empty. */
  method RunFollowupsParallel(ghost concurrency: int, planned: seq<string>, results: seq<Slot>)
    returns (sets: seq<seq<Hit>>)
    requires IsFinished(concurrency, planned, results)
    ensures |sets| == |planned| == |results| && Concat(sets, |sets|) == ValuesOf(results, |results|)
    ensures forall i :: 0 <= i < |sets| ==> sets[i] == ValueOf(results[i])
  {
    hide IsFinished;
    FinishedSlots(concurrency, planned, results);
    sets := [];
    for n := 0 to |results|
      invariant |sets| == n && Concat(sets, n) == ValuesOf(results, n)
      invariant forall i :: 0 <= i < n ==> sets[i] == ValueOf(results[i])
    {
      ConcatPrefix(sets, sets + [[]], n);
      if !results[n].outcome.Value? {
        sets := sets + [[]];
        continue;
      }
      ConcatPrefix(sets, sets + [results[n].outcome.value], n);
      sets := sets + [results[n].outcome.value];
    }
  }

  /* ---- The driver ---- */

  /** One relevance score per hit; a grading error counts as neutral. */
  function Relevance(grade: Hit -> Option<real>, h: Hit): (r: real)
    ensures r == GradeOf(grade(h))
  {
    match grade(h)
    case None => NEUTRAL_RELEVANCE
    case Some(r) => r
  }

  ghost function MaxRelevance(grade: Hit -> Option<real>, hits: seq<Hit>, n: nat): real
    requires n <= |hits|
  {
    if n == 0 then 0.0 else
      var before, r := MaxRelevance(grade, hits, n - 1), Relevance(grade, hits[n - 1]);
      if r > before then r else before
  }

  method GradeRelevanceOnly(grade: Option<Hit -> Option<real>>, hits: seq<Hit>)
    returns (scores: seq<real>, maxRel: real)
    ensures grade.None? ==> scores == [] && maxRel == 0.0
    ensures scores == Relevances(grade, hits)
    ensures grade.Some? ==> |scores| == |hits| && maxRel == MaxRelevance(grade.value, hits, |hits|)
    ensures grade.Some? ==> forall i :: 0 <= i < |hits| ==> scores[i] == Relevance(grade.value, hits[i])
  {
    scores, maxRel := [], 0.0;
    if grade.None? || |hits| == 0 {
      return;
    }
    for n := 0 to |hits|
      invariant |scores| == n && maxRel == MaxRelevance(grade.value, hits, n)
      invariant forall i :: 0 <= i < n ==> scores[i] == Relevance(grade.value, hits[i])
    {
      var rel := match grade.value(hits[n]) case None => NEUTRAL_RELEVANCE case Some(r) => r;
      if rel > maxRel {
        maxRel := rel;
      }
      scores := scores + [rel];
    }
  }

  /** The caps after defaulting: per round, per Ask, and the relevance floor. */
  datatype Caps = Caps(perRound: int, perAsk: int, floor: real)

  function EffectiveCaps(perRound: int, perAsk: int, floor: real): (caps: Caps)
    ensures caps.perRound == if perRound > 0 then perRound else 2
    ensures caps.perAsk == if perAsk > 0 then perAsk else 4
    ensures caps.floor == if floor > 0.0 then floor else 0.4
  {
    Caps(if perRound <= 0 then DEFAULT_PER_ROUND_CAP else perRound, if perAsk <= 0 then DEFAULT_GLOBAL_CAP else perAsk,
         if floor <= 0.0 then DEFAULT_FLOOR else floor)
  }

  /** The plan for one round's gap, or None for a planner error. */
  type Planner = seq<real> -> Option<seq<string>>

  /** How one round dispatches its follow-ups: in turn, or as the given fan-out ends. */
  datatype Dispatch = InTurn | FannedOut(concurrency: int, results: seq<string> -> seq<Slot>)

  /** Fanned-out follow-ups leave the slots of a finished schedule. */
  ghost predicate IsDispatch(d: Dispatch) {
    d.FannedOut? ==> forall planned :: IsFinished(d.concurrency, planned, d.results(planned))
  }

  /** The hits of the follow-ups, in planner order. */
  ghost function Followed(retrieve: Retriever, d: Dispatch, planned: seq<string>): seq<Hit> {
    match d
    case InTurn => Retrieved(retrieve, planned, |planned|)
    case FannedOut(_, results) => ValuesOf(results(planned), |results(planned)|)
  }

  /** When nobody cancels and no retrieval panics, a round does not depend on how it dispatches its follow-ups. */
  lemma DispatchesAgree(retrieve: Retriever, d: Dispatch, planned: seq<string>)
    requires d.FannedOut? ==> IsFanout(retrieve, d.concurrency, planned, d.results(planned))
    ensures Followed(retrieve, d, planned) == Followed(retrieve, InTurn, planned)
  {
    hide IsFanout, Retrieved, ValuesOf;
    if d.FannedOut? {
      ValuesAreRetrieved(retrieve, d.concurrency, planned, d.results(planned), |planned|);
    }
  }

  datatype Outcome = Outcome(hits: seq<Hit>, followups: seq<string>, preGraded: bool, relevances: seq<real>)

  function Prefix(queries: seq<string>, cap: int): seq<string>
    requires cap >= 0
  {
    if |queries| > cap then queries[..cap] else queries
  }

  /** The per-Ask counters that every round of one Ask shares. */
  class Budget {
    var remaining: int
    var used: int

    constructor (globalCap: int)
      ensures remaining == globalCap && used == 0
    {
      remaining, used := globalCap, 0;
    }

    /**
      One round's follow-ups: none when the budget is spent, the seed is relevant enough or
      there is no plan; else a prefix of the plan under both caps, whose hits join the seed's.
    */
    method RunActiveRetrieval(planner: Planner, caps: Caps, grade: Option<Hit -> Option<real>>, retrieve: Retriever,
                              dispatch: Dispatch, seedHits: seq<Hit>, topK: int)
      returns (out: Outcome)
      requires caps.perRound > 0 && caps.floor > 0.0 && IsDispatch(dispatch)
      modifies this
      ensures remaining == old(remaining) - |out.followups| && used == old(used) + |out.followups|
      ensures |out.followups| <= caps.perRound && (old(remaining) >= 0 ==> remaining >= 0)
      ensures out.preGraded <==> old(remaining) > 0
      ensures IsPlan(planner, caps, grade, seedHits, old(remaining), out.followups)
      ensures out.hits == if out.followups == [] then seedHits
                          else UnionOf(seedHits + Followed(retrieve, dispatch, out.followups), topK)
    {
      hide IsDispatch, UnionOf, IsFinished, IsPlan, MaxRelevance;
      PlanIs(planner, caps, grade, seedHits, remaining);
      out := Outcome(seedHits, [], false, []);
      if remaining <= 0 {
        return;
      }
      var scores, maxRel := GradeRelevanceOnly(grade, seedHits);
      assert scores == Relevances(grade, seedHits);
      out := out.(preGraded := true, relevances := scores);
      if maxRel >= caps.floor {
        return;
      }
      var plan := planner(scores);
      if plan.None? || |plan.value| == 0 {
        return;
      }
      var planned := Prefix(Prefix(plan.value, caps.perRound), remaining);
      var sets;
      match dispatch {
        case InTurn => sets := RunFollowupsSequential(retrieve, planned);
        case FannedOut(concurrency, results) =>
          DispatchEnds(dispatch, planned);
          sets := RunFollowupsParallel(concurrency, planned, results(planned));
      }
      var hits := UnionHits(seedHits, sets, topK);
      out := out.(hits := hits, followups := planned);
      remaining, used := remaining - |planned|, used + |planned|;
    }
  }

  lemma DispatchEnds(d: Dispatch, planned: seq<string>)
    requires IsDispatch(d) && d.FannedOut?
    ensures IsFinished(d.concurrency, planned, d.results(planned))
  {
  }

  /** The follow-ups of a round, given what is left of the per-Ask cap. */
  ghost function Wanted(planner: Planner, caps: Caps, grade: Option<Hit -> Option<real>>, seedHits: seq<Hit>,
                        remaining: int): seq<string>
    requires caps.perRound > 0
  {
    var maxRel := if grade.None? then 0.0 else MaxRelevance(grade.value, seedHits, |seedHits|);
    var plan := planner(Relevances(grade, seedHits));
    if remaining <= 0 || maxRel >= caps.floor || plan.None? then []
    else Prefix(Prefix(plan.value, caps.perRound), remaining)
  }

  /** The relevance of each hit; none without a grader. */
  ghost function Relevances(grade: Option<Hit -> Option<real>>, hits: seq<Hit>): (rels: seq<real>)
    ensures |rels| == if grade.None? then 0 else |hits|
    ensures grade.Some? ==> forall i :: 0 <= i < |hits| ==> rels[i] == Relevance(grade.value, hits[i])
  {
    if grade.None? then [] else seq(|hits|, i requires 0 <= i < |hits| => Relevance(grade.value, hits[i]))
  }

  /** A grade, one half when grading failed. */
  function GradeOf(grade: Option<real>): real {
    match grade case None => 0.5 case Some(r) => r
  }

  /** Some seed hit is relevant enough to do without follow-ups. */
  ghost predicate StrongSeed(caps: Caps, grade: Option<Hit -> Option<real>>, seedHits: seq<Hit>) {
    grade.Some? && exists i :: 0 <= i < |seedHits| && GradeOf(grade.value(seedHits[i])) >= caps.floor
  }

  /**
    No follow-ups when nothing is left of the per-Ask cap, a seed hit reaches the floor or the
    planner, shown the relevances of the seed, fails; else the plan as far as both caps allow.
  */
  ghost predicate IsPlan(planner: Planner, caps: Caps, grade: Option<Hit -> Option<real>>, seedHits: seq<Hit>,
                         remaining: int, followups: seq<string>) {
    var plan := planner(Relevances(grade, seedHits));
    if remaining <= 0 || StrongSeed(caps, grade, seedHits) || plan.None? then followups == []
    else
      && followups <= plan.value && |followups| <= caps.perRound && |followups| <= remaining
      && (|followups| == |plan.value| || |followups| == caps.perRound || |followups| == remaining)
  }

  lemma {:induction false} MaxReaches(grade: Hit -> Option<real>, hits: seq<Hit>, n: nat, floor: real)
    requires n <= |hits| && floor > 0.0
    ensures MaxRelevance(grade, hits, n) >= floor <==>
      exists i :: 0 <= i < n && GradeOf(grade(hits[i])) >= floor
  {
    if n == 0 {
    } else {
      MaxReaches(grade, hits, n - 1, floor);
    }
  }

  lemma PlanIs(planner: Planner, caps: Caps, grade: Option<Hit -> Option<real>>, seedHits: seq<Hit>, remaining: int)
    requires caps.perRound > 0 && caps.floor > 0.0
    ensures IsPlan(planner, caps, grade, seedHits, remaining, Wanted(planner, caps, grade, seedHits, remaining))
  {
    hide MaxRelevance, Relevances;
    if grade.Some? {
      MaxReaches(grade.value, seedHits, |seedHits|, caps.floor);
    }
  }
}
