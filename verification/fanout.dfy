/**
  Bounded fan-out as an interleaved step system: one worker per task, a semaphore of
  tokens, a results slice written by index and a context derived from the caller's.
*/
module Fanout {
  import opened Sums

  /** How a slot was filled: by its task, by a recovered panic, or by a context already done. */
  datatype Outcome<V, E> = Value(value: V) | Failed(error: E) | Panicked | Cancelled

  datatype Slot<V, E> = Empty | Written(index: int, outcome: Outcome<V, E>)

  /** Where a worker stands; its deferred token release and wait-group signal come last. */
  datatype Place = Waiting | Checking | Running | Cancelling | Leaving | Done

  /** A cap that is not positive means no semaphore. */
  datatype Config = Config(maxConcurrency: int, failFast: bool)

  /**
    holders are the workers whose token sits in the semaphore channel; outer and inner say
    whether the caller's context and the derived one are done.
  */
  datatype State<V, E> = State(places: seq<Place>, holders: set<int>, slots: seq<Slot<V, E>>, outer: bool, inner: bool)

  datatype Action<V, E> = Acquire | GiveUp | FailCheck | Start | Finish(outcome: Outcome<V, E>) | Cancel | Release | Exit

  /** A schedule is any sequence of worker actions and of cancellations from outside. */
  datatype Event<V, E> = Act(worker: int, action: Action<V, E>) | CancelOuter

  /** What each task may end in: any value, error or panic its code and its surroundings allow. */
  type Tasks<!V, !E> = (int, Outcome<V, E>) -> bool

  ghost function Init<V, E>(n: nat): State<V, E> {
    State(seq(n, i => Waiting), {}, seq(n, i => Empty), false, false)
  }

  ghost predicate Sized<V, E>(s: State<V, E>, n: nat) {
    |s.places| == n && |s.slots| == n
  }

  ghost function Move<V, E>(s: State<V, E>, i: nat, p: Place): State<V, E>
    requires i < |s.places|
  {
    s.(places := s.places[i := p])
  }

  ghost function Fill<V, E>(s: State<V, E>, i: nat, o: Outcome<V, E>): State<V, E>
    requires i < |s.slots|
  {
    s.(slots := s.slots[i := Written(i, o)])
  }

  ghost predicate Enabled<V, E>(cfg: Config, tasks: Tasks<V, E>, n: nat, s: State<V, E>, i: int, a: Action<V, E>) {
    && Sized(s, n) && 0 <= i < n
    && match a
       case Acquire => s.places[i] == Waiting && (cfg.maxConcurrency > 0 ==> |s.holders| < cfg.maxConcurrency)
       case GiveUp => s.places[i] == Waiting && cfg.maxConcurrency > 0 && s.inner
       case FailCheck => s.places[i] == Checking && s.inner
       case Start => s.places[i] == Checking && !s.inner
       case Finish(o) => s.places[i] == Running && o != Cancelled && tasks(i, o)
       case Cancel => s.places[i] == Cancelling
       case Release => s.places[i] == Leaving && i in s.holders
       case Exit => s.places[i] == Leaving && i !in s.holders
  }

  ghost function Apply<V, E>(cfg: Config, s: State<V, E>, i: nat, a: Action<V, E>): State<V, E>
    requires i < |s.places| == |s.slots|
  {
    match a
    case Acquire =>
      var t := Move(s, i, Checking);
      if cfg.maxConcurrency > 0 then t.(holders := s.holders + {i}) else t
    case GiveUp => Fill(Move(s, i, Leaving), i, Cancelled)
    case FailCheck => Fill(Move(s, i, Leaving), i, Cancelled)
    case Start => Move(s, i, Running)
    case Finish(o) => Fill(Move(s, i, if cfg.failFast && !o.Value? then Cancelling else Leaving), i, o)
    case Cancel => Move(s, i, Leaving).(inner := true)
    case Release => s.(holders := s.holders - {i})
    case Exit => Move(s, i, Done)
  }

  ghost predicate CanHappen<V, E>(cfg: Config, tasks: Tasks<V, E>, n: nat, s: State<V, E>, e: Event<V, E>) {
    e.Act? ==> Enabled(cfg, tasks, n, s, e.worker, e.action)
  }

  ghost function Happen<V, E>(cfg: Config, tasks: Tasks<V, E>, n: nat, s: State<V, E>, e: Event<V, E>): State<V, E>
    requires CanHappen(cfg, tasks, n, s, e)
  {
    match e
    case Act(i, a) => Apply(cfg, s, i, a)
    case CancelOuter => s.(outer := true, inner := true)
  }

  /** Where a schedule leads; an event that cannot happen changes nothing. */
  ghost function After<V, E>(cfg: Config, tasks: Tasks<V, E>, n: nat, events: seq<Event<V, E>>): State<V, E> {
    if events == [] then Init(n) else
      var before := After(cfg, tasks, n, events[..|events| - 1]);
      var e := events[|events| - 1];
      if CanHappen(cfg, tasks, n, before, e) then Happen(cfg, tasks, n, before, e) else before
  }

  /** Every event of the schedule can happen when its turn comes. */
  ghost predicate Legal<V, E>(cfg: Config, tasks: Tasks<V, E>, n: nat, events: seq<Event<V, E>>) {
    events == [] || (
      && Legal(cfg, tasks, n, events[..|events| - 1])
      && CanHappen(cfg, tasks, n, After(cfg, tasks, n, events[..|events| - 1]), events[|events| - 1]))
  }

  /** The schedule takes a fresh run over n tasks to s. */
  ghost predicate Reaches<V, E>(cfg: Config, tasks: Tasks<V, E>, n: nat, events: seq<Event<V, E>>, s: State<V, E>) {
    Legal(cfg, tasks, n, events) && s == After(cfg, tasks, n, events)
  }

  lemma Starts<V, E>(cfg: Config, tasks: Tasks<V, E>, n: nat)
    ensures Reaches(cfg, tasks, n, [], Init(n))
  {
  }

  lemma Extend<V, E>(cfg: Config, tasks: Tasks<V, E>, n: nat, events: seq<Event<V, E>>, s: State<V, E>, e: Event<V, E>)
    requires Reaches(cfg, tasks, n, events, s) && CanHappen(cfg, tasks, n, s, e)
    ensures Reaches(cfg, tasks, n, events + [e], Happen(cfg, tasks, n, s, e))
  {
    hide Happen, CanHappen;
    assert (events + [e])[..|events + [e]| - 1] == events;
  }

  /* ---- What every reachable state keeps ---- */

  ghost predicate IsFailure<V, E>(slot: Slot<V, E>) {
    slot.Written? && (slot.outcome.Failed? || slot.outcome.Panicked?)
  }

  ghost predicate WorkerKept<V, E>(cfg: Config, tasks: Tasks<V, E>, s: State<V, E>, i: nat)
    requires i < |s.places| == |s.slots|
  {
    var p, slot := s.places[i], s.slots[i];
    && (i in s.holders ==> cfg.maxConcurrency > 0 && p != Waiting && p != Done)
    && (cfg.maxConcurrency > 0 && (p == Checking || p == Running || p == Cancelling) ==> i in s.holders)
    && (slot == Empty <==> p == Waiting || p == Checking || p == Running)
    && (slot.Written? ==> slot.index == i && if slot.outcome == Cancelled then s.inner else tasks(i, slot.outcome))
    && (p == Cancelling ==> cfg.failFast && IsFailure(slot))
    && (cfg.failFast && IsFailure(slot) && p != Cancelling ==> s.inner)
  }

  ghost predicate Kept<V, E>(cfg: Config, tasks: Tasks<V, E>, n: nat, s: State<V, E>) {
    && Sized(s, n)
    && (forall i :: 0 <= i < n ==> WorkerKept(cfg, tasks, s, i))
    && (forall i :: i in s.holders ==> 0 <= i < n)
    && (cfg.maxConcurrency > 0 ==> |s.holders| <= cfg.maxConcurrency)
    && (s.outer ==> s.inner)
    && (s.inner ==> s.outer || (cfg.failFast && exists j :: 0 <= j < n && IsFailure(s.slots[j])))
  }

  lemma WorkerKeptByStep<V, E>(cfg: Config, tasks: Tasks<V, E>, n: nat, s: State<V, E>, e: Event<V, E>, i: nat)
    requires Kept(cfg, tasks, n, s) && CanHappen(cfg, tasks, n, s, e) && i < n
    ensures Sized(Happen(cfg, tasks, n, s, e), n) && WorkerKept(cfg, tasks, Happen(cfg, tasks, n, s, e), i)
  {
    assert WorkerKept(cfg, tasks, s, i);
    if e.Act? {
      OthersUnmoved(cfg, tasks, n, s, e.worker, e.action);
    }
  }

  /** The derived context is done only for a reason: the caller's is, or a task failed under fail-fast. */
  lemma DoneForAReason<V, E>(cfg: Config, tasks: Tasks<V, E>, n: nat, s: State<V, E>, e: Event<V, E>)
    requires Kept(cfg, tasks, n, s) && CanHappen(cfg, tasks, n, s, e)
    ensures var t := Happen(cfg, tasks, n, s, e);
      Sized(t, n) && (t.inner ==> t.outer || (cfg.failFast && exists j :: 0 <= j < n && IsFailure(t.slots[j])))
  {
    var t := Happen(cfg, tasks, n, s, e);
    if e.Act? {
      var i := e.worker;
      OthersUnmoved(cfg, tasks, n, s, i, e.action);
      assert WorkerKept(cfg, tasks, s, i);
      if t.inner && !t.outer && !s.inner {
        assert IsFailure(t.slots[i]);
      } else if t.inner && !t.outer {
        var j :| 0 <= j < n && IsFailure(s.slots[j]);
        assert t.slots[j] == s.slots[j];
      }
    }
  }

  lemma KeptByStep<V, E>(cfg: Config, tasks: Tasks<V, E>, n: nat, s: State<V, E>, e: Event<V, E>)
    requires Kept(cfg, tasks, n, s) && CanHappen(cfg, tasks, n, s, e)
    ensures Kept(cfg, tasks, n, Happen(cfg, tasks, n, s, e))
  {
    hide WorkerKept, IsFailure;
    DoneForAReason(cfg, tasks, n, s, e);
    forall i | 0 <= i < n
      ensures WorkerKept(cfg, tasks, Happen(cfg, tasks, n, s, e), i)
    {
      WorkerKeptByStep(cfg, tasks, n, s, e, i);
    }
  }

  /** A worker's action touches its own place, slot and token only, and a slot only once. */
  lemma OthersUnmoved<V, E>(cfg: Config, tasks: Tasks<V, E>, n: nat, s: State<V, E>, i: int, a: Action<V, E>)
    requires Kept(cfg, tasks, n, s) && Enabled(cfg, tasks, n, s, i, a)
    ensures var t := Apply(cfg, s, i, a);
      && Sized(t, n) && t.outer == s.outer
      && (forall j :: 0 <= j < n && j != i ==> t.places[j] == s.places[j] && t.slots[j] == s.slots[j])
      && (forall j :: j != i ==> (j in t.holders <==> j in s.holders))
      && (s.slots[i] != Empty ==> t.slots[i] == s.slots[i])
  {
    assert WorkerKept(cfg, tasks, s, i);
  }

  /** Every state of every schedule keeps the invariant. */
  lemma {:induction false} AlwaysKept<V, E>(cfg: Config, tasks: Tasks<V, E>, n: nat, events: seq<Event<V, E>>,
                                            s: State<V, E>)
    requires Reaches(cfg, tasks, n, events, s)
    ensures Kept(cfg, tasks, n, s)
    decreases |events|
  {
    hide Kept, Happen, CanHappen;
    if events == [] {
      InitKept(cfg, tasks, n);
    } else {
      var before, e := Before(cfg, tasks, n, events, s);
      AlwaysKept(cfg, tasks, n, events[..|events| - 1], before);
      KeptByStep(cfg, tasks, n, before, e);
    }
  }

  lemma Before<V, E>(cfg: Config, tasks: Tasks<V, E>, n: nat, events: seq<Event<V, E>>, s: State<V, E>)
    returns (before: State<V, E>, e: Event<V, E>)
    requires events != [] && Reaches(cfg, tasks, n, events, s)
    ensures e == events[|events| - 1] && Reaches(cfg, tasks, n, events[..|events| - 1], before)
    ensures CanHappen(cfg, tasks, n, before, e) && s == Happen(cfg, tasks, n, before, e)
  {
    hide Happen, CanHappen;
    e := events[|events| - 1];
    before := After(cfg, tasks, n, events[..|events| - 1]);
  }

  lemma InitKept<V, E>(cfg: Config, tasks: Tasks<V, E>, n: nat)
    ensures Kept(cfg, tasks, n, Init(n))
  {
  }

  /* ---- The cap ---- */

  ghost function RunningNow<V, E>(s: State<V, E>): set<int> {
    set i | 0 <= i < |s.places| && s.places[i] == Running
  }

  /** Never more tasks run at once than the cap allows. */
  lemma CapHolds<V, E>(cfg: Config, tasks: Tasks<V, E>, n: nat, events: seq<Event<V, E>>, s: State<V, E>)
    requires Reaches(cfg, tasks, n, events, s) && cfg.maxConcurrency > 0
    ensures |RunningNow(s)| <= |s.holders| <= cfg.maxConcurrency
  {
    AlwaysKept(cfg, tasks, n, events, s);
    forall i | i in RunningNow(s)
      ensures i in s.holders
    {
      assert WorkerKept(cfg, tasks, s, i);
    }
    SubsetSize(RunningNow(s), s.holders);
  }

  /* ---- No deadlock, and no run without end ---- */

  ghost predicate AllDone<V, E>(s: State<V, E>) {
    forall i :: 0 <= i < |s.places| ==> s.places[i] == Done
  }

  ghost predicate EveryTaskEnds<V(!new), E(!new)>(tasks: Tasks<V, E>, n: nat) {
    forall i :: 0 <= i < n ==> CanEnd(tasks, i)
  }

  ghost predicate CanEnd<V(!new), E(!new)>(tasks: Tasks<V, E>, i: int) {
    exists o :: o != Cancelled && tasks(i, o)
  }

  /** What a worker that does not wait may do next. */
  ghost function NextAction<V(!new), E(!new)>(tasks: Tasks<V, E>, s: State<V, E>, i: nat): Action<V, E>
    requires i < |s.places| && (s.places[i] == Running ==> CanEnd(tasks, i))
  {
    match s.places[i]
    case Waiting => Acquire
    case Checking => if s.inner then FailCheck else Start
    case Running => var o :| o != Cancelled && tasks(i, o); Finish(o)
    case Cancelling => Cancel
    case Leaving => if i in s.holders then Release else Exit
    case Done => Exit
  }

  /** As long as some worker is not done, some worker can act, whatever happened before. */
  lemma NeverStuck<V(!new), E(!new)>(cfg: Config, tasks: Tasks<V, E>, n: nat, events: seq<Event<V, E>>, s: State<V, E>)
    requires Reaches(cfg, tasks, n, events, s) && EveryTaskEnds(tasks, n) && !AllDone(s)
    ensures exists i, a :: Enabled(cfg, tasks, n, s, i, a)
  {
    AlwaysKept(cfg, tasks, n, events, s);
    var i :| 0 <= i < n && s.places[i] != Done;
    if s.places[i] == Waiting && cfg.maxConcurrency > 0 && |s.holders| >= cfg.maxConcurrency {
      // The semaphore is full: one of the workers it holds tokens of can act.
      var h := Pick(s.holders);
      assert WorkerKept(cfg, tasks, s, h);
      assert Enabled(cfg, tasks, n, s, h, NextAction(tasks, s, h));
    } else {
      assert Enabled(cfg, tasks, n, s, i, NextAction(tasks, s, i));
    }
  }

  /** How many actions a worker has left at most. */
  ghost function Left<V, E>(s: State<V, E>, i: nat): nat
    requires i < |s.places|
  {
    match s.places[i]
    case Waiting => 6
    case Checking => 5
    case Running => 4
    case Cancelling => 3
    case Leaving => if i in s.holders then 2 else 1
    case Done => 0
  }

  ghost function AllLeft<V, E>(s: State<V, E>, n: nat): nat
    requires n <= |s.places|
  {
    if n == 0 then 0 else AllLeft(s, n - 1) + Left(s, n - 1)
  }

  lemma {:induction false} AllLeftDrops<V, E>(s: State<V, E>, t: State<V, E>, n: nat, i: nat)
    requires n <= |s.places| == |t.places| && i < |s.places|
    requires forall j :: 0 <= j < n && j != i ==> Left(t, j) == Left(s, j)
    requires Left(t, i) < Left(s, i)
    ensures if i < n then AllLeft(t, n) < AllLeft(s, n) else AllLeft(t, n) == AllLeft(s, n)
  {
    if n == 0 {
    } else {
      AllLeftDrops(s, t, n - 1, i);
    }
  }

  lemma {:induction false} AllLeftSame<V, E>(s: State<V, E>, t: State<V, E>, n: nat)
    requires n <= |s.places| && s.places == t.places && s.holders == t.holders
    ensures AllLeft(t, n) == AllLeft(s, n)
  {
    if n == 0 {
    } else {
      AllLeftSame(s, t, n - 1);
    }
  }

  lemma {:induction false} AllLeftAtStart<V, E>(n: nat, k: nat)
    requires k <= n
    ensures AllLeft<V, E>(Init(n), k) == 6 * k
  {
    if k == 0 {
    } else {
      AllLeftAtStart<V, E>(n, k - 1);
    }
  }

  ghost function Actions<V, E>(events: seq<Event<V, E>>): nat {
    if events == [] then 0 else
      Actions(events[..|events| - 1]) + if events[|events| - 1].Act? then 1 else 0
  }

  lemma ActionLeaves<V, E>(cfg: Config, tasks: Tasks<V, E>, n: nat, s: State<V, E>, i: nat, a: Action<V, E>)
    requires Kept(cfg, tasks, n, s) && Enabled(cfg, tasks, n, s, i, a)
    ensures Sized(Apply(cfg, s, i, a), n) && AllLeft(Apply(cfg, s, i, a), n) < AllLeft(s, n)
  {
    OthersUnmoved(cfg, tasks, n, s, i, a);
    var t := Apply(cfg, s, i, a);
    assert WorkerKept(cfg, tasks, s, i);
    forall j | 0 <= j < n && j != i
      ensures Left(t, j) == Left(s, j)
    {
      assert j in t.holders <==> j in s.holders;
    }
    AllLeftDrops(s, t, n, i);
  }

  /** No schedule makes the workers act more than six times each. */
  lemma {:induction false} RunsEnd<V, E>(cfg: Config, tasks: Tasks<V, E>, n: nat, events: seq<Event<V, E>>,
                                         s: State<V, E>)
    requires Reaches(cfg, tasks, n, events, s)
    ensures Sized(s, n) && Actions(events) + AllLeft(s, n) <= 6 * n
    decreases |events|
  {
    hide Kept, AllLeft, Left, Apply, Enabled;
    if events == [] {
      AllLeftAtStart<V, E>(n, n);
    } else {
      var before, e := Before(cfg, tasks, n, events, s);
      RunsEnd(cfg, tasks, n, events[..|events| - 1], before);
      AlwaysKept(cfg, tasks, n, events[..|events| - 1], before);
      match e
      case Act(i, a) =>
        assert Enabled(cfg, tasks, n, before, i, a);
        InRange(cfg, tasks, n, before, i, a);
        ActionLeaves(cfg, tasks, n, before, i, a);
      case CancelOuter =>
        AllLeftSame(before, s, n);
    }
  }

  lemma InRange<V, E>(cfg: Config, tasks: Tasks<V, E>, n: nat, s: State<V, E>, i: int, a: Action<V, E>)
    requires Enabled(cfg, tasks, n, s, i, a)
    ensures Sized(s, n) && 0 <= i < n
  {
  }

  /* ---- What Run returns ---- */

  /** The slots of a finished run, and whether the top-level error is set. No tasks, no context check. */
  ghost function Returned<V, E>(n: nat, s: State<V, E>): (seq<Slot<V, E>>, bool) {
    if n == 0 then ([], false) else (s.slots, s.outer)
  }

  /**
    When all workers are done every token is back and every slot holds its own index, with
    an outcome of its task unless its worker found the context done.
  */
  lemma FinishedRun<V, E>(cfg: Config, tasks: Tasks<V, E>, n: nat, events: seq<Event<V, E>>, s: State<V, E>)
    requires Reaches(cfg, tasks, n, events, s) && AllDone(s)
    ensures s.holders == {}
    ensures Returned(n, s) == (s.slots, n > 0 && s.outer) && |s.slots| == n
    ensures forall i :: 0 <= i < n ==> s.slots[i].Written? && s.slots[i].index == i
    ensures forall i :: 0 <= i < n ==> s.slots[i].outcome != Cancelled ==> tasks(i, s.slots[i].outcome)
    ensures forall i :: 0 <= i < n && s.slots[i].outcome == Cancelled ==> s.outer || cfg.failFast
  {
    AlwaysKept(cfg, tasks, n, events, s);
    forall i | 0 <= i < n
      ensures i !in s.holders && s.slots[i].Written? && s.slots[i].index == i
      ensures s.slots[i].outcome != Cancelled ==> tasks(i, s.slots[i].outcome)
      ensures s.slots[i].outcome == Cancelled ==> s.inner
    {
      assert WorkerKept(cfg, tasks, s, i);
    }
    forall i
      ensures i in s.holders <==> i in {}
    {
      if 0 <= i < n {
        assert WorkerKept(cfg, tasks, s, i);
      }
    }
    SameSet(s.holders, {});
  }

  /** Without fail-fast and without outside cancellation every slot holds what its task ended in. */
  lemma CollectsAll<V, E>(cfg: Config, tasks: Tasks<V, E>, n: nat, events: seq<Event<V, E>>, s: State<V, E>)
    requires Reaches(cfg, tasks, n, events, s) && AllDone(s) && !cfg.failFast && !s.outer
    ensures |s.slots| == n
    ensures forall i :: 0 <= i < n ==> s.slots[i].Written? && s.slots[i].index == i && tasks(i, s.slots[i].outcome)
  {
    FinishedRun(cfg, tasks, n, events, s);
  }

  /** With fail-fast a run nobody cancelled skips a task only when another one failed. */
  lemma SkipsOnlyAfterFailure<V, E>(cfg: Config, tasks: Tasks<V, E>, n: nat, events: seq<Event<V, E>>, s: State<V, E>)
    requires Reaches(cfg, tasks, n, events, s) && AllDone(s) && !s.outer
    ensures |s.slots| == n
    ensures (forall i :: 0 <= i < n ==> !IsFailure(s.slots[i])) ==>
      forall i :: 0 <= i < n ==> s.slots[i].Written? && s.slots[i].outcome.Value?
  {
    AlwaysKept(cfg, tasks, n, events, s);
    if forall i :: 0 <= i < n ==> !IsFailure(s.slots[i]) {
      forall i | 0 <= i < n
        ensures s.slots[i].Written? && s.slots[i].outcome.Value?
      {
        assert WorkerKept(cfg, tasks, s, i);
        assert !IsFailure(s.slots[i]);
      }
    }
  }

  /** A slot, once written, stays as it is for the rest of the run. */
  lemma {:induction false} WrittenOnce<V, E>(cfg: Config, tasks: Tasks<V, E>, n: nat, events: seq<Event<V, E>>,
                                             s: State<V, E>, more: seq<Event<V, E>>, t: State<V, E>, i: nat)
    requires Reaches(cfg, tasks, n, events, s) && Reaches(cfg, tasks, n, events + more, t)
    requires Sized(s, n) && Sized(t, n) && i < n && s.slots[i] != Empty
    ensures t.slots[i] == s.slots[i]
    decreases |more|
  {
    hide Kept, Enabled, Apply;
    if more == [] {
      assert events + more == events;
    } else {
      var front := more[..|more| - 1];
      assert (events + more)[..|events + more| - 1] == events + front;
      var before, e := Before(cfg, tasks, n, events + more, t);
      AlwaysKept(cfg, tasks, n, events + front, before);
      KeptSized(cfg, tasks, n, before);
      WrittenOnce(cfg, tasks, n, events, s, front, before, i);
      if e.Act? {
        OthersUnmoved(cfg, tasks, n, before, e.worker, e.action);
      }
    }
  }

  /** The derived context is done, and task i has not started: it never will. */
  ghost predicate CalledOff<V, E>(s: State<V, E>, i: nat)
    requires i < |s.places| == |s.slots|
  {
    s.inner && (s.places[i] == Waiting || s.places[i] == Checking || (s.slots[i].Written? && s.slots[i].outcome == Cancelled))
  }

  lemma StaysCalledOff<V, E>(cfg: Config, tasks: Tasks<V, E>, n: nat, s: State<V, E>, e: Event<V, E>, i: nat)
    requires Kept(cfg, tasks, n, s) && CanHappen(cfg, tasks, n, s, e) && i < n && CalledOff(s, i)
    ensures Sized(Happen(cfg, tasks, n, s, e), n) && CalledOff(Happen(cfg, tasks, n, s, e), i)
  {
    assert WorkerKept(cfg, tasks, s, i);
    if e.Act? {
      OthersUnmoved(cfg, tasks, n, s, e.worker, e.action);
    }
  }

  /** Once the derived context is done no task starts any more: its slot can only come to say cancelled. */
  lemma {:induction false} NoneStartsLate<V, E>(cfg: Config, tasks: Tasks<V, E>, n: nat, events: seq<Event<V, E>>,
                                                s: State<V, E>, more: seq<Event<V, E>>, t: State<V, E>, i: nat)
    requires Reaches(cfg, tasks, n, events, s) && Reaches(cfg, tasks, n, events + more, t)
    requires Sized(s, n) && Sized(t, n) && i < n && s.inner && (s.places[i] == Waiting || s.places[i] == Checking)
    ensures t.slots[i] == Empty || t.slots[i].outcome == Cancelled
    ensures CalledOff(t, i)
    decreases |more|
  {
    AlwaysKept(cfg, tasks, n, events + more, t);
    assert WorkerKept(cfg, tasks, t, i);
    hide Kept, Enabled, Apply, Happen, CanHappen;
    if more == [] {
      assert events + more == events;
    } else {
      var front := more[..|more| - 1];
      assert (events + more)[..|events + more| - 1] == events + front;
      var before, e := Before(cfg, tasks, n, events + more, t);
      AlwaysKept(cfg, tasks, n, events + front, before);
      KeptSized(cfg, tasks, n, before);
      NoneStartsLate(cfg, tasks, n, events, s, front, before, i);
      StaysCalledOff(cfg, tasks, n, before, e, i);
    }
  }

  lemma KeptSized<V, E>(cfg: Config, tasks: Tasks<V, E>, n: nat, s: State<V, E>)
    requires Kept(cfg, tasks, n, s)
    ensures Sized(s, n)
  {
  }

  /** Whatever happened so far, the run can be completed, without a cancellation from outside. */
  lemma {:induction false} CanFinish<V(!new), E(!new)>(cfg: Config, tasks: Tasks<V, E>, n: nat,
                                                       events: seq<Event<V, E>>, s: State<V, E>)
    returns (more: seq<Event<V, E>>, t: State<V, E>)
    requires Reaches(cfg, tasks, n, events, s) && EveryTaskEnds(tasks, n)
    ensures Reaches(cfg, tasks, n, events + more, t) && AllDone(t) && t.outer == s.outer
    decreases 6 * n - Actions(events)
  {
    hide Enabled, Apply, AllDone, Kept, EveryTaskEnds, AllLeft;
    if AllDone(s) {
      assert events + [] == events;
      return [], s;
    }
    NeverStuck(cfg, tasks, n, events, s);
    var i, a :| Enabled(cfg, tasks, n, s, i, a);
    var e: Event<V, E> := Act(i, a);
    AlwaysKept(cfg, tasks, n, events, s);
    InRange(cfg, tasks, n, s, i, a);
    OthersUnmoved(cfg, tasks, n, s, i, a);
    Extend(cfg, tasks, n, events, s, e);
    var next := Happen(cfg, tasks, n, s, e);
    assert (events + [e])[..|events + [e]| - 1] == events;
    RunsEnd(cfg, tasks, n, events + [e], next);
    more, t := CanFinish(cfg, tasks, n, events + [e], next);
    assert events + [e] + more == events + ([e] + more);
    more := [e] + more;
  }
}
