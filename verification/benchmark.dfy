/**
  The benchmark runner: a sequential loop over the examples, and a parallel one over the
  fan-out with a sticky first-error gate.
*/
module Benchmark {
  import opened Options
  import Fanout

  /** What running one example came to; NotRun and Skipped are examples never attempted. */
  datatype Attempt<R, E> = NotRun | Skipped | RanOk(value: R) | RanErr(error: E) | RanPanic

  datatype RunError<E> = ExampleError(error: E) | WorkerPanic | ContextDone

  datatype RunResult<R, E> = Completed(perExample: seq<R>) | Aborted(error: RunError<E>)

  predicate Ran<R, E>(a: Attempt<R, E>) {
    a.RanOk? || a.RanErr? || a.RanPanic?
  }

  function NormalizeParallelism(p: int): (workers: int)
    ensures workers >= 1 && (workers == 1 <==> p < 2) && (workers > 1 ==> workers == p)
  {
    if p < 2 then 1 else p
  }

  /* ---- The sequential runner ---- */

  /** The sequential run over deterministic examples; None stands for a panic that ends the process. */
  ghost function Sequential<R, E>(attempt: int -> Attempt<R, E>, n: nat): Option<RunResult<R, E>> {
    if n == 0 then Some(Completed([])) else
      match Sequential(attempt, n - 1)
      case None => None
      case Some(Aborted(e)) => Some(Aborted(e))
      case Some(Completed(per)) =>
        match attempt(n - 1)
        case RanOk(r) => Some(Completed(per + [r]))
        case RanErr(e) => Some(Aborted(ExampleError(e)))
        case _ => None
  }

  method RunSequential<R, E>(attempt: int -> Attempt<R, E>, n: nat) returns (out: Option<RunResult<R, E>>)
    requires forall i :: 0 <= i < n ==> Ran(attempt(i))
    ensures out == Sequential(attempt, n)
  {
    var per: seq<R> := [];
    for i := 0 to n
      invariant Sequential(attempt, i) == Some(Completed(per))
    {
      match attempt(i) {
        case RanOk(r) => per := per + [r];
        case RanErr(e) =>
          AbortStays(attempt, i + 1, n);
          return Some(Aborted(ExampleError(e)));
        case RanPanic =>
          AbortStays(attempt, i + 1, n);
          return None;
      }
    }
    out := Some(Completed(per));
  }

  lemma {:induction false} AbortStays<R, E>(attempt: int -> Attempt<R, E>, k: nat, n: nat)
    requires k <= n && (Sequential(attempt, k) == None || Sequential(attempt, k).value.Aborted?)
    ensures Sequential(attempt, n) == Sequential(attempt, k)
    decreases n
  {
    if k < n {
      AbortStays(attempt, k, n - 1);
    }
  }

  /** The run completes exactly when every example succeeds, with their results in order. */
  lemma {:induction false} SequentialIff<R, E>(attempt: int -> Attempt<R, E>, n: nat, per: seq<R>)
    ensures Sequential(attempt, n) == Some(Completed(per)) <==>
      |per| == n && forall i :: 0 <= i < n ==> attempt(i) == RanOk(per[i])
  {
    if n == 0 {
    } else {
      if |per| > 0 {
        SequentialIff(attempt, n - 1, per[..|per| - 1]);
        assert per == per[..|per| - 1] + [per[|per| - 1]];
      }
      if Sequential(attempt, n) == Some(Completed(per)) {
        var front := Sequential(attempt, n - 1).value.perExample;
        SequentialIff(attempt, n - 1, front);
        assert per[..|per| - 1] == front;
      }
    }
  }

  /* ---- The parallel runner ---- */

  /** Where the body of one task stands while its worker runs it. */
  datatype Phase<R, E> = Idle | Attempting | Storing(result: R) | Recording(error: E) | Ending(outcome: Fanout.Outcome<(), E>)

  /** The fan-out, the shared gate and result slice, and what became of each example. */
  datatype State<R, E> = State(pool: Fanout.State<(), E>, phases: seq<Phase<R, E>>, firstErr: Option<E>, results: seq<R>,
                               attempts: seq<Attempt<R, E>>)

  /** The gate is read, the example run, its result stored or its error recorded, and the task ends. */
  datatype Event<R, E> = Pool(event: Fanout.Event<(), E>)
    | ReadGate(worker: int) | RunOne(worker: int, attempt: Attempt<R, E>)
    | Store(worker: int) | Record(worker: int) | End(worker: int)

  type Runs<!R, !E> = (int, Attempt<R, E>) -> bool

  function PoolConfig(workers: int): Fanout.Config {
    Fanout.Config(workers, false)
  }

  /** The fan-out knows nothing about the tasks: they may end in anything. */
  ghost predicate AnyEnd<E>(i: int, o: Fanout.Outcome<(), E>) {
    true
  }

  ghost function Init<R, E>(n: nat, zero: R): State<R, E> {
    State(Fanout.Init(n), seq(n, i => Idle), None, seq(n, i => zero), seq(n, i => NotRun))
  }

  ghost predicate Sized<R, E>(s: State<R, E>, n: nat) {
    Fanout.Sized(s.pool, n) && |s.phases| == n && |s.results| == n && |s.attempts| == n
  }

  ghost predicate InBody<R, E>(n: nat, s: State<R, E>, i: int) {
    Sized(s, n) && 0 <= i < n && s.pool.places[i] == Fanout.Running
  }

  ghost predicate CanHappen<R, E>(workers: int, runs: Runs<R, E>, n: nat, s: State<R, E>, e: Event<R, E>) {
    match e
    case Pool(p) => Sized(s, n) && (p.Act? ==> !p.action.Finish?) && Fanout.CanHappen(PoolConfig(workers), AnyEnd, n, s.pool, p)
    case ReadGate(i) => InBody(n, s, i) && s.phases[i] == Idle
    case RunOne(i, a) => InBody(n, s, i) && s.phases[i] == Attempting && Ran(a) && runs(i, a)
    case Store(i) => InBody(n, s, i) && s.phases[i].Storing?
    case Record(i) => InBody(n, s, i) && s.phases[i].Recording?
    case End(i) => InBody(n, s, i) && s.phases[i].Ending? && s.phases[i].outcome != Fanout.Cancelled
  }

  /** The event as the fan-out sees it: only the end of a task is one of its own. */
  ghost function Seen<R, E>(s: State<R, E>, e: Event<R, E>): Option<Fanout.Event<(), E>> {
    match e
    case Pool(p) => Some(p)
    case End(i) =>
      if 0 <= i < |s.phases| && s.phases[i].Ending? then Some(Fanout.Act(i, Fanout.Finish(s.phases[i].outcome))) else None
    case _ => None
  }

  ghost function Happen<R, E>(workers: int, runs: Runs<R, E>, n: nat, s: State<R, E>, e: Event<R, E>): State<R, E>
    requires CanHappen(workers, runs, n, s, e)
  {
    match e
    case Pool(p) => s.(pool := Fanout.Happen(PoolConfig(workers), AnyEnd, n, s.pool, p))
    case ReadGate(i) =>
      if s.firstErr.Some? then s.(phases := s.phases[i := Ending(Fanout.Value(()))], attempts := s.attempts[i := Skipped])
      else s.(phases := s.phases[i := Attempting])
    case RunOne(i, a) =>
      var next := if a.RanOk? then Storing(a.value) else if a.RanErr? then Recording(a.error) else Ending(Fanout.Panicked);
      s.(phases := s.phases[i := next], attempts := s.attempts[i := a])
    case Store(i) => s.(results := s.results[i := s.phases[i].result], phases := s.phases[i := Ending(Fanout.Value(()))])
    case Record(i) =>
      var err := s.phases[i].error;
      s.(firstErr := if s.firstErr.None? then Some(err) else s.firstErr, phases := s.phases[i := Ending(Fanout.Failed(err))])
    case End(i) =>
      s.(pool := Fanout.Happen(PoolConfig(workers), AnyEnd, n, s.pool, Fanout.Act(i, Fanout.Finish(s.phases[i].outcome))))
  }

  ghost function After<R, E>(workers: int, runs: Runs<R, E>, n: nat, zero: R, events: seq<Event<R, E>>): State<R, E> {
    if events == [] then Init(n, zero) else
      var before := After(workers, runs, n, zero, events[..|events| - 1]);
      var e := events[|events| - 1];
      if CanHappen(workers, runs, n, before, e) then Happen(workers, runs, n, before, e) else before
  }

  ghost predicate Legal<R, E>(workers: int, runs: Runs<R, E>, n: nat, zero: R, events: seq<Event<R, E>>) {
    events == [] || (
      && Legal(workers, runs, n, zero, events[..|events| - 1])
      && CanHappen(workers, runs, n, After(workers, runs, n, zero, events[..|events| - 1]), events[|events| - 1]))
  }

  /** The schedule takes a fresh parallel run to s. */
  ghost predicate Reaches<R, E>(workers: int, runs: Runs<R, E>, n: nat, zero: R, events: seq<Event<R, E>>,
                                s: State<R, E>) {
    Legal(workers, runs, n, zero, events) && s == After(workers, runs, n, zero, events)
  }

  /* ---- Refinement of the fan-out ---- */

  ghost function PoolEvents<R, E>(workers: int, runs: Runs<R, E>, n: nat, zero: R, events: seq<Event<R, E>>)
    : seq<Fanout.Event<(), E>>
  {
    if events == [] then [] else
      var front := events[..|events| - 1];
      var seen := Seen(After(workers, runs, n, zero, front), events[|events| - 1]);
      PoolEvents(workers, runs, n, zero, front) + if seen.Some? then [seen.value] else []
  }

  /** Forgetting the bodies of the tasks, every parallel run is a run of the fan-out. */
  lemma {:induction false} RefinesFanout<R, E>(workers: int, runs: Runs<R, E>, n: nat, zero: R,
                                               events: seq<Event<R, E>>, s: State<R, E>)
    requires Reaches(workers, runs, n, zero, events, s)
    ensures Fanout.Reaches(PoolConfig(workers), AnyEnd, n, PoolEvents(workers, runs, n, zero, events), s.pool)
    decreases |events|
  {
    hide Fanout.Happen, Fanout.Init, Fanout.CanHappen, Happen, CanHappen, Seen;
    if events == [] {
      StartsTogether<R, E>(n, zero);
    } else {
      var front, e := events[..|events| - 1], events[|events| - 1];
      var before := After(workers, runs, n, zero, front);
      RefinesFanout(workers, runs, n, zero, front, before);
      SeenHappens(workers, runs, n, before, e);
      var trace := PoolEvents(workers, runs, n, zero, front);
      var seen := Seen(before, e);
      if seen.Some? {
        Fanout.Extend(PoolConfig(workers), AnyEnd, n, trace, before.pool, seen.value);
      } else {
        assert trace + [] == trace;
      }
    }
  }

  lemma StartsTogether<R, E>(n: nat, zero: R)
    ensures Init<R, E>(n, zero).pool == Fanout.Init<(), E>(n)
  {
  }

  lemma SeenHappens<R, E>(workers: int, runs: Runs<R, E>, n: nat, s: State<R, E>, e: Event<R, E>)
    requires CanHappen(workers, runs, n, s, e)
    ensures Seen(s, e).Some? ==> Fanout.CanHappen(PoolConfig(workers), AnyEnd, n, s.pool, Seen(s, e).value)
    ensures Happen(workers, runs, n, s, e).pool
      == if Seen(s, e).Some? then Fanout.Happen(PoolConfig(workers), AnyEnd, n, s.pool, Seen(s, e).value) else s.pool
  {
  }

  /* ---- What every reachable state keeps ---- */

  ghost predicate WorkerKept<R, E>(runs: Runs<R, E>, s: State<R, E>, i: nat)
    requires Sized(s, |s.phases|) && i < |s.phases|
  {
    var a, place, slot := s.attempts[i], s.pool.places[i], s.pool.slots[i];
    && (Ran(a) ==> runs(i, a))
    && (a == Skipped ==> s.firstErr.Some?)
    && match s.phases[i]
       case Idle => a == NotRun && (slot.Written? ==> slot.outcome == Fanout.Cancelled)
       case Attempting => a == NotRun && place == Fanout.Running
       case Storing(r) => a == RanOk(r) && place == Fanout.Running
       case Recording(e) => a == RanErr(e) && place == Fanout.Running
       case Ending(o) =>
         && (if place == Fanout.Running then slot == Fanout.Empty else slot.Written? && slot.outcome == o)
         && match a
            case NotRun => false
            case Skipped => o == Fanout.Value(())
            case RanOk(r) => o == Fanout.Value(()) && s.results[i] == r
            case RanErr(e) => o == Fanout.Failed(e) && s.firstErr.Some?
            case RanPanic => o == Fanout.Panicked
  }

  /** The recorded error is that of an example which ran and failed. */
  ghost predicate ErrFromExample<R, E>(s: State<R, E>) {
    s.firstErr.Some? ==> exists j :: 0 <= j < |s.attempts| && s.attempts[j] == RanErr(s.firstErr.value)
  }

  ghost predicate Kept<R, E>(runs: Runs<R, E>, n: nat, s: State<R, E>) {
    && Sized(s, n)
    && (forall i :: 0 <= i < n ==> WorkerKept(runs, s, i))
    && ErrFromExample(s)
  }

  lemma InitKept<R, E>(runs: Runs<R, E>, n: nat, zero: R)
    ensures Kept(runs, n, Init(n, zero))
  {
  }

  /** The fan-out's own steps end no running task, restart no ended one and cancel only what never ran. */
  lemma PoolStep<E>(cfg: Fanout.Config, n: nat, s: Fanout.State<(), E>, e: Fanout.Event<(), E>, i: nat)
    requires Fanout.Kept(cfg, AnyEnd, n, s) && Fanout.CanHappen(cfg, AnyEnd, n, s, e) && (e.Act? ==> !e.action.Finish?)
    requires i < n
    ensures var t := Fanout.Happen(cfg, AnyEnd, n, s, e);
      && Fanout.Sized(t, n)
      && (s.places[i] == Fanout.Running ==> t.places[i] == Fanout.Running && t.slots[i] == s.slots[i])
      && (s.slots[i].Written? ==> t.places[i] != Fanout.Running)
      && (t.slots[i] == s.slots[i] ||
          (s.slots[i] == Fanout.Empty && t.slots[i].Written? && t.slots[i].outcome == Fanout.Cancelled))
  {
    assert Fanout.WorkerKept(cfg, AnyEnd, s, i);
    if e.Act? {
      Fanout.OthersUnmoved(cfg, AnyEnd, n, s, e.worker, e.action);
    }
  }

  lemma KeptByPool<R, E>(workers: int, runs: Runs<R, E>, n: nat, s: State<R, E>, p: Fanout.Event<(), E>)
    requires Kept(runs, n, s) && Fanout.Kept(PoolConfig(workers), AnyEnd, n, s.pool)
    requires CanHappen(workers, runs, n, s, Pool(p))
    ensures Kept(runs, n, Happen(workers, runs, n, s, Pool(p)))
  {
    hide Fanout.Happen, Fanout.Kept, Fanout.CanHappen;
    var t := Happen(workers, runs, n, s, Pool(p));
    if n > 0 {
      PoolStep(PoolConfig(workers), n, s.pool, p, 0);
    } else {
      EmptyPool(PoolConfig(workers), s.pool, p);
    }
    forall i | 0 <= i < n
      ensures Sized(t, n) && WorkerKept(runs, t, i)
    {
      assert WorkerKept(runs, s, i);
      PoolStep(PoolConfig(workers), n, s.pool, p, i);
    }
  }

  lemma EmptyPool<E>(cfg: Fanout.Config, s: Fanout.State<(), E>, e: Fanout.Event<(), E>)
    requires Fanout.Sized(s, 0) && Fanout.CanHappen(cfg, AnyEnd, 0, s, e)
    ensures Fanout.Sized(Fanout.Happen(cfg, AnyEnd, 0, s, e), 0)
  {
  }

  /** A step inside a task's body touches that example only, and never takes the recorded error back. */
  lemma KeptByBody<R, E>(workers: int, runs: Runs<R, E>, n: nat, s: State<R, E>, e: Event<R, E>)
    requires Kept(runs, n, s) && Fanout.Kept(PoolConfig(workers), AnyEnd, n, s.pool)
    requires CanHappen(workers, runs, n, s, e) && !e.Pool? && !e.End?
    ensures Kept(runs, n, Happen(workers, runs, n, s, e))
  {
    var t := Happen(workers, runs, n, s, e);
    var k := e.worker;
    assert Fanout.WorkerKept(PoolConfig(workers), AnyEnd, s.pool, k);
    assert WorkerKept(runs, s, k);
    if s.firstErr.Some? {
      var j :| 0 <= j < n && s.attempts[j] == RanErr(s.firstErr.value);
      assert WorkerKept(runs, s, j);
      assert t.attempts[j] == s.attempts[j];
    } else if t.firstErr.Some? {
      assert t.attempts[k] == RanErr(t.firstErr.value);
    }
    forall i | 0 <= i < n
      ensures WorkerKept(runs, t, i)
    {
      assert WorkerKept(runs, s, i);
    }
  }

  lemma KeptByEnd<R, E>(workers: int, runs: Runs<R, E>, n: nat, s: State<R, E>, k: int)
    requires Kept(runs, n, s) && CanHappen(workers, runs, n, s, End(k))
    ensures Kept(runs, n, Happen(workers, runs, n, s, End(k)))
  {
    var t := Happen(workers, runs, n, s, End(k));
    forall i | 0 <= i < n
      ensures WorkerKept(runs, t, i)
    {
      assert WorkerKept(runs, s, i);
    }
  }

  /** Every state of every schedule keeps the invariant. */
  lemma {:induction false} AlwaysKept<R, E>(workers: int, runs: Runs<R, E>, n: nat, zero: R, events: seq<Event<R, E>>,
                                            s: State<R, E>)
    requires Reaches(workers, runs, n, zero, events, s)
    ensures Kept(runs, n, s)
    decreases |events|
  {
    hide Kept, Happen, CanHappen;
    if events == [] {
      InitKept(runs, n, zero);
    } else {
      var front, e := events[..|events| - 1], events[|events| - 1];
      var before := After(workers, runs, n, zero, front);
      AlwaysKept(workers, runs, n, zero, front, before);
      RefinesFanout(workers, runs, n, zero, front, before);
      Fanout.AlwaysKept(PoolConfig(workers), AnyEnd, n, PoolEvents(workers, runs, n, zero, front), before.pool);
      match e {
        case Pool(p) => KeptByPool(workers, runs, n, before, p);
        case End(k) => KeptByEnd(workers, runs, n, before, k);
        case _ => KeptByBody(workers, runs, n, before, e);
      }
    }
  }

  /* ---- What the parallel runner returns ---- */

  function SlotError<E>(o: Fanout.Outcome<(), E>): Option<RunError<E>> {
    match o
    case Value(_) => None
    case Failed(e) => Some(ExampleError(e))
    case Panicked => Some(WorkerPanic)
    case Cancelled => Some(ContextDone)
  }

  /** The recorded error if there is one, else the first slot in error, else the results. */
  method Conclude<R, E>(firstErr: Option<E>, slots: seq<Fanout.Slot<(), E>>, results: seq<R>)
    returns (out: RunResult<R, E>)
    requires forall i :: 0 <= i < |slots| ==> slots[i].Written?
    ensures out.Completed? <==> firstErr.None? && forall i :: 0 <= i < |slots| ==> slots[i].outcome.Value?
    ensures out.Completed? ==> out.perExample == results
    ensures firstErr.Some? ==> out == Aborted(ExampleError(firstErr.value))
    ensures firstErr.None? && out.Aborted? ==>
      exists i :: 0 <= i < |slots| && SlotError(slots[i].outcome) == Some(out.error)
  {
    if firstErr.Some? {
      return Aborted(ExampleError(firstErr.value));
    }
    for i := 0 to |slots|
      invariant forall j :: 0 <= j < i ==> slots[j].outcome.Value?
    {
      var error := SlotError(slots[i].outcome);
      if error.Some? {
        return Aborted(error.value);
      }
    }
    out := Completed(results);
  }

  /** No error to report: nothing recorded, and every slot a plain end of its task. */
  ghost predicate Clean<R, E>(s: State<R, E>) {
    s.firstErr.None? && forall i :: 0 <= i < |s.pool.slots| ==> s.pool.slots[i].Written? && s.pool.slots[i].outcome.Value?
  }

  ghost predicate NoneFailed<R, E>(s: State<R, E>) {
    forall i :: 0 <= i < |s.attempts| ==> !s.attempts[i].RanErr? && !s.attempts[i].RanPanic?
  }

  ghost predicate NoneCancelled<R, E>(s: State<R, E>) {
    forall i :: 0 <= i < |s.pool.slots| ==> s.pool.slots[i].Written? && s.pool.slots[i].outcome != Fanout.Cancelled
  }

  ghost predicate AllReported<R, E>(s: State<R, E>) {
    |s.attempts| == |s.results| && forall i :: 0 <= i < |s.attempts| ==> s.attempts[i] == RanOk(s.results[i])
  }

  /**
    Under every schedule the error is nil exactly when no attempted example failed or
    panicked and no slot was cancelled; and then every example was attempted and its result
    is its own, so that no slot skipped at the gate shows through.
  */
  lemma NilErrorIff<R, E>(workers: int, runs: Runs<R, E>, n: nat, zero: R, events: seq<Event<R, E>>, s: State<R, E>)
    requires Reaches(workers, runs, n, zero, events, s) && Fanout.AllDone(s.pool)
    ensures Clean(s) <==> NoneFailed(s) && NoneCancelled(s)
    ensures Clean(s) ==> AllReported(s) && forall i :: 0 <= i < n ==> runs(i, s.attempts[i])
    ensures Sized(s, n) && ErrFromExample(s) && forall i :: 0 <= i < n ==> s.pool.slots[i].Written?
  {
    AlwaysKept(workers, runs, n, zero, events, s);
    RefinesFanout(workers, runs, n, zero, events, s);
    Fanout.FinishedRun(PoolConfig(workers), AnyEnd, n, PoolEvents(workers, runs, n, zero, events), s.pool);
    forall i | 0 <= i < n
      ensures s.attempts[i].RanErr? ==> s.firstErr.Some?
      ensures s.attempts[i].RanPanic? ==> s.pool.slots[i].outcome == Fanout.Panicked
      ensures s.pool.slots[i].outcome == Fanout.Cancelled <==> s.attempts[i] == NotRun
      ensures s.attempts[i].RanOk? ==> s.attempts[i] == RanOk(s.results[i]) && s.pool.slots[i].outcome.Value?
      ensures s.attempts[i] == Skipped ==> s.firstErr.Some?
      ensures Ran(s.attempts[i]) ==> runs(i, s.attempts[i])
    {
      assert WorkerKept(runs, s, i);
    }
  }

  ghost predicate Deterministic<R(!new), E(!new)>(runs: Runs<R, E>, attempt: int -> Attempt<R, E>, n: nat) {
    && (forall i :: 0 <= i < n ==> Ran(attempt(i)))
    && (forall i, a :: 0 <= i < n ==> (runs(i, a) <==> a == attempt(i)))
  }

  /** A nil error means the sequential run's list, whatever the schedule. */
  lemma ParallelIsSequential<R(!new), E(!new)>(workers: int, runs: Runs<R, E>, attempt: int -> Attempt<R, E>, n: nat,
                                               zero: R, events: seq<Event<R, E>>, s: State<R, E>)
    requires Reaches(workers, runs, n, zero, events, s) && Fanout.AllDone(s.pool) && Deterministic(runs, attempt, n)
    ensures Clean(s) ==> Sequential(attempt, n) == Some(Completed(s.results))
  {
    hide Reaches, Fanout.AllDone;
    NilErrorIff(workers, runs, n, zero, events, s);
    SequentialIff(attempt, n, s.results);
  }

  /** Uncancelled and without panics, the parallel run fails exactly when the sequential one does. */
  lemma FailsTogether<R(!new), E(!new)>(workers: int, runs: Runs<R, E>, attempt: int -> Attempt<R, E>, n: nat, zero: R,
                                        events: seq<Event<R, E>>, s: State<R, E>)
    requires Reaches(workers, runs, n, zero, events, s) && Fanout.AllDone(s.pool) && Deterministic(runs, attempt, n)
    requires !s.pool.outer && forall i :: 0 <= i < n ==> !attempt(i).RanPanic?
    ensures Sequential(attempt, n).Some?
    ensures Clean(s) <==> Sequential(attempt, n).value.Completed?
    ensures !Clean(s) ==> s.firstErr.Some? && exists j :: 0 <= j < n && attempt(j) == RanErr(s.firstErr.value)
  {
    hide Reaches, Fanout.AllDone, Clean;
    ParallelIsSequential(workers, runs, attempt, n, zero, events, s);
    NeverCrashes(attempt, n);
    NothingSkippedUnseen(workers, runs, attempt, n, zero, events, s);
  }

  lemma {:induction false} NeverCrashes<R, E>(attempt: int -> Attempt<R, E>, n: nat)
    requires forall i :: 0 <= i < n ==> Ran(attempt(i)) && !attempt(i).RanPanic?
    ensures Sequential(attempt, n).Some?
  {
    if n == 0 {
    } else {
      NeverCrashes(attempt, n - 1);
    }
  }

  lemma NothingSkippedUnseen<R(!new), E(!new)>(workers: int, runs: Runs<R, E>, attempt: int -> Attempt<R, E>, n: nat,
                                               zero: R, events: seq<Event<R, E>>, s: State<R, E>)
    requires Reaches(workers, runs, n, zero, events, s) && Fanout.AllDone(s.pool) && Deterministic(runs, attempt, n)
    requires !s.pool.outer && forall i :: 0 <= i < n ==> !attempt(i).RanPanic?
    ensures !Clean(s) ==> s.firstErr.Some? && exists j :: 0 <= j < n && attempt(j) == RanErr(s.firstErr.value)
    ensures Sequential(attempt, n).Some? && Sequential(attempt, n).value.Completed? ==> Clean(s)
  {
    hide Reaches;
    NilErrorIff(workers, runs, n, zero, events, s);
    AlwaysKept(workers, runs, n, zero, events, s);
    RefinesFanout(workers, runs, n, zero, events, s);
    Fanout.FinishedRun(PoolConfig(workers), AnyEnd, n, PoolEvents(workers, runs, n, zero, events), s.pool);
    assert NoneCancelled(s);
    if s.firstErr.Some? {
      var j :| 0 <= j < n && s.attempts[j] == RanErr(s.firstErr.value);
      assert WorkerKept(runs, s, j);
      assert attempt(j) == RanErr(s.firstErr.value);
      if Sequential(attempt, n).Some? && Sequential(attempt, n).value.Completed? {
        SequentialIff(attempt, n, Sequential(attempt, n).value.perExample);
        assert false;
      }
    } else {
      forall i | 0 <= i < n
        ensures !s.attempts[i].RanErr? && !s.attempts[i].RanPanic?
      {
        assert WorkerKept(runs, s, i);
      }
    }
  }

  ghost predicate CanRun<R(!new), E(!new)>(runs: Runs<R, E>, i: int) {
    exists a :: Ran(a) && runs(i, a)
  }

  /** Until every worker is done some step other than an outside cancellation can happen. */
  lemma NeverStuck<R(!new), E(!new)>(workers: int, runs: Runs<R, E>, n: nat, zero: R, events: seq<Event<R, E>>,
                                     s: State<R, E>)
    requires Reaches(workers, runs, n, zero, events, s) && !Fanout.AllDone(s.pool)
    requires forall i :: 0 <= i < n ==> CanRun(runs, i)
    ensures exists e :: e != Pool(Fanout.CancelOuter) && CanHappen(workers, runs, n, s, e)
  {
    AlwaysKept(workers, runs, n, zero, events, s);
    RefinesFanout(workers, runs, n, zero, events, s);
    forall i | 0 <= i < n
      ensures Fanout.CanEnd<(), E>(AnyEnd, i)
    {
      var end: Fanout.Outcome<(), E> := Fanout.Panicked;
      assert end != Fanout.Cancelled && AnyEnd(i, end);
    }
    Fanout.NeverStuck(PoolConfig(workers), AnyEnd, n, PoolEvents(workers, runs, n, zero, events), s.pool);
    var i, a :| Fanout.Enabled(PoolConfig(workers), AnyEnd, n, s.pool, i, a);
    if a.Finish? {
      assert WorkerKept(runs, s, i);
      BodyCanStep(workers, runs, n, s, i);
    } else {
      assert CanHappen(workers, runs, n, s, Pool(Fanout.Act(i, a)));
    }
  }

  lemma BodyCanStep<R(!new), E(!new)>(workers: int, runs: Runs<R, E>, n: nat, s: State<R, E>, i: nat)
    requires InBody(n, s, i) && WorkerKept(runs, s, i) && CanRun(runs, i)
    ensures exists e :: e != Pool(Fanout.CancelOuter) && CanHappen(workers, runs, n, s, e)
  {
    match s.phases[i] {
      case Idle => assert CanHappen(workers, runs, n, s, ReadGate(i));
      case Attempting =>
        var a :| Ran(a) && runs(i, a);
        assert CanHappen(workers, runs, n, s, RunOne(i, a));
      case Storing(_) => assert CanHappen(workers, runs, n, s, Store(i));
      case Recording(_) => assert CanHappen(workers, runs, n, s, Record(i));
      case Ending(_) => assert CanHappen(workers, runs, n, s, End(i));
    }
  }

  /* ---- No run without end, and an end for every run ---- */

  /** How many steps the body of a task has left at most. */
  ghost function Left<R, E>(s: State<R, E>, i: nat): nat
    requires i < |s.phases|
  {
    match s.phases[i]
    case Idle => 3
    case Attempting => 2
    case Storing(_) => 1
    case Recording(_) => 1
    case Ending(_) => 0
  }

  ghost function AllLeft<R, E>(s: State<R, E>, n: nat): nat
    requires n <= |s.phases|
  {
    if n == 0 then 0 else AllLeft(s, n - 1) + Left(s, n - 1)
  }

  lemma {:induction false} AllLeftDrops<R, E>(s: State<R, E>, t: State<R, E>, n: nat, i: nat)
    requires n <= |s.phases| == |t.phases| && i < |s.phases|
    requires forall j :: 0 <= j < n && j != i ==> t.phases[j] == s.phases[j]
    requires Left(t, i) < Left(s, i)
    ensures if i < n then AllLeft(t, n) < AllLeft(s, n) else AllLeft(t, n) == AllLeft(s, n)
  {
    if n == 0 {
    } else {
      AllLeftDrops(s, t, n - 1, i);
    }
  }

  lemma {:induction false} AllLeftSame<R, E>(s: State<R, E>, t: State<R, E>, n: nat)
    requires n <= |s.phases| && s.phases == t.phases
    ensures AllLeft(t, n) == AllLeft(s, n)
  {
    if n == 0 {
    } else {
      AllLeftSame(s, t, n - 1);
    }
  }

  lemma {:induction false} AllLeftAtStart<R, E>(n: nat, zero: R, k: nat)
    requires k <= n
    ensures AllLeft<R, E>(Init(n, zero), k) == 3 * k
  {
    if k == 0 {
    } else {
      AllLeftAtStart<R, E>(n, zero, k - 1);
    }
  }

  /** The steps of a schedule that are not cancellations from outside. */
  ghost function Actions<R, E>(events: seq<Event<R, E>>): nat {
    if events == [] then 0 else
      Actions(events[..|events| - 1]) + if events[|events| - 1] == Pool(Fanout.CancelOuter) then 0 else 1
  }

  /** Every step but a cancellation uses up what is left of the pool's or a body's steps. */
  lemma StepLeaves<R, E>(workers: int, runs: Runs<R, E>, n: nat, s: State<R, E>, e: Event<R, E>)
    requires Sized(s, n) && Fanout.Kept(PoolConfig(workers), AnyEnd, n, s.pool) && CanHappen(workers, runs, n, s, e)
    ensures var t := Happen(workers, runs, n, s, e);
      && Sized(t, n)
      && Fanout.AllLeft(t.pool, n) + AllLeft(t, n) + (if e == Pool(Fanout.CancelOuter) then 0 else 1)
         <= Fanout.AllLeft(s.pool, n) + AllLeft(s, n)
  {
    hide Fanout.Kept, Fanout.AllLeft, AllLeft, Fanout.Apply;
    var t := Happen(workers, runs, n, s, e);
    match e {
      case Pool(p) =>
        AllLeftSame(s, t, n);
        match p {
          case Act(i, a) => Fanout.ActionLeaves(PoolConfig(workers), AnyEnd, n, s.pool, i, a);
          case CancelOuter => Fanout.AllLeftSame(s.pool, t.pool, n);
        }
      case End(i) =>
        AllLeftSame(s, t, n);
        Fanout.ActionLeaves(PoolConfig(workers), AnyEnd, n, s.pool, i, Fanout.Finish(s.phases[i].outcome));
      case ReadGate(i) => AllLeftDrops(s, t, n, i);
      case RunOne(i, _) => AllLeftDrops(s, t, n, i);
      case Store(i) => AllLeftDrops(s, t, n, i);
      case Record(i) => AllLeftDrops(s, t, n, i);
    }
  }

  /** No schedule has more than nine steps per example, cancellations from outside aside. */
  lemma {:induction false} RunsEnd<R, E>(workers: int, runs: Runs<R, E>, n: nat, zero: R, events: seq<Event<R, E>>,
                                         s: State<R, E>)
    requires Reaches(workers, runs, n, zero, events, s)
    ensures Sized(s, n) && Actions(events) + Fanout.AllLeft(s.pool, n) + AllLeft(s, n) <= 9 * n
    decreases |events|
  {
    hide Happen, CanHappen, AllLeft, Fanout.AllLeft, Fanout.Init;
    if events == [] {
      StartsTogether<R, E>(n, zero);
      Fanout.AllLeftAtStart<(), E>(n, n);
      AllLeftAtStart<R, E>(n, zero, n);
      InitKept<R, E>((i, a) => true, n, zero);
    } else {
      var front := events[..|events| - 1];
      var before := After(workers, runs, n, zero, front);
      RunsEnd(workers, runs, n, zero, front, before);
      RefinesFanout(workers, runs, n, zero, front, before);
      Fanout.AlwaysKept(PoolConfig(workers), AnyEnd, n, PoolEvents(workers, runs, n, zero, front), before.pool);
      StepLeaves(workers, runs, n, before, events[|events| - 1]);
    }
  }

  lemma OuterStays<R, E>(workers: int, runs: Runs<R, E>, n: nat, s: State<R, E>, e: Event<R, E>)
    requires CanHappen(workers, runs, n, s, e) && e != Pool(Fanout.CancelOuter)
    ensures Happen(workers, runs, n, s, e).pool.outer == s.pool.outer
  {
  }

  lemma Extend<R, E>(workers: int, runs: Runs<R, E>, n: nat, zero: R, events: seq<Event<R, E>>, s: State<R, E>,
                     e: Event<R, E>)
    requires Reaches(workers, runs, n, zero, events, s) && CanHappen(workers, runs, n, s, e)
    ensures Reaches(workers, runs, n, zero, events + [e], Happen(workers, runs, n, s, e))
    ensures e != Pool(Fanout.CancelOuter) ==> Actions(events + [e]) == Actions(events) + 1
  {
    hide Happen, CanHappen;
    assert (events + [e])[..|events + [e]| - 1] == events;
  }

  /** Whatever happened so far, the run can be completed, without a cancellation from outside. */
  lemma {:induction false} CanFinish<R(!new), E(!new)>(workers: int, runs: Runs<R, E>, n: nat, zero: R,
                                                       events: seq<Event<R, E>>, s: State<R, E>)
    returns (more: seq<Event<R, E>>, t: State<R, E>)
    requires Reaches(workers, runs, n, zero, events, s) && forall i :: 0 <= i < n ==> CanRun(runs, i)
    ensures Reaches(workers, runs, n, zero, events + more, t) && Fanout.AllDone(t.pool) && t.pool.outer == s.pool.outer
    decreases 9 * n - Actions(events)
  {
    hide Reaches, CanHappen, Happen, Fanout.AllDone, Actions, CanRun;
    if Fanout.AllDone(s.pool) {
      assert events + [] == events;
      return [], s;
    }
    NeverStuck(workers, runs, n, zero, events, s);
    var e :| e != Pool(Fanout.CancelOuter) && CanHappen(workers, runs, n, s, e);
    Extend(workers, runs, n, zero, events, s, e);
    OuterStays(workers, runs, n, s, e);
    var next := Happen(workers, runs, n, s, e);
    RunsEnd(workers, runs, n, zero, events + [e], next);
    more, t := CanFinish(workers, runs, n, zero, events + [e], next);
    assert events + [e] + more == events + ([e] + more);
    more := [e] + more;
  }

  /* ---- The gate ---- */

  /** An error is recorded, and example i is either still to come or skipped. */
  ghost predicate ShutOut<R, E>(s: State<R, E>, i: nat)
    requires Sized(s, |s.phases|) && i < |s.phases|
  {
    s.firstErr.Some? && ((s.phases[i] == Idle && s.attempts[i] == NotRun) || s.attempts[i] == Skipped)
  }

  lemma StaysShutOut<R, E>(workers: int, runs: Runs<R, E>, n: nat, s: State<R, E>, e: Event<R, E>, i: nat)
    requires Kept(runs, n, s) && CanHappen(workers, runs, n, s, e) && i < n && ShutOut(s, i)
    requires Kept(runs, n, Happen(workers, runs, n, s, e))
    ensures ShutOut(Happen(workers, runs, n, s, e), i)
  {
    hide Fanout.Happen, Fanout.CanHappen, ErrFromExample;
    assert WorkerKept(runs, s, i);
  }

  /** Once an error is recorded no example whose task has not read the gate is attempted any more. */
  lemma {:induction false} GateHolds<R, E>(workers: int, runs: Runs<R, E>, n: nat, zero: R, events: seq<Event<R, E>>,
                                           s: State<R, E>, more: seq<Event<R, E>>, t: State<R, E>, i: nat)
    requires Reaches(workers, runs, n, zero, events, s) && Reaches(workers, runs, n, zero, events + more, t)
    requires Sized(s, n) && Sized(t, n) && i < n && s.firstErr.Some? && s.phases[i] == Idle
    ensures t.attempts[i] == NotRun || t.attempts[i] == Skipped
    ensures ShutOut(t, i)
    decreases |more|
  {
    AlwaysKept(workers, runs, n, zero, events, s);
    assert WorkerKept(runs, s, i);
    hide Kept, Happen, CanHappen, WorkerKept;
    if more == [] {
      assert events + more == events;
    } else {
      var front, e := more[..|more| - 1], more[|more| - 1];
      assert (events + more)[..|events + more| - 1] == events + front;
      var before := After(workers, runs, n, zero, events + front);
      AlwaysKept(workers, runs, n, zero, events + front, before);
      AlwaysKept(workers, runs, n, zero, events + more, t);
      RunsEnd(workers, runs, n, zero, events + front, before);
      GateHolds(workers, runs, n, zero, events, s, front, before, i);
      StaysShutOut(workers, runs, n, before, e, i);
    }
  }
}
