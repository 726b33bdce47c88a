/**
  Concurrent calls of the memoising wrapper. The cache's mutex covers each lookup and each
  insertion; the inner function runs between them, unlocked.
*/
module MemoInterleaved {
  import opened Recency
  import opened Memo

  /** Where a call stands. */
  datatype Phase<V, E> = Idle | Asking | Answered(inner: Result<V, E>) | Done(reply: Result<V, E>)

  /** The lookup of a call, the return of its inner function, and its insertion and end. */
  datatype Event<V, E> = Look(call: nat) | Return(call: nat, inner: Result<V, E>) | Finish(call: nat)

  datatype State<K, V, E> = State(entries: seq<Entry<K, V>>, phases: seq<Phase<V, E>>)

  ghost function Init<K, V, E>(n: nat): State<K, V, E> {
    State([], seq(n, i => Idle))
  }

  ghost predicate Enabled<K, V, E>(keys: seq<K>, s: State<K, V, E>, e: Event<V, E>) {
    && |s.phases| == |keys| && e.call < |keys|
    && match e
       case Look(c) => s.phases[c] == Idle
       case Return(c, _) => s.phases[c] == Asking
       case Finish(c) => s.phases[c].Answered?
  }

  ghost function Apply<K, V, E>(cap: nat, keys: seq<K>, s: State<K, V, E>, e: Event<V, E>): State<K, V, E>
    requires Enabled(keys, s, e)
  {
    match e
    case Look(c) =>
      var found := Lookup(s.entries, keys[c]);
      State(AfterGet(s.entries, keys[c]), s.phases[c := if found.Some? then Done(Ok(found.value)) else Asking])
    case Return(c, inner) => s.(phases := s.phases[c := Answered(inner)])
    case Finish(c) =>
      var inner := s.phases[c].inner;
      State(if inner.Ok? then AfterPut(s.entries, cap, keys[c], inner.value) else s.entries, s.phases[c := Done(inner)])
  }

  /** The schedule can happen, call c asking for keys[c], and leads to s. */
  ghost predicate Reaches<K(!new), V(!new), E(!new)>(cap: nat, keys: seq<K>, events: seq<Event<V, E>>, s: State<K, V, E>)
    decreases |events|, 1
  {
    if events == [] then s == Init(|keys|)
    else exists before :: Leads(cap, keys, events, before, s)
  }

  ghost predicate Leads<K(!new), V(!new), E(!new)>(cap: nat, keys: seq<K>, events: seq<Event<V, E>>,
                                                   before: State<K, V, E>, s: State<K, V, E>)
    requires events != []
    decreases |events|, 0
  {
    var last := |events| - 1;
    && Reaches(cap, keys, events[..last], before) && Enabled(keys, before, events[last])
    && s == Apply(cap, keys, before, events[last])
  }

  /** The inner function has answered a call of k with v. */
  ghost predicate Given<K, V, E>(keys: seq<K>, events: seq<Event<V, E>>, k: K, v: V) {
    exists i :: 0 <= i < |events| && Gives(keys, events[i], k, v)
  }

  ghost predicate Gives<K, V, E>(keys: seq<K>, e: Event<V, E>, k: K, v: V) {
    e.Return? && e.call < |keys| && keys[e.call] == k && e.inner == Ok(v)
  }

  /** A reply is the inner answer of the call itself, or an earlier success for its key. */
  ghost predicate Justified<K, V, E>(keys: seq<K>, events: seq<Event<V, E>>, c: nat, phase: Phase<V, E>)
    requires c < |keys|
  {
    match phase
    case Idle => true
    case Asking => true
    case Answered(inner) => Return(c, inner) in events
    case Done(reply) => Return(c, reply) in events || (reply.Ok? && Given(keys, events, keys[c], reply.value))
  }

  ghost predicate Kept<K, V, E>(cap: nat, keys: seq<K>, events: seq<Event<V, E>>, s: State<K, V, E>) {
    && |s.phases| == |keys| && DistinctKeys(s.entries) && |s.entries| <= cap
    && (forall e :: e in s.entries ==> Given(keys, events, e.key, e.value))
    && (forall c :: 0 <= c < |keys| ==> Justified(keys, events, c, s.phases[c]))
  }

  lemma GivenGrows<K, V, E>(keys: seq<K>, events: seq<Event<V, E>>, e: Event<V, E>, k: K, v: V)
    requires Given(keys, events, k, v)
    ensures Given(keys, events + [e], k, v)
  {
    var i :| 0 <= i < |events| && Gives(keys, events[i], k, v);
    assert (events + [e])[i] == events[i];
  }

  lemma JustifiedGrows<K, V, E>(keys: seq<K>, events: seq<Event<V, E>>, e: Event<V, E>, c: nat, phase: Phase<V, E>)
    requires c < |keys| && Justified(keys, events, c, phase)
    ensures Justified(keys, events + [e], c, phase)
  {
    if phase.Done? && phase.reply.Ok? && Given(keys, events, keys[c], phase.reply.value) {
      GivenGrows(keys, events, e, keys[c], phase.reply.value);
    }
  }

  /** A recorded success counts as given. */
  lemma ReturnGives<K, V, E>(keys: seq<K>, events: seq<Event<V, E>>, c: nat, v: V)
    requires c < |keys| && Return(c, Ok(v)) in events
    ensures Given(keys, events, keys[c], v)
  {
    var i :| 0 <= i < |events| && events[i] == Return(c, Ok(v));
    assert Gives(keys, events[i], keys[c], v);
  }

  /** What the cache holds after one more event was there before or is a success just inserted. */
  lemma EntriesKept<K, V, E>(cap: nat, keys: seq<K>, events: seq<Event<V, E>>, s: State<K, V, E>, e: Event<V, E>)
    requires Kept(cap, keys, events, s) && Enabled(keys, s, e)
    ensures DistinctKeys(Apply(cap, keys, s, e).entries) && |Apply(cap, keys, s, e).entries| <= cap
    ensures forall x :: x in Apply(cap, keys, s, e).entries ==> Given(keys, events, x.key, x.value)
  {
    hide DistinctKeys, Given, AfterGet, AfterPut, Lookup;
    var t, k := Apply(cap, keys, s, e), keys[e.call];
    assert Justified(keys, events, e.call, s.phases[e.call]);
    match e
    case Look(c) =>
      AfterGetDistinct(s.entries, k);
      forall x | x in t.entries
        ensures Given(keys, events, x.key, x.value)
      {
        AfterGetMembers(s.entries, k, x);
      }
    case Return(c, inner) =>
    case Finish(c) =>
      var inner := s.phases[c].inner;
      if inner.Ok? {
        ReturnGives(keys, events, c, inner.value);
        AfterPutDistinct(s.entries, cap, k, inner.value);
        forall x | x in t.entries
          ensures Given(keys, events, x.key, x.value)
        {
          AfterPutMembers(s.entries, cap, k, inner.value, x);
        }
      }
  }

  lemma AfterGetDistinct<K, V>(s: seq<Entry<K, V>>, k: K)
    requires DistinctKeys(s)
    ensures DistinctKeys(AfterGet(s, k)) && |AfterGet(s, k)| == |s|
  {
    hide DistinctKeys, HasKey, Without, Lookup;
    WithoutKeeps(s, k);
    if Lookup(s, k).Some? {
      DistinctCons(Entry(k, Lookup(s, k).value), Without(s, k));
    }
  }

  lemma AfterPutDistinct<K, V>(s: seq<Entry<K, V>>, cap: nat, k: K, v: V)
    requires DistinctKeys(s)
    ensures DistinctKeys(AfterPut(s, cap, k, v)) && |AfterPut(s, cap, k, v)| <= cap
  {
    hide DistinctKeys, HasKey, Without;
    WithoutKeeps(s, k);
    DistinctCons(Entry(k, v), Without(s, k));
    PrefixDistinct([Entry(k, v)] + Without(s, k), cap);
  }

  /** The call that moves is justified by what it read or by its own inner answer. */
  lemma MoverJustified<K, V, E>(cap: nat, keys: seq<K>, events: seq<Event<V, E>>, s: State<K, V, E>, e: Event<V, E>)
    requires Kept(cap, keys, events, s) && Enabled(keys, s, e)
    ensures Justified(keys, events + [e], e.call, Apply(cap, keys, s, e).phases[e.call])
  {
    hide DistinctKeys, Given, AfterGet, AfterPut, Lookup;
    var k := keys[e.call];
    match e
    case Look(c) =>
      if Lookup(s.entries, k).Some? {
        var v := Lookup(s.entries, k).value;
        LookupHas(s.entries, k, v);
        assert Entry(k, v).key == k;
        GivenGrows(keys, events, e, k, v);
      }
    case Return(c, inner) =>
      assert (events + [e])[|events|] == e;
    case Finish(c) =>
      assert Justified(keys, events, c, s.phases[c]);
  }

  lemma KeptByStep<K, V, E>(cap: nat, keys: seq<K>, events: seq<Event<V, E>>, s: State<K, V, E>, e: Event<V, E>)
    requires Kept(cap, keys, events, s) && Enabled(keys, s, e)
    ensures Kept(cap, keys, events + [e], Apply(cap, keys, s, e))
  {
    hide DistinctKeys, Given, Justified, AfterGet, AfterPut, Lookup;
    var t := Apply(cap, keys, s, e);
    EntriesKept(cap, keys, events, s, e);
    MoverJustified(cap, keys, events, s, e);
    forall x | x in t.entries
      ensures Given(keys, events + [e], x.key, x.value)
    {
      GivenGrows(keys, events, e, x.key, x.value);
    }
    forall c | 0 <= c < |keys|
      ensures Justified(keys, events + [e], c, t.phases[c])
    {
      if c != e.call {
        JustifiedGrows(keys, events, e, c, s.phases[c]);
      }
    }
  }

  lemma InitKept<K, V, E>(cap: nat, keys: seq<K>)
    ensures Kept<K, V, E>(cap, keys, [], Init(|keys|))
  {
  }

  /**
    Under every schedule keys stay distinct and within the capacity, and each entry and each
    reply is an answer of the inner function for its key.
  */
  lemma {:induction false} AlwaysKept<K(!new), V(!new), E(!new)>(
      cap: nat, keys: seq<K>, events: seq<Event<V, E>>, s: State<K, V, E>)
    requires Reaches(cap, keys, events, s)
    ensures Kept(cap, keys, events, s)
    decreases |events|
  {
    hide Kept, Enabled, Apply;
    if events == [] {
      InitKept<K, V, E>(cap, keys);
    } else {
      var last := |events| - 1;
      var before :| Leads(cap, keys, events, before, s);
      AlwaysKept(cap, keys, events[..last], before);
      KeptByStep(cap, keys, events[..last], before, events[last]);
      assert events[..last] + [events[last]] == events;
    }
  }

  /** A finished call was answered by its own inner function, or by that of a call with its key. */
  lemma AnsweredByCall<K(!new), V(!new), E(!new)>(cap: nat, keys: seq<K>, events: seq<Event<V, E>>, s: State<K, V, E>,
                                                  c: nat)
    returns (d: nat)
    requires Reaches(cap, keys, events, s) && c < |keys|
    ensures |s.phases| == |keys|
    ensures s.phases[c].Done? ==> d < |keys| && keys[d] == keys[c] && Return(d, s.phases[c].reply) in events
  {
    hide Reaches;
    AlwaysKept(cap, keys, events, s);
    assert Justified(keys, events, c, s.phases[c]);
    d := c;
    if s.phases[c].Done? && Return(c, s.phases[c].reply) !in events {
      var i :| 0 <= i < |events| && Gives(keys, events[i], keys[c], s.phases[c].reply.value);
      d := events[i].call;
    }
  }

  /** Concurrent calls cannot be told from uncached ones when the inner function answers calls of one key alike. */
  lemma Transparent<K(!new), V(!new), E(!new)>(cap: nat, keys: seq<K>, events: seq<Event<V, E>>, s: State<K, V, E>,
                                               inner: seq<Result<V, E>>, c: nat)
    requires Reaches(cap, keys, events, s) && c < |keys| == |inner|
    requires forall i, j :: 0 <= i < |keys| && 0 <= j < |keys| && keys[i] == keys[j] ==> inner[i] == inner[j]
    requires forall e :: e in events && e.Return? && e.call < |keys| ==> e.inner == inner[e.call]
    ensures |s.phases| == |keys| && (s.phases[c].Done? ==> s.phases[c].reply == inner[c])
  {
    hide Reaches;
    var d := AnsweredByCall(cap, keys, events, s, c);
  }

  /* ---- One call at a time ---- */

  /** The events of call c when no other call comes between. */
  ghost function Alone<K, V, E>(s: State<K, V, E>, c: nat, call: Call<K, V, E>): seq<Event<V, E>> {
    if Lookup(s.entries, call.key).Some? then [Look(c)] else [Look(c), Return(c, call.inner), Finish(c)]
  }

  lemma Extend<K(!new), V(!new), E(!new)>(cap: nat, keys: seq<K>, events: seq<Event<V, E>>, s: State<K, V, E>,
                                          e: Event<V, E>)
    requires Reaches(cap, keys, events, s) && Enabled(keys, s, e)
    ensures Reaches(cap, keys, events + [e], Apply(cap, keys, s, e))
  {
    hide Apply, Enabled;
    var longer := events + [e];
    assert longer[..|longer| - 1] == events;
    assert Leads(cap, keys, longer, s, Apply(cap, keys, s, e));
  }

  /** An undisturbed call is one step of the sequential wrapper. */
  lemma AloneSteps<K(!new), V(!new), E(!new)>(cap: nat, keys: seq<K>, events: seq<Event<V, E>>, s: State<K, V, E>,
                                              c: nat, call: Call<K, V, E>)
    requires Reaches(cap, keys, events, s) && c < |keys| == |s.phases| && s.phases[c] == Idle && keys[c] == call.key
    ensures var t := State(Step(cap, s.entries, call), s.phases[c := Done(Reply(s.entries, call))]);
      Reaches(cap, keys, events + Alone(s, c, call), t)
  {
    hide Reaches, AfterGet, AfterPut, Lookup;
    Extend(cap, keys, events, s, Look(c));
    if Lookup(s.entries, call.key).None? {
      var asking := Apply(cap, keys, s, Look(c));
      assert asking.entries == s.entries by {
        MissKeeps(s.entries, call.key);
      }
      Extend(cap, keys, events + [Look(c)], asking, Return(c, call.inner));
      var answered := Apply(cap, keys, asking, Return(c, call.inner));
      Extend(cap, keys, events + [Look(c)] + [Return(c, call.inner)], answered, Finish(c));
      assert events + [Look(c)] + [Return(c, call.inner)] + [Finish(c)] == events + Alone(s, c, call);
      assert answered.phases[c := Done(call.inner)] == s.phases[c := Done(call.inner)];
    }
  }

  lemma MissKeeps<K, V>(s: seq<Entry<K, V>>, k: K)
    ensures Lookup(s, k).None? ==> AfterGet(s, k) == s
  {
  }

  /** The sequential run is one of the schedules. */
  lemma {:induction false} SequentialRun<K(!new), V(!new), E(!new)>(
      cap: nat, calls: seq<Call<K, V, E>>, keys: seq<K>, n: nat)
    returns (events: seq<Event<V, E>>, s: State<K, V, E>)
    requires |keys| == |calls| && n <= |calls| && forall i :: 0 <= i < |calls| ==> keys[i] == calls[i].key
    ensures Reaches(cap, keys, events, s) && s.entries == Run(cap, calls, n) && |s.phases| == |keys|
    ensures forall i :: 0 <= i < |keys| ==> s.phases[i] == if i < n then Done(ReplyAt(cap, calls, i)) else Idle
  {
    hide Step, Reply, Alone;
    if n == 0 {
      events, s := [], Init(|keys|);
    } else {
      events, s := SequentialRun(cap, calls, keys, n - 1);
      AloneSteps(cap, keys, events, s, n - 1, calls[n - 1]);
      events := events + Alone(s, n - 1, calls[n - 1]);
      s := State(Step(cap, s.entries, calls[n - 1]), s.phases[n - 1 := Done(Reply(s.entries, calls[n - 1]))]);
    }
  }
}
