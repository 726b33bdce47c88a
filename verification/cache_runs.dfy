/** Whole runs of the cache: what every sequence of gets and puts keeps. */
module CacheRuns {
  import opened Options
  import opened Recency
  import opened Lru

  datatype Op<K, V> = Get(key: K) | Put(key: K, value: V)

  datatype State<K, V> = State(entries: seq<Entry<K, V>>, hits: int, misses: int, evictions: int)

  ghost function Step<K, V>(cap: nat, s: State<K, V>, op: Op<K, V>): State<K, V> {
    match op
    case Get(k) =>
      if Lookup(s.entries, k).Some? then s.(entries := AfterGet(s.entries, k), hits := s.hits + 1)
      else s.(misses := s.misses + 1)
    case Put(k, v) =>
      var evicted := if Lookup(s.entries, k).None? && |s.entries| == cap then 1 else 0;
      s.(entries := AfterPut(s.entries, cap, k, v), evictions := s.evictions + evicted)
  }

  ghost function Run<K, V>(cap: nat, ops: seq<Op<K, V>>, n: nat): State<K, V>
    requires n <= |ops|
  {
    if n == 0 then State([], 0, 0, 0) else Step(cap, Run(cap, ops, n - 1), ops[n - 1])
  }

  ghost function StateOf<K(0, !new), V(0)>(cache: Cache<K, V>): State<K, V>
    reads cache, cache.order, cache.order.elements
  {
    State(cache.Entries(), cache.hits, cache.misses, cache.evictions)
  }

  /** One operation; only a get finds anything. */
  method Perform<K(==, 0, !new), V(0)>(cache: Cache<K, V>, op: Op<K, V>) returns (found: Option<V>)
    requires cache.Valid()
    modifies cache.Repr()
    ensures cache.Valid() && fresh(cache.Repr() - old(cache.Repr()))
    ensures StateOf(cache) == Step(cache.cap, old(StateOf(cache)), op)
    ensures found == if op.Get? then Lookup(old(cache.Entries()), op.key) else None
  {
    hide Lookup, AfterGet, AfterPut, Cache.Valid;
    match op {
      case Get(k) =>
        MissKeeps(cache.Entries(), k);
        found := cache.Get(k);
      case Put(k, v) =>
        cache.Put(k, v);
        found := None;
    }
  }

  /** The cache run operation by operation does what the abstract run says, hit by hit. */
  method Replay<K(==, 0, !new), V(0)>(capacity: int, ops: seq<Op<K, V>>)
    returns (cache: Cache<K, V>, found: seq<Option<V>>)
    ensures cache.Valid() && cache.cap == if capacity <= 0 then DEFAULT_CAP else capacity
    ensures StateOf(cache) == Run(cache.cap, ops, |ops|)
    ensures |found| == |ops| && forall i :: 0 <= i < |ops| ==>
      found[i] == if ops[i].Get? then Lookup(Run(cache.cap, ops, i).entries, ops[i].key) else None
  {
    hide Lookup, Step, Cache.Valid;
    cache := new Cache(capacity);
    found := [];
    for i := 0 to |ops|
      invariant cache.Valid() && fresh(cache.Repr())
      invariant StateOf(cache) == Run(cache.cap, ops, i)
      invariant |found| == i && forall j :: 0 <= j < i ==>
        found[j] == if ops[j].Get? then Lookup(Run(cache.cap, ops, j).entries, ops[j].key) else None
    {
      var value := Perform(cache, ops[i]);
      found := found + [value];
    }
  }

  lemma MissKeeps<K, V>(s: seq<Entry<K, V>>, k: K)
    ensures Lookup(s, k).None? ==> AfterGet(s, k) == s
  {
  }

  /* ---- Invariants of every run ---- */

  ghost function Gets<K, V>(ops: seq<Op<K, V>>, n: nat): nat
    requires n <= |ops|
  {
    if n == 0 then 0 else Gets(ops, n - 1) + if ops[n - 1].Get? then 1 else 0
  }

  /** Puts of keys the cache did not hold at the time. */
  ghost function Inserts<K, V>(cap: nat, ops: seq<Op<K, V>>, n: nat): nat
    requires n <= |ops|
  {
    if n == 0 then 0 else
      Inserts(cap, ops, n - 1) + if ops[n - 1].Put? && Lookup(Run(cap, ops, n - 1).entries, ops[n - 1].key).None? then 1 else 0
  }

  lemma TruncateDistinct<K, V>(s: seq<Entry<K, V>>, cap: nat)
    requires DistinctKeys(s)
    ensures DistinctKeys(Truncate(s, cap)) && |Truncate(s, cap)| == if |s| > cap then cap else |s|
  {
  }

  lemma StepKeeps<K, V>(cap: nat, s: State<K, V>, op: Op<K, V>)
    requires DistinctKeys(s.entries) && |s.entries| <= cap && cap >= 1
    ensures var t := Step(cap, s, op);
      && DistinctKeys(t.entries) && |t.entries| <= cap
      && |t.entries| + t.evictions
        == |s.entries| + s.evictions + if op.Put? && Lookup(s.entries, op.key).None? then 1 else 0
  {
    hide DistinctKeys, Lookup, Without, HasKey;
    WithoutKeeps(s.entries, op.key);
    match op {
      case Get(k) =>
        if Lookup(s.entries, k).Some? {
          DistinctCons(Entry(k, Lookup(s.entries, k).value), Without(s.entries, k));
        }
      case Put(k, v) =>
        DistinctCons(Entry(k, v), Without(s.entries, k));
        TruncateDistinct([Entry(k, v)] + Without(s.entries, k), cap);
    }
  }

  /**
    In every run the keys are distinct and no more than the capacity, hits and misses add up
    to the gets, and evictions are the new-key inserts that are no longer there.
  */
  lemma {:induction false} RunKeeps<K, V>(cap: nat, ops: seq<Op<K, V>>, n: nat)
    requires cap >= 1 && n <= |ops|
    ensures DistinctKeys(Run(cap, ops, n).entries) && |Run(cap, ops, n).entries| <= cap
    ensures Run(cap, ops, n).hits + Run(cap, ops, n).misses == Gets(ops, n)
    ensures Run(cap, ops, n).evictions == Inserts(cap, ops, n) - |Run(cap, ops, n).entries|
  {
    hide DistinctKeys, Lookup, AfterGet, AfterPut;
    if n == 0 {
      NothingDistinct<K, V>();
    } else {
      RunKeeps(cap, ops, n - 1);
      StepKeeps(cap, Run(cap, ops, n - 1), ops[n - 1]);
    }
  }

  /** The value last put under a key, if any. */
  ghost function LastPut<K, V>(ops: seq<Op<K, V>>, n: nat, k: K): Option<V>
    requires n <= |ops|
  {
    if n == 0 then None
    else if ops[n - 1].Put? && ops[n - 1].key == k then Some(ops[n - 1].value)
    else LastPut(ops, n - 1, k)
  }

  lemma {:induction false} LookupWithout<K, V>(s: seq<Entry<K, V>>, k: K, x: K)
    requires x != k
    ensures Lookup(Without(s, k), x) == Lookup(s, x)
  {
    if s != [] && s[0].key != k {
      LookupWithout(s[1..], k, x);
    }
  }

  lemma {:induction false} LookupTruncate<K, V>(s: seq<Entry<K, V>>, cap: nat, k: K)
    ensures Lookup(Truncate(s, cap), k).Some? ==> Lookup(Truncate(s, cap), k) == Lookup(s, k)
  {
    if |s| > cap > 0 && s[0].key != k {
      LookupTruncate(s[1..], cap - 1, k);
      assert s[..cap][1..] == s[1..][..cap - 1];
    }
  }

  lemma LookupCons<K, V>(e: Entry<K, V>, s: seq<Entry<K, V>>, k: K)
    ensures Lookup([e] + s, k) == if e.key == k then Some(e.value) else Lookup(s, k)
  {
    assert ([e] + s)[1..] == s;
  }

  /** What a key is found as afterwards: as before, as just put, or not at all. */
  lemma LookupAfter<K, V>(cap: nat, s: State<K, V>, op: Op<K, V>, k: K)
    ensures var found := Lookup(Step(cap, s, op).entries, k);
      found.Some? ==> found == if op.Put? && op.key == k then Some(op.value) else Lookup(s.entries, k)
  {
    hide Lookup, Without, Truncate;
    if op.key != k {
      LookupWithout(s.entries, op.key, k);
    }
    match op {
      case Get(x) =>
        if Lookup(s.entries, x).Some? {
          LookupCons(Entry(x, Lookup(s.entries, x).value), Without(s.entries, x), k);
        }
      case Put(x, v) =>
        LookupCons(Entry(x, v), Without(s.entries, x), k);
        LookupTruncate([Entry(x, v)] + Without(s.entries, x), cap, k);
    }
  }

  /** A hit returns the value last put under its key. */
  lemma {:induction false} HitIsLastPut<K, V>(cap: nat, ops: seq<Op<K, V>>, n: nat, k: K)
    requires n <= |ops|
    ensures Lookup(Run(cap, ops, n).entries, k).Some? ==> Lookup(Run(cap, ops, n).entries, k) == LastPut(ops, n, k)
  {
    hide Step;
    if n == 0 {
    } else {
      HitIsLastPut(cap, ops, n - 1, k);
      LookupAfter(cap, Run(cap, ops, n - 1), ops[n - 1], k);
    }
  }
}
