/** A memoising wrapper over the cache: transparency, and what a larger capacity can change. */
module Memo {
  import Orders
  import opened Recency
  import opened Lru

  datatype Result<V, E> = Ok(value: V) | Err(error: E)

  /** A call: its key, and what the inner function would return if asked now. */
  datatype Call<K, V, E> = Call(key: K, inner: Result<V, E>)

  ghost function Step<K, V, E>(cap: nat, s: seq<Entry<K, V>>, c: Call<K, V, E>): seq<Entry<K, V>> {
    if Lookup(s, c.key).Some? then AfterGet(s, c.key)
    else if c.inner.Ok? then AfterPut(s, cap, c.key, c.inner.value)
    else s
  }

  ghost function Reply<K, V, E>(s: seq<Entry<K, V>>, c: Call<K, V, E>): Result<V, E> {
    if Lookup(s, c.key).Some? then Ok(Lookup(s, c.key).value) else c.inner
  }

  /** The cache after the first n calls. */
  ghost function Run<K, V, E>(cap: nat, calls: seq<Call<K, V, E>>, n: nat): seq<Entry<K, V>>
    requires n <= |calls|
  {
    if n == 0 then [] else Step(cap, Run(cap, calls, n - 1), calls[n - 1])
  }

  ghost predicate Hits<K, V, E>(cap: nat, calls: seq<Call<K, V, E>>, i: nat)
    requires i < |calls|
  {
    Lookup(Run(cap, calls, i), calls[i].key).Some?
  }

  ghost function ReplyAt<K, V, E>(cap: nat, calls: seq<Call<K, V, E>>, i: nat): Result<V, E>
    requires i < |calls|
  {
    Reply(Run(cap, calls, i), calls[i])
  }

  /** The wrapper's method: a hit answers at once, a miss asks the inner function and keeps a success. */
  method Ask<K(==, 0, !new), V(0), E>(cache: Cache<K, V>, key: K, inner: () -> Result<V, E>)
    returns (reply: Result<V, E>)
    requires cache.Valid()
    modifies cache.Repr()
    ensures cache.Valid() && fresh(cache.Repr() - old(cache.Repr()))
    ensures cache.Entries() == Step(cache.cap, old(cache.Entries()), Call(key, inner()))
    ensures reply == Reply(old(cache.Entries()), Call(key, inner()))
  {
    hide Lookup, Cache.Valid, Without, Truncate;
    ghost var was := cache.Entries();
    var found := cache.Get(key);
    if found.Some? {
      return Ok(found.value);
    }
    reply := inner();
    if reply.Err? {
      return;
    }
    cache.Put(key, reply.value);
  }

  /* ---- Transparency ---- */

  /** The inner function answered a call of k with v among the first n calls. */
  ghost predicate Answered<K, V, E>(calls: seq<Call<K, V, E>>, n: nat, k: K, v: V)
    requires n <= |calls|
  {
    exists j :: 0 <= j < n && calls[j] == Call(k, Ok(v))
  }

  lemma AfterGetMembers<K, V>(s: seq<Entry<K, V>>, k: K, e: Entry<K, V>)
    requires DistinctKeys(s) && e in AfterGet(s, k)
    ensures e in s
  {
    hide DistinctKeys;
    if Lookup(s, k).Some? {
      LookupHas(s, k, Lookup(s, k).value);
      WithoutMembers(s, k, e);
    }
  }

  lemma AfterPutMembers<K, V>(s: seq<Entry<K, V>>, cap: nat, k: K, v: V, e: Entry<K, V>)
    requires DistinctKeys(s) && e in AfterPut(s, cap, k, v)
    ensures e in s || e == Entry(k, v)
  {
    hide DistinctKeys;
    WithoutMembers(s, k, e);
  }

  lemma PrefixDistinct<K, V>(s: seq<Entry<K, V>>, cap: nat)
    requires DistinctKeys(s)
    ensures DistinctKeys(Truncate(s, cap))
  {
  }

  lemma StepDistinct<K, V, E>(cap: nat, s: seq<Entry<K, V>>, c: Call<K, V, E>)
    requires DistinctKeys(s)
    ensures DistinctKeys(Step(cap, s, c))
  {
    hide DistinctKeys, Lookup, Without, HasKey;
    WithoutKeeps(s, c.key);
    if Lookup(s, c.key).Some? {
      DistinctCons(Entry(c.key, Lookup(s, c.key).value), Without(s, c.key));
    } else if c.inner.Ok? {
      DistinctCons(Entry(c.key, c.inner.value), Without(s, c.key));
      PrefixDistinct([Entry(c.key, c.inner.value)] + Without(s, c.key), cap);
    }
  }

  /** Every entry was once answered by the inner function: failures are never kept. */
  lemma {:induction false} EntriesWereAnswered<K, V, E>(cap: nat, calls: seq<Call<K, V, E>>, n: nat, e: Entry<K, V>)
    requires n <= |calls|
    ensures DistinctKeys(Run(cap, calls, n))
    ensures e in Run(cap, calls, n) ==> Answered(calls, n, e.key, e.value)
  {
    hide DistinctKeys, AfterGet, AfterPut, Lookup;
    if n == 0 {
      NothingDistinct<K, V>();
    } else {
      var s, c := Run(cap, calls, n - 1), calls[n - 1];
      EntriesWereAnswered(cap, calls, n - 1, e);
      StepDistinct(cap, s, c);
      if e in Run(cap, calls, n) {
        if Lookup(s, c.key).Some? {
          AfterGetMembers(s, c.key, e);
        } else if c.inner.Ok? {
          AfterPutMembers(s, cap, c.key, c.inner.value, e);
        }
      }
    }
  }

  /** Whatever the inner function does, a reply is its own answer now or its success for that key earlier. */
  lemma RepliesAreAnswers<K, V, E>(cap: nat, calls: seq<Call<K, V, E>>, i: nat)
    requires i < |calls|
    ensures ReplyAt(cap, calls, i) == calls[i].inner
      || (ReplyAt(cap, calls, i).Ok? && Answered(calls, i, calls[i].key, ReplyAt(cap, calls, i).value))
  {
    hide Run, Answered, DistinctKeys;
    var s, k := Run(cap, calls, i), calls[i].key;
    if Lookup(s, k).Some? {
      LookupHas(s, k, Lookup(s, k).value);
      EntriesWereAnswered(cap, calls, i, Entry(k, Lookup(s, k).value));
    }
  }

  /** The wrapper is transparent when the inner function answers calls of one key alike. */
  lemma Transparent<K, V, E>(cap: nat, calls: seq<Call<K, V, E>>, i: nat)
    requires i < |calls|
    requires forall j, k :: 0 <= j < |calls| && 0 <= k < |calls| && calls[j].key == calls[k].key ==>
      calls[j].inner == calls[k].inner
    ensures ReplyAt(cap, calls, i) == calls[i].inner
  {
    hide ReplyAt;
    RepliesAreAnswers(cap, calls, i);
  }

  /* ---- The keys a cache holds ---- */

  ghost function Keys<K, V>(s: seq<Entry<K, V>>): (ks: seq<K>)
    ensures |ks| == |s| && forall i :: 0 <= i < |s| ==> ks[i] == s[i].key
  {
    seq(|s|, i requires 0 <= i < |s| => s[i].key)
  }

  ghost function Drop<K>(ks: seq<K>, k: K): seq<K> {
    if ks == [] then [] else if ks[0] == k then ks[1..] else [ks[0]] + Drop(ks[1..], k)
  }

  ghost function Take<K>(ks: seq<K>, cap: nat): seq<K> {
    if |ks| > cap then ks[..cap] else ks
  }

  ghost function KeyStep<K>(cap: nat, ks: seq<K>, k: K, ok: bool): seq<K> {
    if k in ks then [k] + Drop(ks, k) else if ok then Take([k] + ks, cap) else ks
  }

  lemma {:induction false} KeysWithout<K, V>(s: seq<Entry<K, V>>, k: K)
    ensures Keys(Without(s, k)) == Drop(Keys(s), k)
  {
    if s == [] {
    } else {
      assert Keys(s)[1..] == Keys(s[1..]);
      if s[0].key != k {
        KeysWithout(s[1..], k);
      }
    }
  }

  lemma KnownKey<K, V>(s: seq<Entry<K, V>>, k: K)
    ensures Lookup(s, k).Some? <==> k in Keys(s)
    ensures k !in Keys(s) ==> Without(s, k) == s
  {
    LookupNone(s, k);
    if HasKey(s, k) {
      var i :| 0 <= i < |s| && s[i].key == k;
      assert Keys(s)[i] == k;
    }
  }

  /** The keys alone determine which keys are held next. */
  lemma KeysStep<K, V, E>(cap: nat, s: seq<Entry<K, V>>, c: Call<K, V, E>)
    ensures Keys(Step(cap, s, c)) == KeyStep(cap, Keys(s), c.key, c.inner.Ok?)
  {
    hide Lookup, Without, Drop;
    KnownKey(s, c.key);
    KeysWithout(s, c.key);
    if Lookup(s, c.key).Some? {
      assert Keys(AfterGet(s, c.key)) == [c.key] + Keys(Without(s, c.key));
    } else if c.inner.Ok? {
      var all := [Entry(c.key, c.inner.value)] + s;
      assert Keys(all) == [c.key] + Keys(s);
      assert Keys(Truncate(all, cap)) == Take(Keys(all), cap);
    }
  }

  lemma {:induction false} DropAt<K>(ks: seq<K>, i: nat)
    requires Orders.Distinct(ks) && i < |ks|
    ensures Drop(ks, ks[i]) == ks[..i] + ks[i + 1..]
  {
    if i > 0 {
      assert ks[0] != ks[i];
      DropAt(ks[1..], i - 1);
      assert ks[..i] + ks[i + 1..] == [ks[0]] + (ks[1..][..i - 1] + ks[1..][i..]);
    } else {
      assert ks[..0] + ks[1..] == ks[1..];
    }
  }

  lemma {:induction false} DropAbsent<K>(ks: seq<K>, k: K)
    requires k !in ks
    ensures Drop(ks, k) == ks
  {
    if ks == [] {
    } else {
      DropAbsent(ks[1..], k);
    }
  }

  lemma DropKeeps<K>(ks: seq<K>, k: K)
    requires Orders.Distinct(ks)
    ensures Orders.Distinct(Drop(ks, k)) && k !in Drop(ks, k)
    ensures |Drop(ks, k)| == if k in ks then |ks| - 1 else |ks|
    ensures Orders.Distinct([k] + Drop(ks, k))
  {
    if k in ks {
      var i :| 0 <= i < |ks| && ks[i] == k;
      DropAt(ks, i);
    } else {
      DropAbsent(ks, k);
    }
  }

  /** The distinct keys of the first n calls, most recent first. */
  ghost function Recent<K, V, E>(calls: seq<Call<K, V, E>>, n: nat): seq<K>
    requires n <= |calls|
  {
    if n == 0 then [] else [calls[n - 1].key] + Drop(Recent(calls, n - 1), calls[n - 1].key)
  }

  lemma {:induction false} RecentDistinct<K, V, E>(calls: seq<Call<K, V, E>>, n: nat)
    requires n <= |calls|
    ensures Orders.Distinct(Recent(calls, n))
  {
    if n == 0 {
    } else {
      RecentDistinct(calls, n - 1);
      DropKeeps(Recent(calls, n - 1), calls[n - 1].key);
    }
  }

  lemma TakeHeld<K>(ks: seq<K>, k: K, cap: nat)
    requires Orders.Distinct(ks) && k in Take(ks, cap)
    ensures Take([k] + Drop(ks, k), cap) == [k] + Drop(Take(ks, cap), k)
  {
    hide Drop;
    var held := Take(ks, cap);
    var i :| 0 <= i < |held| && held[i] == k;
    DropAt(ks, i);
    DropAt(held, i);
    if |ks| > cap {
      assert ks[..i] + ks[i + 1..] == (held[..i] + held[i + 1..]) + ks[cap..];
    }
  }

  lemma TakeUnheld<K>(ks: seq<K>, k: K, cap: nat)
    requires Orders.Distinct(ks) && k !in Take(ks, cap) && cap >= 1
    ensures Take([k] + Drop(ks, k), cap) == Take([k] + Take(ks, cap), cap)
  {
    hide Drop, Orders.Distinct;
    if k in ks {
      var i :| 0 <= i < |ks| && ks[i] == k;
      forall j | 0 <= j < |Take(ks, cap)|
        ensures ks[j] != k
      {
        assert Take(ks, cap)[j] == ks[j];
      }
      DropAt(ks, i);
      assert (ks[..i] + ks[i + 1..])[..cap - 1] == ks[..cap - 1];
    } else {
      DropAbsent(ks, k);
    }
  }

  lemma TakeDrop<K>(ks: seq<K>, k: K, cap: nat)
    requires Orders.Distinct(ks) && cap >= 1
    ensures KeyStep(cap, Take(ks, cap), k, true) == Take([k] + Drop(ks, k), cap)
  {
    hide Take, Drop, Orders.Distinct;
    if k in Take(ks, cap) {
      TakeHeld(ks, k, cap);
    } else {
      TakeUnheld(ks, k, cap);
    }
  }

  /** With an inner function that never fails the cache holds the cap most recent keys, in order. */
  lemma {:induction false} HoldsMostRecent<K, V, E>(cap: nat, calls: seq<Call<K, V, E>>, n: nat)
    requires cap >= 1 && n <= |calls| && forall j :: 0 <= j < n ==> calls[j].inner.Ok?
    ensures Keys(Run(cap, calls, n)) == Take(Recent(calls, n), cap)
  {
    hide Step, KeyStep, Drop;
    if n == 0 {
    } else {
      HoldsMostRecent(cap, calls, n - 1);
      KeysStep(cap, Run(cap, calls, n - 1), calls[n - 1]);
      RecentDistinct(calls, n - 1);
      TakeDrop(Recent(calls, n - 1), calls[n - 1].key, cap);
    }
  }

  /* ---- Raising the capacity ---- */

  /** a comes from b by leaving elements out. */
  ghost predicate Sub<K>(a: seq<K>, b: seq<K>) {
    a == [] || (b != [] && if a[0] == b[0] then Sub(a[1..], b[1..]) else Sub(a, b[1..]))
  }

  lemma {:induction false} SubMember<K>(a: seq<K>, b: seq<K>, k: K)
    requires Sub(a, b) && k in a
    ensures k in b
    decreases |b|
  {
    if a[0] == b[0] {
      if k != a[0] {
        SubMember(a[1..], b[1..], k);
      }
    } else {
      SubMember(a, b[1..], k);
    }
  }

  lemma {:induction false} SubTail<K>(a: seq<K>, b: seq<K>)
    requires a != [] && Sub(a, b)
    ensures Sub(a[1..], b)
    decreases |b|, 0
  {
    if a[0] == b[0] {
      SubCons(a[1..], b[1..], b[0]);
      assert b == [b[0]] + b[1..];
    } else {
      SubTail(a, b[1..]);
      SubCons(a[1..], b[1..], b[0]);
      assert b == [b[0]] + b[1..];
    }
  }

  lemma {:induction false} SubCons<K>(a: seq<K>, b: seq<K>, x: K)
    requires Sub(a, b)
    ensures Sub(a, [x] + b)
    decreases |b|, 1
  {
    assert ([x] + b)[1..] == b;
    if a != [] && a[0] == x {
      SubTail(a, b);
    }
  }

  lemma SubBoth<K>(a: seq<K>, b: seq<K>, x: K)
    requires Sub(a, b)
    ensures Sub([x] + a, [x] + b)
  {
    assert ([x] + a)[1..] == a && ([x] + b)[1..] == b;
  }

  lemma DistinctRest<K>(ks: seq<K>)
    requires Orders.Distinct(ks) && ks != []
    ensures Orders.Distinct(ks[1..]) && ks[0] !in ks[1..]
  {
  }

  /** Dropping the same key from both. */
  lemma {:induction false} SubDrop<K>(a: seq<K>, b: seq<K>, k: K)
    requires Sub(a, b) && Orders.Distinct(a) && Orders.Distinct(b)
    ensures Sub(Drop(a, k), Drop(b, k))
    decreases |b|
  {
    hide Orders.Distinct;
    if a != [] && b != [] {
      DistinctRest(b);
      if a[0] == b[0] {
        DistinctRest(a);
        if b[0] != k {
          SubDrop(a[1..], b[1..], k);
          SubBoth(Drop(a[1..], k), Drop(b[1..], k), b[0]);
        }
      } else if b[0] == k {
        SubMissing(a, b[1..], k);
        DropAbsent(a, k);
      } else {
        SubDrop(a, b[1..], k);
        SubCons(Drop(a, k), Drop(b[1..], k), b[0]);
      }
    }
  }

  lemma SubMissing<K>(a: seq<K>, b: seq<K>, k: K)
    requires Sub(a, b) && k !in b
    ensures k !in a
  {
    if k in a {
      SubMember(a, b, k);
    }
  }

  lemma {:induction false} SubPrefix<K>(a: seq<K>, b: seq<K>, n: nat)
    requires Sub(a, b) && n <= |a|
    ensures Sub(a[..n], b)
    decreases |b|
  {
    if n == 0 {
    } else {
      if a[0] == b[0] {
        SubPrefix(a[1..], b[1..], n - 1);
        assert a[..n][1..] == a[1..][..n - 1];
      } else {
        SubPrefix(a, b[1..], n);
      }
    }
  }

  /** Dropping the last of both. */
  lemma {:induction false} SubInit<K>(a: seq<K>, b: seq<K>)
    requires Sub(a, b) && a != [] && b != []
    ensures Sub(a[..|a| - 1], b[..|b| - 1])
    decreases |b|
  {
    var a', b' := a[..|a| - 1], b[..|b| - 1];
    if |a| > 1 {
      if a[0] == b[0] {
        SubInit(a[1..], b[1..]);
        assert a[1..][..|a| - 2] == a'[1..] && b[1..][..|b| - 2] == b'[1..];
      } else {
        SubInit(a, b[1..]);
        assert b[1..][..|b| - 2] == b'[1..];
      }
    }
  }

  /** The smaller cache's keys are among the larger's, in the same order, and it is no emptier than it must be. */
  ghost predicate Within<K>(small: seq<K>, large: seq<K>, capS: nat, capL: nat) {
    && Sub(small, large) && Orders.Distinct(small) && Orders.Distinct(large) && |small| <= capS && |large| <= capL
    && (|small| >= capS || |small| >= |large|)
  }

  lemma NothingWithin<K>(capS: nat, capL: nat)
    ensures Within<K>([], [], capS, capL)
  {
  }

  lemma WithinStep<K>(small: seq<K>, large: seq<K>, capS: nat, capL: nat, k: K, ok: bool)
    requires Within(small, large, capS, capL) && 1 <= capS <= capL
    ensures Within(KeyStep(capS, small, k, ok), KeyStep(capL, large, k, ok), capS, capL)
  {
    hide Sub, Orders.Distinct;
    DropKeeps(small, k);
    DropKeeps(large, k);
    if k in large {
      SubDrop(small, large, k);
      SubBoth(Drop(small, k), Drop(large, k), k);
      if k !in small {
        DropAbsent(small, k);
        SubCons(small, Drop(large, k), k);
        TakePrefix([k] + small, [k] + Drop(large, k), capS);
        MovedFront(small, large, k);
      }
    } else {
      SubMissing(small, large, k);
      DropAbsent(small, k);
      DropAbsent(large, k);
      SubBoth(small, large, k);
      TakeBoth([k] + small, [k] + large, capS, capL);
    }
  }

  lemma TakePrefix<K>(a: seq<K>, b: seq<K>, cap: nat)
    requires Sub(a, b) && Orders.Distinct(a)
    ensures Sub(Take(a, cap), b) && Orders.Distinct(Take(a, cap))
  {
    SubPrefix(a, b, if |a| > cap then cap else |a|);
    assert a[..|a|] == a;
  }

  lemma TakeBoth<K>(a: seq<K>, b: seq<K>, capS: nat, capL: nat)
    requires Sub(a, b) && Orders.Distinct(a) && Orders.Distinct(b) && 1 <= capS <= capL
    requires 1 <= |a| <= capS + 1 && 1 <= |b| <= capL + 1 && (|a| >= capS + 1 || |a| >= |b|)
    ensures Sub(Take(a, capS), Take(b, capL)) && Orders.Distinct(Take(a, capS)) && Orders.Distinct(Take(b, capL))
  {
    TakePrefix(a, b, capS);
    if |b| > capL {
      SubInit(a, b);
    }
  }

  /** A key only the larger cache holds, brought to its front, leaves the smaller's keys in order. */
  lemma MovedFront<K>(small: seq<K>, large: seq<K>, k: K)
    requires Sub(small, large) && Orders.Distinct(small) && Orders.Distinct(large) && k in large && k !in small
    ensures Sub(small, [k] + Drop(large, k))
  {
    hide Sub, Orders.Distinct;
    SubDrop(small, large, k);
    DropAbsent(small, k);
    SubCons(small, Drop(large, k), k);
  }

  lemma {:induction false} RunsWithin<K, V, E>(capS: nat, capL: nat, calls: seq<Call<K, V, E>>, n: nat)
    requires 1 <= capS <= capL && n <= |calls|
    ensures Within(Keys(Run(capS, calls, n)), Keys(Run(capL, calls, n)), capS, capL)
  {
    hide Step, KeyStep, Within;
    if n == 0 {
      NothingWithin<K>(capS, capL);
    } else {
      RunsWithin(capS, capL, calls, n - 1);
      KeysStep(capS, Run(capS, calls, n - 1), calls[n - 1]);
      KeysStep(capL, Run(capL, calls, n - 1), calls[n - 1]);
      WithinStep(Keys(Run(capS, calls, n - 1)), Keys(Run(capL, calls, n - 1)), capS, capL, calls[n - 1].key,
                 calls[n - 1].inner.Ok?);
    }
  }

  /** Raising the capacity never turns a hit into a miss, even with an inner function that fails now and then. */
  lemma MoreCapacityKeepsHits<K, V, E>(capS: nat, capL: nat, calls: seq<Call<K, V, E>>, i: nat)
    requires 1 <= capS <= capL && i < |calls|
    ensures Hits(capS, calls, i) ==> Hits(capL, calls, i)
  {
    hide Run, Lookup;
    RunsWithin(capS, capL, calls, i);
    KnownKey(Run(capS, calls, i), calls[i].key);
    KnownKey(Run(capL, calls, i), calls[i].key);
    if Hits(capS, calls, i) {
      SubMember(Keys(Run(capS, calls, i)), Keys(Run(capL, calls, i)), calls[i].key);
    }
  }
}
