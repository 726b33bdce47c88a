/** The abstract cache: entries with distinct keys, most recently used first. */
module Recency {
  import opened Options

  datatype Entry<K, V> = Entry(key: K, value: V)

  ghost predicate HasKey<K, V>(s: seq<Entry<K, V>>, k: K) {
    exists i :: 0 <= i < |s| && s[i].key == k
  }

  ghost predicate DistinctKeys<K, V>(s: seq<Entry<K, V>>) {
    forall i, j :: 0 <= i < j < |s| ==> s[i].key != s[j].key
  }

  lemma NothingDistinct<K, V>()
    ensures DistinctKeys<K, V>([])
  {
  }

  lemma NoKey<K, V>(k: K)
    ensures !HasKey<K, V>([], k)
  {
  }

  lemma KeyAt<K, V>(s: seq<Entry<K, V>>, i: nat)
    requires i < |s|
    ensures HasKey(s, s[i].key)
  {
  }

  lemma PlaceOfKey<K, V>(s: seq<Entry<K, V>>, k: K) returns (i: nat)
    requires HasKey(s, k)
    ensures i < |s| && s[i].key == k
  {
    i :| 0 <= i < |s| && s[i].key == k;
  }

  ghost function Lookup<K, V>(s: seq<Entry<K, V>>, k: K): Option<V> {
    if s == [] then None else if s[0].key == k then Some(s[0].value) else Lookup(s[1..], k)
  }

  /** s without the entry of k. */
  ghost function Without<K, V>(s: seq<Entry<K, V>>, k: K): seq<Entry<K, V>> {
    if s == [] then [] else if s[0].key == k then s[1..] else [s[0]] + Without(s[1..], k)
  }

  ghost function Truncate<K, V>(s: seq<Entry<K, V>>, cap: nat): seq<Entry<K, V>> {
    if |s| > cap then s[..cap] else s
  }

  /** A hit moves the entry to the front. */
  ghost function AfterGet<K, V>(s: seq<Entry<K, V>>, k: K): seq<Entry<K, V>> {
    if Lookup(s, k).Some? then [Entry(k, Lookup(s, k).value)] + Without(s, k) else s
  }

  /** A put comes to the front, and the least recent entries beyond cap are dropped. */
  ghost function AfterPut<K, V>(s: seq<Entry<K, V>>, cap: nat, k: K, v: V): seq<Entry<K, V>> {
    Truncate([Entry(k, v)] + Without(s, k), cap)
  }

  /* ---- Places and keys ---- */

  lemma {:induction false} LookupAt<K, V>(s: seq<Entry<K, V>>, i: nat)
    requires DistinctKeys(s) && i < |s|
    ensures Lookup(s, s[i].key) == Some(s[i].value)
    ensures Without(s, s[i].key) == s[..i] + s[i + 1..]
  {
    if i > 0 {
      assert s[0].key != s[i].key;
      LookupAt(s[1..], i - 1);
      assert s[..i] + s[i + 1..] == [s[0]] + (s[1..][..i - 1] + s[1..][i..]);
    } else {
      assert s[..0] + s[1..] == s[1..];
    }
  }

  lemma {:induction false} LookupNone<K, V>(s: seq<Entry<K, V>>, k: K)
    ensures Lookup(s, k).Some? <==> HasKey(s, k)
    ensures !HasKey(s, k) ==> Without(s, k) == s
  {
    if s == [] {
    } else {
      LookupNone(s[1..], k);
      if s[0].key != k && HasKey(s, k) {
        var i :| 0 <= i < |s| && s[i].key == k;
        assert s[1..][i - 1].key == k;
      }
      if HasKey(s[1..], k) {
        var i :| 0 <= i < |s[1..]| && s[1..][i].key == k;
        assert s[i + 1].key == k;
      }
    }
  }

  lemma {:induction false} LookupHas<K, V>(s: seq<Entry<K, V>>, k: K, v: V)
    requires Lookup(s, k) == Some(v)
    ensures Entry(k, v) in s
  {
    if s[0].key != k {
      LookupHas(s[1..], k, v);
    } else {
      assert s[0] == Entry(k, v);
    }
  }

  lemma ConsMember<K, V>(s: seq<Entry<K, V>>, e: Entry<K, V>)
    requires s != []
    ensures e in s <==> e == s[0] || e in s[1..]
  {
  }

  lemma DistinctTail<K, V>(s: seq<Entry<K, V>>)
    requires s != [] && DistinctKeys(s)
    ensures DistinctKeys(s[1..]) && !HasKey(s[1..], s[0].key)
  {
    forall i, j | 0 <= i < j < |s[1..]|
      ensures s[1..][i].key != s[1..][j].key
    {
      assert s[i + 1].key != s[j + 1].key;
    }
  }

  lemma DistinctCons<K, V>(e: Entry<K, V>, s: seq<Entry<K, V>>)
    requires DistinctKeys(s) && !HasKey(s, e.key)
    ensures DistinctKeys([e] + s)
  {
  }

  lemma MemberHasKey<K, V>(s: seq<Entry<K, V>>, k: K)
    ensures HasKey(s, k) <==> exists e :: e in s && e.key == k
  {
    if HasKey(s, k) {
      var i :| 0 <= i < |s| && s[i].key == k;
      assert s[i] in s;
    }
  }

  /** Without drops nothing but entries of k. */
  lemma {:induction false} WithoutMembers<K, V>(s: seq<Entry<K, V>>, k: K, e: Entry<K, V>)
    requires DistinctKeys(s)
    ensures e in Without(s, k) <==> e in s && e.key != k
  {
    hide HasKey, DistinctKeys;
    if s == [] {
    } else {
      DistinctTail(s);
      ConsMember(s, e);
      MemberHasKey(s[1..], s[0].key);
      WithoutMembers(s[1..], k, e);
      if s[0].key != k {
        ConsMember(Without(s, k), e);
        assert Without(s, k)[1..] == Without(s[1..], k);
      }
    }
  }

  lemma {:induction false} WithoutKeeps<K, V>(s: seq<Entry<K, V>>, k: K)
    requires DistinctKeys(s)
    ensures DistinctKeys(Without(s, k)) && !HasKey(Without(s, k), k)
    ensures |Without(s, k)| == if Lookup(s, k).Some? then |s| - 1 else |s|
  {
    hide HasKey, DistinctKeys;
    if s == [] {
      NoKey<K, V>(k);
    } else {
      DistinctTail(s);
      WithoutKeeps(s[1..], k);
      if s[0].key != k {
        var h := s[0];
        MemberHasKey(s[1..], h.key);
        MemberHasKey(Without(s[1..], k), h.key);
        forall e | e in Without(s[1..], k)
          ensures e.key != h.key
        {
          WithoutMembers(s[1..], k, e);
        }
        DistinctCons(h, Without(s[1..], k));
        NoKeyCons(h, Without(s[1..], k), k);
      }
    }
  }

  lemma NoKeyCons<K, V>(e: Entry<K, V>, s: seq<Entry<K, V>>, k: K)
    requires !HasKey(s, k) && e.key != k
    ensures !HasKey([e] + s, k)
  {
    var t := [e] + s;
    forall i | 0 <= i < |t|
      ensures t[i].key != k
    {
      if i > 0 {
        assert t[i] == s[i - 1];
      }
    }
  }
}
