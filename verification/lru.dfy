/** The in-memory cache: a map of list elements over a doubly linked list, most recently used first. */
module Lru {
  import opened Options
  import opened LinkedList
  import opened Recency

  const DEFAULT_CAP: nat := 1024

  datatype CacheStats = CacheStats(hits: int, misses: int, evictions: int, size: int)

  /** Map and list are in bijection: every element is found under its own key, and only listed keys are found. */
  ghost predicate Indexed<K(!new), V>(byKey: map<K, Element<Entry<K, V>>>, elements: seq<Element<Entry<K, V>>>,
                                      entries: seq<Entry<K, V>>) {
    && |elements| == |entries| && DistinctKeys(entries)
    && (forall i :: 0 <= i < |entries| ==> Finds(byKey, entries[i].key, elements[i]))
    && forall k :: k in byKey ==> HasKey(entries, k)
  }

  ghost predicate Finds<K, V>(byKey: map<K, Element<Entry<K, V>>>, k: K, el: Element<Entry<K, V>>) {
    k in byKey && byKey[k] == el
  }

  /** Where a known key's element is. */
  lemma PlaceOf<K(!new), V>(byKey: map<K, Element<Entry<K, V>>>, elements: seq<Element<Entry<K, V>>>,
                            entries: seq<Entry<K, V>>, k: K)
    returns (i: nat)
    requires Indexed(byKey, elements, entries) && k in byKey
    ensures i < |elements| == |entries| && entries[i].key == k && elements[i] == byKey[k]
    ensures Lookup(entries, k) == Some(entries[i].value) && Without(entries, k) == entries[..i] + entries[i + 1..]
  {
    i :| 0 <= i < |entries| && entries[i].key == k;
    assert Finds(byKey, entries[i].key, elements[i]);
    LookupAt(entries, i);
  }

  lemma Unknown<K(!new), V>(byKey: map<K, Element<Entry<K, V>>>, elements: seq<Element<Entry<K, V>>>,
                            entries: seq<Entry<K, V>>, k: K)
    requires Indexed(byKey, elements, entries) && k !in byKey
    ensures Lookup(entries, k) == None && Without(entries, k) == entries && !HasKey(entries, k)
  {
    hide DistinctKeys, Lookup, Without;
    forall i | 0 <= i < |entries|
      ensures entries[i].key != k
    {
      assert Finds(byKey, entries[i].key, elements[i]);
    }
    LookupNone(entries, k);
  }

  /** Bringing place i to the front, with a new value for the same key, keeps the bijection. */
  lemma IndexedMove<K(!new), V>(byKey: map<K, Element<Entry<K, V>>>, elements: seq<Element<Entry<K, V>>>,
                                entries: seq<Entry<K, V>>, i: nat, v: V)
    requires Indexed(byKey, elements, entries) && i < |elements|
    ensures Indexed(byKey, [elements[i]] + (elements[..i] + elements[i + 1..]),
                    [Entry(entries[i].key, v)] + (entries[..i] + entries[i + 1..]))
  {
    hide HasKey, Finds;
    var els := [elements[i]] + (elements[..i] + elements[i + 1..]);
    var ens := [Entry(entries[i].key, v)] + (entries[..i] + entries[i + 1..]);
    forall j | 0 <= j < |ens|
      ensures Finds(byKey, ens[j].key, els[j])
    {
      var k := if j == 0 then i else if j <= i then j - 1 else j;
      assert ens[j].key == entries[k].key && els[j] == elements[k];
    }
    forall k | k in byKey
      ensures HasKey(ens, k)
    {
      var j := PlaceOfKey(entries, k);
      KeyAt(ens, if j == i then 0 else if j < i then j + 1 else j);
    }
  }

  lemma IndexedInsert<K(!new), V>(byKey: map<K, Element<Entry<K, V>>>, elements: seq<Element<Entry<K, V>>>,
                                  entries: seq<Entry<K, V>>, k: K, v: V, el: Element<Entry<K, V>>)
    requires Indexed(byKey, elements, entries) && k !in byKey
    ensures Indexed(byKey[k := el], [el] + elements, [Entry(k, v)] + entries)
  {
    hide HasKey;
    Unknown(byKey, elements, entries, k);
    DistinctCons(Entry(k, v), entries);
    var els, ens := [el] + elements, [Entry(k, v)] + entries;
    forall j | 0 <= j < |ens|
      ensures Finds(byKey[k := el], ens[j].key, els[j])
    {
      if j > 0 {
        assert Finds(byKey, entries[j - 1].key, elements[j - 1]);
        assert ens[j].key != ens[0].key;
      }
    }
    forall x | x in byKey[k := el]
      ensures HasKey(ens, x)
    {
      if x == k {
        KeyAt(ens, 0);
      } else {
        var j := PlaceOfKey(entries, x);
        KeyAt(ens, j + 1);
      }
    }
  }

  lemma IndexedDropLast<K(!new), V>(byKey: map<K, Element<Entry<K, V>>>, elements: seq<Element<Entry<K, V>>>,
                                    entries: seq<Entry<K, V>>)
    requires Indexed(byKey, elements, entries) && entries != []
    ensures Indexed(byKey - {entries[|entries| - 1].key}, elements[..|elements| - 1], entries[..|entries| - 1])
  {
    var n := |entries| - 1;
    var gone := entries[n].key;
    forall j | 0 <= j < n
      ensures Finds(byKey - {gone}, entries[j].key, elements[j])
    {
      assert Finds(byKey, entries[j].key, elements[j]);
    }
    forall x | x in byKey - {gone}
      ensures HasKey(entries[..n], x)
    {
      var j :| 0 <= j < |entries| && entries[j].key == x;
      assert entries[..n][j].key == x;
    }
  }

  /** A put of a new key is cut back by at most its last entry. */
  lemma NewKeyPut<K, V>(was: seq<Entry<K, V>>, cap: nat, k: K, v: V)
    requires Without(was, k) == was && |was| <= cap
    ensures AfterPut(was, cap, k, v) == if |was| == cap then ([Entry(k, v)] + was)[..cap] else [Entry(k, v)] + was
  {
  }

  class Cache<K(==, 0, !new), V(0)> {
    const cap: nat
    const order: List<Entry<K, V>>
    var byKey: map<K, Element<Entry<K, V>>>
    var hits: int
    var misses: int
    var evictions: int

    /** The entries in the order of the list. */
    ghost function Entries(): (s: seq<Entry<K, V>>)
      reads order, order.elements
      ensures |s| == |order.elements| && forall i :: 0 <= i < |s| ==> s[i] == order.elements[i].value
    {
      seq(|order.elements|, i requires 0 <= i < |order.elements| reads order, order.elements => order.elements[i].value)
    }

    /** The objects the cache is made of. */
    ghost function Repr(): set<object>
      reads order
    {
      {this, order, order.root} + set e | e in order.elements
    }

    ghost predicate Valid()
      reads `byKey, order, order.root, order.elements
    {
      cap >= 1 && order.Valid() && |order.elements| <= cap && Indexed(byKey, order.elements, Entries())
    }

    constructor (capacity: int)
      ensures Valid() && Entries() == [] && hits == misses == evictions == 0
      ensures cap == if capacity <= 0 then 1024 else capacity
      ensures fresh(Repr())
    {
      cap := if capacity <= 0 then DEFAULT_CAP else capacity;
      order := new List();
      byKey, hits, misses, evictions := map[], 0, 0, 0;
    }

    /** Moves one element to the front of the list, and its entry with it. */
    method ToFront(el: Element<Entry<K, V>>, ghost i: nat)
      requires order.Valid() && i < |order.elements| && order.elements[i] == el
      modifies order, order.root, order.elements
      ensures order.Valid() && order.elements == [el] + old(order.elements[..i] + order.elements[i + 1..])
      ensures Entries() == [old(Entries())[i]] + (old(Entries())[..i] + old(Entries())[i + 1..])
    {
      hide List.Valid;
      ghost var was, els := Entries(), order.elements;
      ghost var moved := [was[i]] + (was[..i] + was[i + 1..]);
      order.MoveToFront(el, i);
      forall j | 0 <= j < |els|
        ensures Entries()[j] == moved[j]
      {
        var k := if j == 0 then i else if j <= i then j - 1 else j;
        assert order.elements[j] == els[k] && els[k] in els && moved[j] == was[k];
      }
    }

    /** A hit returns the stored value and refreshes its recency. */
    method Get(key: K) returns (value: Option<V>)
      requires Valid()
      modifies Repr()
      ensures Valid() && Repr() <= old(Repr())
      ensures value == Lookup(old(Entries()), key) && Entries() == AfterGet(old(Entries()), key)
      ensures hits == old(hits) + (if value.Some? then 1 else 0)
      ensures misses == old(misses) + (if value.None? then 1 else 0)
      ensures evictions == old(evictions)
    {
      hide Indexed, Lookup, Without, List.Valid;
      ghost var was := Entries();
      if key !in byKey {
        Unknown(byKey, order.elements, was, key);
        misses := misses + 1;
        return None;
      }
      ghost var i := PlaceOf(byKey, order.elements, was, key);
      var el := byKey[key];
      IndexedMove(byKey, order.elements, was, i, was[i].value);
      ToFront(el, i);
      assert el.value == Entries()[0];
      hits := hits + 1;
      value := Some(el.value.value);
    }

    /** A put comes to the front; a new key may push the least recent entry out. */
    method Put(key: K, v: V)
      requires Valid()
      modifies Repr()
      ensures Valid() && fresh(Repr() - old(Repr()))
      ensures Entries() == AfterPut(old(Entries()), cap, key, v)
      ensures hits == old(hits) && misses == old(misses)
      ensures evictions == old(evictions) + if Lookup(old(Entries()), key).None? && |old(Entries())| == cap then 1 else 0
    {
      hide Indexed, Lookup, Without, List.Valid;
      if key in byKey {
        Refresh(key, v);
      } else {
        Insert(key, v);
      }
    }

    method Refresh(key: K, v: V)
      requires Valid() && key in byKey
      modifies Repr()
      ensures Valid() && Repr() <= old(Repr())
      ensures Entries() == AfterPut(old(Entries()), cap, key, v) && Lookup(old(Entries()), key).Some?
      ensures hits == old(hits) && misses == old(misses) && evictions == old(evictions)
    {
      hide Indexed, Lookup, Without, List.Valid;
      ghost var was := Entries();
      ghost var i := PlaceOf(byKey, order.elements, was, key);
      var el := byKey[key];
      IndexedMove(byKey, order.elements, was, i, v);
      order.SetValue(el, Entry(key, v), i);
      assert Entries() == was[i := Entry(key, v)];
      ToFront(el, i);
      assert was[i := Entry(key, v)][..i] == was[..i] && was[i := Entry(key, v)][i + 1..] == was[i + 1..];
    }

    /** Links a new element in at the front of the list, and its entry with it. */
    method PushFront(el: Element<Entry<K, V>>)
      requires order.Valid() && el != order.root && el !in order.elements
      modifies order, order.root, order.elements, el
      ensures order.Valid() && order.elements == [el] + old(order.elements)
      ensures Entries() == [old(el.value)] + old(Entries())
    {
      hide List.Valid;
      ghost var was, els, e := Entries(), order.elements, el.value;
      order.InsertFront(el);
      forall j | 0 <= j <= |els|
        ensures Entries()[j] == ([e] + was)[j]
      {
        if j > 0 {
          assert order.elements[j] == els[j - 1] && els[j - 1] in els;
        }
      }
    }

    /** Brings in a new key, whatever the capacity. */
    method LinkNew(key: K, v: V)
      requires Valid() && key !in byKey
      modifies Repr()
      ensures order.Valid() && Indexed(byKey, order.elements, Entries()) && fresh(Repr() - old(Repr()))
      ensures Entries() == [Entry(key, v)] + old(Entries())
      ensures hits == old(hits) && misses == old(misses) && evictions == old(evictions)
    {
      hide Indexed, List.Valid;
      var el := new Element(Entry(key, v));
      IndexedInsert(byKey, order.elements, Entries(), key, v, el);
      PushFront(el);
      byKey := byKey[key := el];
    }

    method Insert(key: K, v: V)
      requires Valid() && key !in byKey
      modifies Repr()
      ensures Valid() && fresh(Repr() - old(Repr()))
      ensures Entries() == AfterPut(old(Entries()), cap, key, v) && Lookup(old(Entries()), key).None?
      ensures hits == old(hits) && misses == old(misses)
      ensures evictions == old(evictions) + if |old(Entries())| == cap then 1 else 0
    {
      hide Indexed, Lookup, Without, AfterPut, List.Valid;
      Unknown(byKey, order.elements, Entries(), key);
      NewKeyPut(Entries(), cap, key, v);
      LinkNew(key, v);
      var size := order.Len();
      if size > cap {
        EvictLast();
      }
    }

    /** Drops the least recent entry. */
    method EvictLast()
      requires order.Valid() && order.elements != [] && Indexed(byKey, order.elements, Entries())
      modifies Repr()
      ensures order.Valid() && Indexed(byKey, order.elements, Entries())
      ensures order.elements == old(order.elements[..|order.elements| - 1])
      ensures Entries() == old(Entries()[..|Entries()| - 1])
      ensures hits == old(hits) && misses == old(misses) && evictions == old(evictions) + 1
    {
      hide Indexed, List.Valid;
      ghost var was := Entries();
      var oldest := order.Back();
      var key := oldest.value.key;
      IndexedDropLast(byKey, order.elements, was);
      ghost var els := order.elements;
      order.Remove(oldest, |order.elements| - 1);
      assert order.elements == els[..|els| - 1];
      byKey := byKey - {key};
      evictions := evictions + 1;
      assert Entries() == was[..|was| - 1];
    }

    method Stats() returns (s: CacheStats)
      requires Valid()
      ensures s == CacheStats(hits, misses, evictions, |Entries()|)
    {
      var size := order.Len();
      s := CacheStats(hits, misses, evictions, size);
    }
  }
}
