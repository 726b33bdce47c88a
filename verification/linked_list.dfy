/** A doubly linked list as a ring through a sentinel. */
module LinkedList {

  class Element<T> {
    var value: T
    var prev: Element?<T>
    var next: Element?<T>

    constructor (value: T)
      ensures this.value == value
    {
      this.value, prev, next := value, null, null;
    }
  }

  class List<T(0)> {
    const root: Element<T>
    var len: nat
    ghost var elements: seq<Element<T>>

    /** The ring read from the sentinel at place zero once around to itself. */
    ghost function At(i: nat): Element<T>
      requires i <= |elements| + 1
      reads this
    {
      if i == 0 || i == |elements| + 1 then root else elements[i - 1]
    }

    ghost predicate Linked(i: nat)
      requires i <= |elements|
      reads this, root, elements
    {
      At(i).next == At(i + 1) && At(i + 1).prev == At(i)
    }

    ghost predicate Valid()
      reads this, root, elements
    {
      && len == |elements| && root !in elements
      && (forall i, j :: 0 <= i < j < |elements| ==> elements[i] != elements[j])
      && forall i :: 0 <= i <= |elements| ==> Linked(i)
    }

    constructor ()
      ensures Valid() && elements == [] && fresh(root)
    {
      var blank: T := *;
      var r := new Element(blank);
      root, len, elements := r, 0, [];
      new;
      root.prev, root.next := root, root;
    }

    /** Puts e, which is not in the list, right after the sentinel. */
    method InsertFront(e: Element<T>)
      requires Valid() && e != root && e !in elements
      modifies this`len, this`elements, root`next, root`prev, e`next, e`prev, elements
      ensures Valid() && elements == [e] + old(elements)
      ensures e.value == old(e.value) && forall x :: x in old(elements) ==> x.value == old(x.value)
    {
      var first := root.next;
      assert Linked(0);
      assert first == At(1);
      e.prev, e.next := root, first;
      first.prev := e;
      root.next := e;
      elements := [e] + elements;
      len := len + 1;
      forall i | 0 <= i <= |elements|
        ensures Linked(i)
      {
        if i > 1 {
          assert old(Linked(i - 1));
        }
      }
    }

    /** Takes e, the element at place i, out of the list. */
    method Remove(e: Element<T>, ghost i: nat)
      requires Valid() && i < |elements| && elements[i] == e
      modifies this`len, this`elements, root`next, root`prev, elements
      ensures Valid() && elements == old(elements[..i] + elements[i + 1..])
      ensures forall x :: x in old(elements) ==> x.value == old(x.value)
    {
      assert Linked(i) && Linked(i + 1);
      assert e == At(i + 1);
      var before, after := e.prev, e.next;
      before.next := after;
      after.prev := before;
      e.next, e.prev := null, null;
      elements := elements[..i] + elements[i + 1..];
      len := len - 1;
      forall j | 0 <= j <= |elements|
        ensures Linked(j)
      {
        if j < i {
          assert old(Linked(j));
        } else if j > i {
          assert old(Linked(j + 1));
        }
      }
    }

    method MoveToFront(e: Element<T>, ghost i: nat)
      requires Valid() && i < |elements| && elements[i] == e
      modifies this`len, this`elements, root`next, root`prev, elements
      ensures Valid() && elements == [e] + old(elements[..i] + elements[i + 1..])
      ensures forall x :: x in old(elements) ==> x.value == old(x.value)
    {
      assert Linked(0) && At(1) == root.next;
      if root.next == e {
        assert i == 0;
        return;
      }
      Remove(e, i);
      InsertFront(e);
    }

    /** Overwrites the value of the element at place i. */
    method SetValue(e: Element<T>, value: T, ghost i: nat)
      requires Valid() && i < |elements| && elements[i] == e
      modifies e`value
      ensures Valid() && elements == old(elements) && e.value == value
    {
      e.value := value;
      forall j | 0 <= j <= |elements|
        ensures Linked(j)
      {
        assert old(Linked(j));
      }
    }

    method Len() returns (n: nat)
      requires Valid()
      ensures n == |elements|
    {
      n := len;
    }

    method Back() returns (e: Element<T>)
      requires Valid() && elements != []
      ensures e == elements[|elements| - 1]
    {
      assert Linked(|elements|);
      e := root.prev;
    }
  }
}
