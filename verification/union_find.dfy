/** Union-find over indices, with path halving and attachment to the lower root. */
module UnionFind {

  /** Every parent link points down or to itself, so following links terminates. */
  ghost predicate Forest(p: seq<nat>) {
    forall x :: 0 <= x < |p| ==> p[x] <= x
  }

  ghost function Root(p: seq<nat>, x: nat): (r: nat)
    requires Forest(p) && x < |p|
    ensures r <= x && p[r] == r
  {
    if p[x] == x then x else Root(p, p[x])
  }

  ghost predicate SameRoots(p: seq<nat>, q: seq<nat>) {
    && Forest(p) && Forest(q) && |p| == |q|
    && forall y :: 0 <= y < |p| ==> Root(q, y) == Root(p, y)
  }

  /** Halving one link changes no root. */
  lemma {:induction false} HalvingKeepsRoot(p: seq<nat>, x: nat, y: nat)
    requires Forest(p) && x < |p| && y < |p|
    ensures Forest(p[x := p[p[x]]]) && Root(p[x := p[p[x]]], y) == Root(p, y)
  {
    var q := p[x := p[p[x]]];
    if p[y] != y {
      HalvingKeepsRoot(p, x, p[y]);
      if y == x && p[p[y]] != p[y] {
        HalvingKeepsRoot(p, x, p[p[y]]);
      }
    }
  }

  /** Attaching root hi below root lo moves exactly the trees of hi. */
  lemma {:induction false} AttachMovesRoot(p: seq<nat>, lo: nat, hi: nat, y: nat)
    requires Forest(p) && lo < hi < |p| && y < |p| && p[lo] == lo && p[hi] == hi
    ensures Forest(p[hi := lo]) && Root(p[hi := lo], y) == if Root(p, y) == hi then lo else Root(p, y)
  {
    if p[y] != y {
      AttachMovesRoot(p, lo, hi, p[y]);
    }
  }

  function Lower(a: nat, b: nat): nat {
    if a < b then a else b
  }

  function Higher(a: nat, b: nat): nat {
    if a < b then b else a
  }

  /** q has the roots of p, except that the trees of the higher root now hang under the lower. */
  ghost predicate Merged(p: seq<nat>, q: seq<nat>, ra: nat, rb: nat) {
    && Forest(p) && Forest(q) && |p| == |q|
    && forall y :: 0 <= y < |p| ==> Root(q, y) == if Root(p, y) == Higher(ra, rb) then Lower(ra, rb) else Root(p, y)
  }

  lemma {:induction false} AttachMerges(p: seq<nat>, ra: nat, rb: nat)
    requires Forest(p) && ra < |p| && rb < |p| && p[ra] == ra && p[rb] == rb && ra != rb
    ensures Merged(p, p[Higher(ra, rb) := Lower(ra, rb)], ra, rb)
  {
    forall y | 0 <= y < |p|
      ensures Forest(p[Higher(ra, rb) := Lower(ra, rb)])
      ensures Root(p[Higher(ra, rb) := Lower(ra, rb)], y) == if Root(p, y) == Higher(ra, rb) then Lower(ra, rb) else Root(p, y)
    {
      AttachMovesRoot(p, Lower(ra, rb), Higher(ra, rb), y);
    }
  }

  method Find(parent: array<nat>, x0: nat) returns (x: nat)
    requires Forest(parent[..]) && x0 < parent.Length
    modifies parent
    ensures SameRoots(old(parent[..]), parent[..])
    ensures x == Root(parent[..], x0)
  {
    x := x0;
    while parent[x] != x
      invariant x < parent.Length && SameRoots(old(parent[..]), parent[..])
      invariant Root(parent[..], x) == Root(parent[..], x0)
      decreases x
    {
      ghost var p := parent[..];
      forall y | 0 <= y < |p|
        ensures Forest(p[x := p[p[x]]]) && Root(p[x := p[p[x]]], y) == Root(p, y)
      {
        HalvingKeepsRoot(p, x, y);
      }
      parent[x] := parent[parent[x]];
      assert parent[..] == p[x := p[p[x]]];
      x := parent[x];
    }
  }

  method Union(parent: array<nat>, a: nat, b: nat)
    requires Forest(parent[..]) && a < parent.Length && b < parent.Length
    modifies parent
    ensures Forest(old(parent[..])) && parent.Length == |old(parent[..])|
    ensures Merged(old(parent[..]), parent[..], Root(old(parent[..]), a), Root(old(parent[..]), b))
  {
    var ra := Find(parent, a);
    var rb := Find(parent, b);
    if ra == rb {
      return;
    }
    ghost var p := parent[..];
    AttachMerges(p, ra, rb);
    if ra < rb {
      parent[rb] := ra;
    } else {
      parent[ra] := rb;
    }
    assert parent[..] == p[Higher(ra, rb) := Lower(ra, rb)];
  }

  /* ---- Chains of links ---- */

  type Link = (nat, nat) -> bool

  ghost predicate IsChain(link: Link, n: nat, path: seq<nat>) {
    && (forall i :: 0 <= i < |path| ==> path[i] < n)
    && (forall i :: 0 <= i < |path| - 1 ==> link(path[i], path[i + 1]) || link(path[i + 1], path[i]))
  }

  ghost predicate Joins(link: Link, n: nat, path: seq<nat>, a: nat, b: nat) {
    |path| > 0 && path[0] == a && path[|path| - 1] == b && IsChain(link, n, path)
  }

  /** a and b are joined by a chain of links, in either direction. */
  ghost predicate Connected(link: Link, n: nat, a: nat, b: nat) {
    exists path :: Joins(link, n, path, a, b)
  }

  lemma ConnectedSelf(link: Link, n: nat, a: nat)
    requires a < n
    ensures Connected(link, n, a, a)
  {
    assert Joins(link, n, [a], a, a);
  }

  lemma ConnectedLink(link: Link, n: nat, a: nat, b: nat)
    requires a < n && b < n && link(a, b)
    ensures Connected(link, n, a, b)
  {
    assert Joins(link, n, [a, b], a, b);
  }

  lemma ConnectedTransitive(link: Link, n: nat, a: nat, b: nat, c: nat)
    requires Connected(link, n, a, b) && Connected(link, n, b, c)
    ensures Connected(link, n, a, c)
  {
    var p :| Joins(link, n, p, a, b);
    var q :| Joins(link, n, q, b, c);
    var path := p + q[1..];
    forall i | 0 <= i < |path| - 1
      ensures link(path[i], path[i + 1]) || link(path[i + 1], path[i])
    {
      if i < |p| - 1 {
        assert path[i] == p[i] && path[i + 1] == p[i + 1];
      } else {
        assert path[i] == q[i - |p| + 1] && path[i + 1] == q[i - |p| + 2];
      }
    }
    assert Joins(link, n, path, a, c);
  }

  ghost function Reverse(p: seq<nat>): seq<nat> {
    seq(|p|, i requires 0 <= i < |p| => p[|p| - 1 - i])
  }

  lemma ConnectedSymmetric(link: Link, n: nat, a: nat, b: nat)
    requires Connected(link, n, a, b)
    ensures Connected(link, n, b, a)
  {
    var p :| Joins(link, n, p, a, b);
    var path := Reverse(p);
    forall i | 0 <= i < |path| - 1
      ensures link(path[i], path[i + 1]) || link(path[i + 1], path[i])
    {
      var k := |p| - 2 - i;
      assert path[i] == p[k + 1] && path[i + 1] == p[k];
    }
    assert Joins(link, n, path, b, a);
  }

  /* ---- The forest and the links agree ---- */

  /** Every index is connected to its root. */
  ghost predicate Sound(p: seq<nat>, link: Link) {
    Forest(p) && forall x :: 0 <= x < |p| ==> Connected(link, |p|, x, Root(p, x))
  }

  /** Linked indices share a root. */
  ghost predicate Complete(p: seq<nat>, link: Link) {
    Forest(p) && forall a, b :: 0 <= a < |p| && 0 <= b < |p| && link(a, b) ==> Root(p, a) == Root(p, b)
  }

  lemma {:induction false} ChainSharesRoot(p: seq<nat>, link: Link, path: seq<nat>, i: nat)
    requires Complete(p, link) && IsChain(link, |p|, path) && i < |path|
    ensures Root(p, path[i]) == Root(p, path[0])
  {
    if i == 0 {
    } else {
      ChainSharesRoot(p, link, path, i - 1);
      assert link(path[i - 1], path[(i - 1) + 1]) || link(path[(i - 1) + 1], path[i - 1]);
    }
  }

  /** Single-link clusters: same root exactly when joined by a chain; the root is the least member. */
  lemma {:induction false} RootsAreClusters(p: seq<nat>, link: Link, a: nat, b: nat)
    requires Sound(p, link) && Complete(p, link) && a < |p| && b < |p|
    ensures Root(p, a) == Root(p, b) <==> Connected(link, |p|, a, b)
    ensures Connected(link, |p|, a, b) ==> Root(p, a) <= b
    ensures Connected(link, |p|, a, Root(p, a))
  {
    if Root(p, a) == Root(p, b) {
      ConnectedSymmetric(link, |p|, b, Root(p, b));
      ConnectedTransitive(link, |p|, a, Root(p, a), b);
    }
    if Connected(link, |p|, a, b) {
      var path :| Joins(link, |p|, path, a, b);
      ChainSharesRoot(p, link, path, |path| - 1);
    }
  }

  /** Uniting linked indices keeps every index connected to its root. */
  lemma {:induction false} UnionSound(p: seq<nat>, q: seq<nat>, link: Link, a: nat, b: nat)
    requires Sound(p, link) && Forest(q) && |q| == |p| && a < |p| && b < |p| && link(a, b)
    requires Merged(p, q, Root(p, a), Root(p, b))
    ensures Sound(q, link)
  {
    var ra, rb := Root(p, a), Root(p, b);
    ConnectedLink(link, |p|, a, b);
    ConnectedSymmetric(link, |p|, a, ra);
    ConnectedTransitive(link, |p|, ra, a, b);
    ConnectedTransitive(link, |p|, ra, b, rb);
    ConnectedSymmetric(link, |p|, ra, rb);
    forall y | 0 <= y < |p|
      ensures Connected(link, |p|, y, Root(q, y))
    {
      if Root(q, y) != Root(p, y) {
        ConnectedTransitive(link, |p|, y, Root(p, y), Root(q, y));
      }
    }
  }
}
