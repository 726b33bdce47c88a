/** Fuzzy entity resolution: single-link clusters of similar names, rewritten to one name each. */
module Resolve {
  import opened Strings
  import opened UnionFind
  import opened RawGraph
  import opened Options

  type Vector = seq<real>

  /** The embedding seam; cosine stands for the similarity of two vectors. */
  datatype Embedder = Embedder(embed: string -> Option<Vector>, cosine: (Vector, Vector) -> real)

  datatype Outcome =
    | Resolved(entities: seq<RawEntity>, relations: seq<RawRelation>)
    | EmbedderRequired
    | EmbedFailed(name: string)

  const DEFAULT_THRESHOLD := 0.92

  /* ---- Which pairs merge ---- */

  function VectorOf(m: Embedder, name: string): Vector {
    match m.embed(name) case Some(v) => v case None => []
  }

  /** The test of the pair scan, e coming before f in name order. */
  predicate Merges(m: Embedder, threshold: real, e: RawEntity, f: RawEntity) {
    e.kind == f.kind && (e.name == f.name || m.cosine(VectorOf(m, e.name), VectorOf(m, f.name)) >= threshold)
  }

  /** Same type, and same or similar name, the similarity taken in name order. */
  ghost function LinkOf(m: Embedder, threshold: real, entities: seq<RawEntity>): Link {
    (a: nat, b: nat) =>
      a < |entities| && b < |entities| && a != b &&
      if AtMost(entities[a].name, entities[b].name) then Merges(m, threshold, entities[a], entities[b])
      else Merges(m, threshold, entities[b], entities[a])
  }

  /**
    Two entities are linked exactly when they have one type and one name, or the vectors of
    their names, the lexically lower one first, are at least as similar as the threshold.
  */
  lemma LinkedIff(m: Embedder, threshold: real, entities: seq<RawEntity>, a: nat, b: nat)
    requires a < |entities| && b < |entities| && a != b
    ensures var e, f := entities[a], entities[b];
      var low, high := if Before(f.name, e.name) then f.name else e.name, if Before(f.name, e.name) then e.name else f.name;
      LinkOf(m, threshold, entities)(a, b) <==>
        e.kind == f.kind && (e.name == f.name || m.cosine(VectorOf(m, low), VectorOf(m, high)) >= threshold)
  {
  }

  /* ---- The fixed scan order ---- */

  /** a precedes b in a stable sort by name. */
  ghost predicate Precedes(entities: seq<RawEntity>, a: nat, b: nat)
    requires a < |entities| && b < |entities|
  {
    Before(entities[a].name, entities[b].name) || (entities[a].name == entities[b].name && a < b)
  }

  ghost predicate IsOrder(entities: seq<RawEntity>, order: seq<nat>, lo: nat) {
    && (forall p :: 0 <= p < |order| ==> lo <= order[p] < |entities|)
    && (forall x :: lo <= x < |entities| ==> x in order)
    && (forall p, q :: 0 <= p < q < |order| ==> Precedes(entities, order[p], order[q]))
  }

  function InsertIndex(entities: seq<RawEntity>, i: nat, order: seq<nat>): (r: seq<nat>)
    requires i < |entities| && forall p :: 0 <= p < |order| ==> i < order[p] < |entities|
    requires forall p, q :: 0 <= p < q < |order| ==> Precedes(entities, order[p], order[q])
    ensures forall p :: 0 <= p < |r| ==> i <= r[p] < |entities|
    ensures forall p, q :: 0 <= p < q < |r| ==> Precedes(entities, r[p], r[q])
    ensures forall x :: x in r <==> x == i || x in order
  {
    if order == [] then [i]
    else if AtMost(entities[i].name, entities[order[0]].name) then
      assert forall p :: 0 <= p < |order| ==> Precedes(entities, i, order[p]) by {
        forall p | 0 <= p < |order|
          ensures Precedes(entities, i, order[p])
        {
          Total(entities[i].name, entities[order[0]].name);
          if p > 0 {
            assert Precedes(entities, order[0], order[p]);
            if Before(entities[i].name, entities[order[0]].name) && Before(entities[order[0]].name, entities[order[p]].name) {
              Transitive(entities[i].name, entities[order[0]].name, entities[order[p]].name);
            }
          }
        }
      }
      [i] + order
    else
      var tail := InsertIndex(entities, i, order[1..]);
      assert order == [order[0]] + order[1..];
      assert forall p :: 0 <= p < |tail| ==> Precedes(entities, order[0], tail[p]) by {
        forall p | 0 <= p < |tail|
          ensures Precedes(entities, order[0], tail[p])
        {
          assert tail[p] in tail;
          if tail[p] != i {
            var k :| 0 <= k < |order[1..]| && order[1..][k] == tail[p];
          }
        }
      }
      [order[0]] + tail
  }

  /** Indices sorted stably by name. */
  function SortByName(entities: seq<RawEntity>, lo: nat): (order: seq<nat>)
    requires lo <= |entities|
    ensures IsOrder(entities, order, lo)
    decreases |entities| - lo
  {
    if lo == |entities| then [] else InsertIndex(entities, lo, SortByName(entities, lo + 1))
  }

  /* ---- The pair scan ---- */

  /** All linked pairs at scan positions (p, q) before (i, j) share a root. */
  ghost predicate ScannedTo(p: seq<nat>, link: Link, order: seq<nat>, i: nat, j: nat) {
    && Forest(p)
    && (forall x :: 0 <= x < |order| ==> order[x] < |p|)
    && forall a, b :: 0 <= a < b < |order| && (a < i || (a == i && b < j)) && link(order[a], order[b]) ==>
      Root(p, order[a]) == Root(p, order[b])
  }

  lemma ScannedMerged(p: seq<nat>, q: seq<nat>, link: Link, order: seq<nat>, i: nat, j: nat, a: nat, b: nat)
    requires ScannedTo(p, link, order, i, j) && a < |p| && b < |p| && Merged(p, q, Root(p, a), Root(p, b))
    requires i < j < |order| && order[i] == a && order[j] == b
    ensures ScannedTo(q, link, order, i, j + 1)
  {
  }

  lemma ScannedSkip(p: seq<nat>, link: Link, order: seq<nat>, i: nat, j: nat)
    requires ScannedTo(p, link, order, i, j) && i < j < |order| && !link(order[i], order[j])
    ensures ScannedTo(p, link, order, i, j + 1)
  {
  }

  /** Having scanned every pair once covers links in both directions. */
  lemma {:induction false} AllScanned(p: seq<nat>, link: Link, order: seq<nat>)
    requires ScannedTo(p, link, order, |order|, 0)
    requires forall x :: 0 <= x < |p| ==> x in order
    requires forall a, b :: link(a, b) ==> link(b, a) && a != b
    ensures Complete(p, link)
  {
    forall a, b | 0 <= a < |p| && 0 <= b < |p| && link(a, b)
      ensures Root(p, a) == Root(p, b)
    {
      assert a in order && b in order;
      var i :| 0 <= i < |order| && order[i] == a;
      var j :| 0 <= j < |order| && order[j] == b;
      assert link(order[i], order[j]) && link(order[j], order[i]);
    }
  }

  lemma LinkSymmetric(m: Embedder, threshold: real, entities: seq<RawEntity>, a: nat, b: nat)
    requires LinkOf(m, threshold, entities)(a, b)
    ensures LinkOf(m, threshold, entities)(b, a)
  {
    Total(entities[a].name, entities[b].name);
    if Before(entities[a].name, entities[b].name) {
      Asymmetric(entities[a].name, entities[b].name);
    }
    if Before(entities[b].name, entities[a].name) {
      Asymmetric(entities[b].name, entities[a].name);
    }
  }

  /** The test of the code at scan positions i < j is the link of the two indices. */
  lemma TestIsLink(m: Embedder, threshold: real, entities: seq<RawEntity>, order: seq<nat>, i: nat, j: nat)
    requires IsOrder(entities, order, 0) && i < j < |order|
    ensures LinkOf(m, threshold, entities)(order[i], order[j]) <==>
      Merges(m, threshold, entities[order[i]], entities[order[j]])
  {
    assert Precedes(entities, order[i], order[j]);
    if Before(entities[order[i]].name, entities[order[j]].name) {
      Asymmetric(entities[order[i]].name, entities[order[j]].name);
    } else {
      Irreflexive(entities[order[i]].name);
    }
  }

  /** The double loop; afterwards the roots are the single-link clusters. */
  method ScanPairs(parent: array<nat>, m: Embedder, threshold: real, entities: seq<RawEntity>, order: seq<nat>)
    requires parent.Length == |entities| && IsOrder(entities, order, 0)
    requires Sound(parent[..], LinkOf(m, threshold, entities))
    modifies parent
    ensures Sound(parent[..], LinkOf(m, threshold, entities)) && Complete(parent[..], LinkOf(m, threshold, entities))
  {
    hide IsOrder, LinkOf, Merged, Connected, ScannedTo, Sound, Merges;
    ghost var link := LinkOf(m, threshold, entities);
    Unscanned(parent[..], link, entities, order);
    for i := 0 to |order|
      invariant |parent[..]| == |entities| && Sound(parent[..], link) && ScannedTo(parent[..], link, order, i, 0)
    {
      RowStart(parent[..], link, order, i);
      for j := i + 1 to |order|
        invariant |parent[..]| == |entities| && Sound(parent[..], link) && ScannedTo(parent[..], link, order, i, j)
      {
        InOrder(entities, order, i);
        InOrder(entities, order, j);
        TestIsLink(m, threshold, entities, order, i, j);
        ghost var p := parent[..];
        SoundForest(p, link);
        if Merges(m, threshold, entities[order[i]], entities[order[j]]) {
          Union(parent, order[i], order[j]);
          UnionSound(p, parent[..], link, order[i], order[j]);
          MergedLength(p, parent[..], Root(p, order[i]), Root(p, order[j]));
          ScannedMerged(p, parent[..], link, order, i, j, order[i], order[j]);
        } else {
          ScannedSkip(parent[..], link, order, i, j);
        }
      }
      RowEnd(parent[..], link, order, i);
    }
    forall a, b | link(a, b)
      ensures link(b, a) && a != b
    {
      LinkSymmetric(m, threshold, entities, a, b);
      LinkIrreflexive(m, threshold, entities, a, b);
    }
    OrderCovers(entities, order);
    AllScanned(parent[..], link, order);
  }

  lemma LinkIrreflexive(m: Embedder, threshold: real, entities: seq<RawEntity>, a: nat, b: nat)
    requires LinkOf(m, threshold, entities)(a, b)
    ensures a != b && a < |entities| && b < |entities|
  {
  }

  lemma MergedLength(p: seq<nat>, q: seq<nat>, ra: nat, rb: nat)
    requires Merged(p, q, ra, rb)
    ensures |p| == |q|
  {
  }

  lemma SoundForest(p: seq<nat>, link: Link)
    requires Sound(p, link)
    ensures Forest(p)
  {
  }

  lemma InOrder(entities: seq<RawEntity>, order: seq<nat>, i: nat)
    requires IsOrder(entities, order, 0) && i < |order|
    ensures order[i] < |entities|
  {
  }

  lemma OrderCovers(entities: seq<RawEntity>, order: seq<nat>)
    requires IsOrder(entities, order, 0)
    ensures forall x :: 0 <= x < |entities| ==> x in order
    ensures forall p :: 0 <= p < |order| ==> order[p] < |entities|
  {
  }

  lemma Unscanned(p: seq<nat>, link: Link, entities: seq<RawEntity>, order: seq<nat>)
    requires Sound(p, link) && IsOrder(entities, order, 0) && |p| == |entities|
    ensures ScannedTo(p, link, order, 0, 0)
  {
  }

  lemma RowStart(p: seq<nat>, link: Link, order: seq<nat>, i: nat)
    requires ScannedTo(p, link, order, i, 0)
    ensures ScannedTo(p, link, order, i, i + 1)
  {
  }

  lemma RowEnd(p: seq<nat>, link: Link, order: seq<nat>, i: nat)
    requires ScannedTo(p, link, order, i, |order|)
    ensures ScannedTo(p, link, order, i + 1, 0)
  {
  }

  /* ---- Canonical names ---- */

  /** The longer name wins, ties broken lexically lowest. */
  predicate BetterCanonical(candidate: string, current: string) {
    if |candidate| != |current| then |candidate| > |current| else Before(candidate, current)
  }

  lemma BetterTransitive(a: string, b: string, c: string)
    requires BetterCanonical(a, b) && BetterCanonical(b, c)
    ensures BetterCanonical(a, c)
  {
    if |a| == |b| == |c| {
      Transitive(a, b, c);
    }
  }

  lemma BetterTotal(a: string, b: string)
    ensures a == b || BetterCanonical(a, b) || BetterCanonical(b, a)
    ensures BetterCanonical(a, b) ==> !BetterCanonical(b, a)
  {
    Total(a, b);
    if Before(a, b) {
      Asymmetric(a, b);
    }
  }

  /** name is borne by a member of i's cluster and no member has a better one. */
  ghost predicate IsCanonicalName(entities: seq<RawEntity>, link: Link, i: nat, name: string) {
    && (exists j :: 0 <= j < |entities| && Connected(link, |entities|, i, j) && entities[j].name == name)
    && (forall j :: 0 <= j < |entities| && Connected(link, |entities|, i, j) ==> !BetterCanonical(entities[j].name, name))
  }

  /** The longest name of the cluster, and of the longest the lexically lowest. */
  lemma CanonicalNameIsLongest(entities: seq<RawEntity>, link: Link, i: nat, name: string, j: nat)
    requires IsCanonicalName(entities, link, i, name) && j < |entities| && Connected(link, |entities|, i, j)
    ensures |entities[j].name| <= |name| && (|entities[j].name| == |name| ==> !Before(entities[j].name, name))
  {
  }

  lemma CanonicalNameUnique(entities: seq<RawEntity>, link: Link, i: nat, a: string, b: string)
    requires IsCanonicalName(entities, link, i, a) && IsCanonicalName(entities, link, i, b)
    ensures a == b
  {
    BetterTotal(a, b);
  }

  /** The best name among the first n scanned members of the tree of root r. */
  ghost predicate BestOfTree(entities: seq<RawEntity>, p: seq<nat>, order: seq<nat>, n: nat, r: nat, name: string)
    requires Forest(p) && |p| == |entities| && n <= |order| && forall k :: 0 <= k < |order| ==> order[k] < |p|
  {
    && (exists k :: 0 <= k < n && Root(p, order[k]) == r && entities[order[k]].name == name)
    && (forall k :: 0 <= k < n && Root(p, order[k]) == r ==> !BetterCanonical(entities[order[k]].name, name))
  }

  ghost predicate TreeTable(entities: seq<RawEntity>, p: seq<nat>, order: seq<nat>, n: nat,
                            canonByRoot: map<nat, string>)
    requires Forest(p) && |p| == |entities| && n <= |order| && forall k :: 0 <= k < |order| ==> order[k] < |p|
  {
    && (forall k :: 0 <= k < n ==> Root(p, order[k]) in canonByRoot)
    && (forall r :: r in canonByRoot ==> BestOfTree(entities, p, order, n, r, canonByRoot[r]))
  }

  lemma {:induction false} TreeTableStep(entities: seq<RawEntity>, p: seq<nat>, order: seq<nat>, n: nat,
                                         canonByRoot: map<nat, string>)
    requires Forest(p) && |p| == |entities| && n < |order| && forall k :: 0 <= k < |order| ==> order[k] < |p|
    requires TreeTable(entities, p, order, n, canonByRoot)
    ensures var r, name := Root(p, order[n]), entities[order[n]].name;
      TreeTable(entities, p, order, n + 1,
        if r !in canonByRoot || BetterCanonical(name, canonByRoot[r]) then canonByRoot[r := name] else canonByRoot)
  {
    var r, name := Root(p, order[n]), entities[order[n]].name;
    var next := if r !in canonByRoot || BetterCanonical(name, canonByRoot[r]) then canonByRoot[r := name] else canonByRoot;
    BetterTotal(name, name);
    forall s | s in next
      ensures BestOfTree(entities, p, order, n + 1, s, next[s])
    {
      if s == r && next[s] == name {
        forall k | 0 <= k < n + 1 && Root(p, order[k]) == r
          ensures !BetterCanonical(entities[order[k]].name, name)
        {
          var other := entities[order[k]].name;
          BetterTotal(other, name);
          if k < n {
            assert BestOfTree(entities, p, order, n, r, canonByRoot[r]);
            if BetterCanonical(other, name) {
              if name == canonByRoot[r] {
              } else {
                BetterTransitive(other, name, canonByRoot[r]);
              }
            }
          }
        }
        assert Root(p, order[n]) == r && entities[order[n]].name == next[s];
      } else {
        assert BestOfTree(entities, p, order, n, s, canonByRoot[s]);
        var k :| 0 <= k < n && Root(p, order[k]) == s && entities[order[k]].name == canonByRoot[s];
      }
    }
  }

  /** In finished trees the best name is the cluster's canonical name. */
  lemma {:induction false} TreeNameIsCanonical(entities: seq<RawEntity>, p: seq<nat>, link: Link, order: seq<nat>,
                                               i: nat, name: string)
    requires Sound(p, link) && Complete(p, link) && |p| == |entities| && i < |p|
    requires IsOrder(entities, order, 0)
    requires BestOfTree(entities, p, order, |order|, Root(p, i), name)
    ensures IsCanonicalName(entities, link, i, name)
  {
    hide Connected;
    var k :| 0 <= k < |order| && Root(p, order[k]) == Root(p, i) && entities[order[k]].name == name;
    RootsAreClusters(p, link, i, order[k]);
    forall j | 0 <= j < |entities| && Connected(link, |entities|, i, j)
      ensures !BetterCanonical(entities[j].name, name)
    {
      RootsAreClusters(p, link, i, j);
      assert j in order;
      var q :| 0 <= q < |order| && order[q] == j;
    }
  }

  method CanonicalNames(parent: array<nat>, entities: seq<RawEntity>, order: seq<nat>, ghost link: Link)
    returns (canonByRoot: map<nat, string>)
    requires parent.Length == |entities| && IsOrder(entities, order, 0)
    requires Sound(parent[..], link) && Complete(parent[..], link)
    modifies parent
    ensures SameRoots(old(parent[..]), parent[..])
    ensures forall i :: 0 <= i < |entities| ==>
      Root(parent[..], i) in canonByRoot && IsCanonicalName(entities, link, i, canonByRoot[Root(parent[..], i)])
  {
    hide Connected, IsCanonicalName, TreeTable, IsOrder, Sound, Complete;
    OrderCovers(entities, order);
    SoundForest(parent[..], link);
    ghost var p := parent[..];
    canonByRoot := map[];
    assert TreeTable(entities, p, order, 0, canonByRoot) by {
      NoTrees(entities, p, order);
    }
    for n := 0 to |order|
      invariant SameRoots(p, parent[..])
      invariant TreeTable(entities, p, order, n, canonByRoot)
    {
      TreeTableStep(entities, p, order, n, canonByRoot);
      var root := Find(parent, order[n]);
      var name := entities[order[n]].name;
      if root !in canonByRoot || BetterCanonical(name, canonByRoot[root]) {
        canonByRoot := canonByRoot[root := name];
      }
    }
    forall i | 0 <= i < |entities|
      ensures Root(parent[..], i) in canonByRoot && IsCanonicalName(entities, link, i, canonByRoot[Root(parent[..], i)])
    {
      TreeOf(entities, p, order, canonByRoot, i);
      TreeNameIsCanonical(entities, p, link, order, i, canonByRoot[Root(p, i)]);
    }
  }

  lemma NoTrees(entities: seq<RawEntity>, p: seq<nat>, order: seq<nat>)
    requires Forest(p) && |p| == |entities| && forall k :: 0 <= k < |order| ==> order[k] < |p|
    ensures TreeTable(entities, p, order, 0, map[])
  {
  }

  lemma TreeOf(entities: seq<RawEntity>, p: seq<nat>, order: seq<nat>, canonByRoot: map<nat, string>, i: nat)
    requires Forest(p) && |p| == |entities| && i < |p| && forall k :: 0 <= k < |order| ==> order[k] < |p|
    requires TreeTable(entities, p, order, |order|, canonByRoot) && i in order
    ensures Root(p, i) in canonByRoot && BestOfTree(entities, p, order, |order|, Root(p, i), canonByRoot[Root(p, i)])
  {
    var k :| 0 <= k < |order| && order[k] == i;
  }

  /* ---- Rewriting ---- */

  /** i is the last entity bearing its name. */
  ghost predicate IsLastBearer(entities: seq<RawEntity>, i: nat) {
    i < |entities| && forall j :: i < j < |entities| ==> entities[j].name != entities[i].name
  }

  /** Each name is rewritten to the canonical name of its last bearer's cluster. */
  ghost predicate IsRewrite(entities: seq<RawEntity>, link: Link, rewrite: map<string, string>) {
    && (forall name :: name in rewrite <==> exists i :: 0 <= i < |entities| && entities[i].name == name)
    && (forall i: nat :: i < |entities| && IsLastBearer(entities, i) && entities[i].name in rewrite ==>
      IsCanonicalName(entities, link, i, rewrite[entities[i].name]))
  }

  function Rename(rewrite: map<string, string>, name: string): string {
    if name in rewrite then rewrite[name] else name
  }

  function RenameEntity(rewrite: map<string, string>, e: RawEntity): RawEntity {
    e.(name := Rename(rewrite, e.name))
  }

  function RenameRelation(rewrite: map<string, string>, r: RawRelation): RawRelation {
    r.(source := Rename(rewrite, r.source), target := Rename(rewrite, r.target))
  }

  /** name is borne at one of the first n scan places. */
  ghost predicate MetBefore(entities: seq<RawEntity>, order: seq<nat>, n: nat, name: string)
    requires n <= |order| && forall k :: 0 <= k < |order| ==> order[k] < |entities|
  {
    exists k :: 0 <= k < n && entities[order[k]].name == name
  }

  /** Of the first n scan places k is the last one with its name. */
  ghost predicate LastMet(entities: seq<RawEntity>, order: seq<nat>, n: nat, k: nat)
    requires k < n <= |order| && forall k :: 0 <= k < |order| ==> order[k] < |entities|
  {
    forall j :: k < j < n ==> entities[order[j]].name != entities[order[k]].name
  }

  /** rewrite after the first n scanned entities: the latest bearer of each name decides. */
  ghost predicate RewriteSoFar(entities: seq<RawEntity>, order: seq<nat>, n: nat, canon: map<nat, string>,
                               rewrite: map<string, string>)
    requires n <= |order| && forall k :: 0 <= k < |order| ==> order[k] < |entities| && order[k] in canon
  {
    && (forall name :: name in rewrite <==> MetBefore(entities, order, n, name))
    && (forall k :: 0 <= k < n && LastMet(entities, order, n, k) ==>
      entities[order[k]].name in rewrite && rewrite[entities[order[k]].name] == canon[order[k]])
  }

  lemma MetNext(entities: seq<RawEntity>, order: seq<nat>, n: nat, name: string)
    requires n < |order| && forall k :: 0 <= k < |order| ==> order[k] < |entities|
    ensures MetBefore(entities, order, n + 1, name) <==> MetBefore(entities, order, n, name) || name == entities[order[n]].name
  {
    if name == entities[order[n]].name {
      assert entities[order[n]].name == name;
    }
  }

  lemma LastMetNext(entities: seq<RawEntity>, order: seq<nat>, n: nat, k: nat)
    requires k < n < |order| && forall k :: 0 <= k < |order| ==> order[k] < |entities|
    requires LastMet(entities, order, n + 1, k)
    ensures LastMet(entities, order, n, k) && entities[order[k]].name != entities[order[n]].name
  {
    assert entities[order[n]].name != entities[order[k]].name;
  }

  lemma RewriteStep(entities: seq<RawEntity>, order: seq<nat>, n: nat, canon: map<nat, string>,
                    rewrite: map<string, string>)
    requires n < |order| && forall k :: 0 <= k < |order| ==> order[k] < |entities| && order[k] in canon
    requires RewriteSoFar(entities, order, n, canon, rewrite)
    ensures RewriteSoFar(entities, order, n + 1, canon, rewrite[entities[order[n]].name := canon[order[n]]])
  {
    hide MetBefore, LastMet;
    var next := rewrite[entities[order[n]].name := canon[order[n]]];
    forall name
      ensures name in next <==> MetBefore(entities, order, n + 1, name)
    {
      MetNext(entities, order, n, name);
    }
    forall k | 0 <= k < n + 1 && LastMet(entities, order, n + 1, k)
      ensures entities[order[k]].name in next && next[entities[order[k]].name] == canon[order[k]]
    {
      if k < n {
        LastMetNext(entities, order, n, k);
      }
    }
  }

  lemma {:induction false} RewriteNames(entities: seq<RawEntity>, order: seq<nat>, canon: map<nat, string>,
                                        rewrite: map<string, string>, name: string)
    requires IsOrder(entities, order, 0) && forall k :: 0 <= k < |order| ==> order[k] < |entities| && order[k] in canon
    requires RewriteSoFar(entities, order, |order|, canon, rewrite)
    ensures name in rewrite <==> exists i :: 0 <= i < |entities| && entities[i].name == name
  {
    if i :| 0 <= i < |entities| && entities[i].name == name {
      var k := PositionOf(entities, order, i);
      assert entities[order[k]].name == name;
    }
  }

  lemma PositionOf(entities: seq<RawEntity>, order: seq<nat>, i: nat) returns (k: nat)
    requires IsOrder(entities, order, 0) && i < |entities|
    ensures k < |order| && order[k] == i
  {
    assert i in order;
    k :| 0 <= k < |order| && order[k] == i;
  }

  /** In the scan order the last bearer of a name comes last among its bearers. */
  lemma LastScanned(entities: seq<RawEntity>, order: seq<nat>, k: nat, j: nat)
    requires IsOrder(entities, order, 0) && k < j < |order| && IsLastBearer(entities, order[k])
    ensures entities[order[j]].name != entities[order[k]].name
  {
    assert Precedes(entities, order[k], order[j]);
    Irreflexive(entities[order[k]].name);
  }

  lemma {:induction false} RewriteDone(entities: seq<RawEntity>, link: Link, order: seq<nat>, canon: map<nat, string>,
                                       rewrite: map<string, string>)
    requires IsOrder(entities, order, 0) && forall k :: 0 <= k < |order| ==> order[k] < |entities| && order[k] in canon
    requires forall k :: 0 <= k < |entities| ==> k in canon && IsCanonicalName(entities, link, k, canon[k])
    requires RewriteSoFar(entities, order, |order|, canon, rewrite)
    ensures IsRewrite(entities, link, rewrite)
  {
    hide IsCanonicalName, IsOrder, Precedes, IsLastBearer;
    forall name
      ensures name in rewrite <==> exists i :: 0 <= i < |entities| && entities[i].name == name
    {
      RewriteNames(entities, order, canon, rewrite, name);
    }
    forall i: nat | IsLastBearer(entities, i) && i < |entities| && entities[i].name in rewrite
      ensures IsCanonicalName(entities, link, i, rewrite[entities[i].name])
    {
      var k := PositionOf(entities, order, i);
      forall j | k < j < |order|
        ensures entities[order[j]].name != entities[order[k]].name
      {
        LastScanned(entities, order, k, j);
      }
    }
  }

  method RewriteTable(parent: array<nat>, entities: seq<RawEntity>, order: seq<nat>, ghost link: Link,
                      canonByRoot: map<nat, string>)
    returns (rewrite: map<string, string>)
    requires parent.Length == |entities| && IsOrder(entities, order, 0) && Forest(parent[..])
    requires forall i :: 0 <= i < |entities| ==>
      Root(parent[..], i) in canonByRoot && IsCanonicalName(entities, link, i, canonByRoot[Root(parent[..], i)])
    modifies parent
    ensures IsRewrite(entities, link, rewrite)
  {
    hide IsCanonicalName, RewriteSoFar, IsOrder, IsRewrite;
    OrderCovers(entities, order);
    ghost var p := parent[..];
    ghost var canon: map<nat, string> := map i: nat | 0 <= i < |entities| :: canonByRoot[Root(p, i)];
    rewrite := map[];
    assert RewriteSoFar(entities, order, 0, canon, rewrite) by {
      NothingRewritten(entities, order, canon);
    }
    for n := 0 to |order|
      invariant SameRoots(p, parent[..])
      invariant RewriteSoFar(entities, order, n, canon, rewrite)
    {
      RewriteStep(entities, order, n, canon, rewrite);
      var root := Find(parent, order[n]);
      rewrite := rewrite[entities[order[n]].name := canonByRoot[root]];
    }
    RewriteDone(entities, link, order, canon, rewrite);
  }

  lemma NothingRewritten(entities: seq<RawEntity>, order: seq<nat>, canon: map<nat, string>)
    requires forall k :: 0 <= k < |order| ==> order[k] < |entities| && order[k] in canon
    ensures RewriteSoFar(entities, order, 0, canon, map[])
  {
  }

  /* ---- The resolver ---- */

  function Effective(threshold: real): (t: real)
    ensures t == if threshold > 0.0 then threshold else 0.92
  {
    if threshold <= 0.0 then DEFAULT_THRESHOLD else threshold
  }

  /** name is borne by an entity and cannot be embedded. */
  ghost predicate Unembeddable(m: Embedder, entities: seq<RawEntity>, name: string) {
    m.embed(name) == None && exists i :: 0 <= i < |entities| && entities[i].name == name
  }

  method EmbedAll(m: Embedder, entities: seq<RawEntity>, order: seq<nat>) returns (failed: Option<string>)
    requires IsOrder(entities, order, 0)
    ensures match failed
      case None => forall name :: !Unembeddable(m, entities, name)
      case Some(bad) => Unembeddable(m, entities, bad) && forall name :: Unembeddable(m, entities, name) ==> AtMost(bad, name)
  {
    for n := 0 to |order|
      invariant forall k :: 0 <= k < n ==> m.embed(entities[order[k]].name).Some?
    {
      var name := entities[order[n]].name;
      if m.embed(name).None? {
        forall other | Unembeddable(m, entities, other)
          ensures AtMost(name, other)
        {
          var i :| 0 <= i < |entities| && entities[i].name == other;
          assert i in order;
          var k :| 0 <= k < |order| && order[k] == i;
          if k == n {
            Irreflexive(name);
          } else {
            assert Precedes(entities, order[n], order[k]);
            if Before(name, other) {
              Asymmetric(name, other);
            }
          }
        }
        return Some(name);
      }
    }
    forall i | 0 <= i < |entities|
      ensures m.embed(entities[i].name).Some?
    {
      assert i in order;
      var k :| 0 <= k < |order| && order[k] == i;
    }
    failed := None;
  }

  /** The parts of a resolution: clusters by chains of links, one name per input name. */
  ghost predicate IsResolution(m: Embedder, threshold: real, entities: seq<RawEntity>, relations: seq<RawRelation>,
                               rewrite: map<string, string>, out: Outcome) {
    && IsRewrite(entities, LinkOf(m, threshold, entities), rewrite)
    && out == Resolved(seq(|entities|, i requires 0 <= i < |entities| => RenameEntity(rewrite, entities[i])),
                       seq(|relations|, i requires 0 <= i < |relations| => RenameRelation(rewrite, relations[i])))
  }

  method ResolveEntities(embedder: Option<Embedder>, threshold0: real, entities: seq<RawEntity>,
                         relations: seq<RawRelation>)
    returns (out: Outcome, ghost rewrite: map<string, string>)
    ensures embedder.None? ==> out == EmbedderRequired
    ensures embedder.Some? && entities == [] ==> out == Resolved(entities, relations)
    ensures embedder.Some? && entities != [] ==>
      if out.EmbedFailed? then
        && Unembeddable(embedder.value, entities, out.name)
        && forall name :: Unembeddable(embedder.value, entities, name) ==> AtMost(out.name, name)
      else
        && (forall name :: !Unembeddable(embedder.value, entities, name))
        && IsResolution(embedder.value, Effective(threshold0), entities, relations, rewrite, out)
  {
    hide Connected, IsRewrite, IsOrder, Unembeddable, IsCanonicalName, Sound, Complete;
    rewrite := map[];
    if embedder.None? {
      return EmbedderRequired, rewrite;
    }
    var m, threshold := embedder.value, Effective(threshold0);
    if |entities| == 0 {
      return Resolved(entities, relations), rewrite;
    }
    var order := SortByName(entities, 0);
    var failed := EmbedAll(m, entities, order);
    if failed.Some? {
      return EmbedFailed(failed.value), rewrite;
    }
    ghost var link := LinkOf(m, threshold, entities);
    var parent := new nat[|entities|](i => i);
    Alone(parent[..], link);
    ScanPairs(parent, m, threshold, entities, order);
    var canonByRoot := CanonicalNames(parent, entities, order, link);
    var table := RewriteTable(parent, entities, order, link, canonByRoot);
    rewrite := table;
    out := Resolved(seq(|entities|, i requires 0 <= i < |entities| => RenameEntity(table, entities[i])),
                    seq(|relations|, i requires 0 <= i < |relations| => RenameRelation(table, relations[i])));
  }

  lemma Alone(p: seq<nat>, link: Link)
    requires forall x :: 0 <= x < |p| ==> p[x] == x
    ensures Sound(p, link)
  {
    hide Connected;
    forall x | 0 <= x < |p|
      ensures Connected(link, |p|, x, Root(p, x))
    {
      ConnectedSelf(link, |p|, x);
    }
  }

  /* ---- What resolution guarantees ---- */

  /** Entities of different types are never in one cluster. */
  lemma {:induction false} TypesNeverMerge(m: Embedder, threshold: real, entities: seq<RawEntity>, path: seq<nat>,
                                           i: nat)
    requires IsChain(LinkOf(m, threshold, entities), |entities|, path) && i < |path|
    ensures entities[path[i]].kind == entities[path[0]].kind
  {
    if i == 0 {
    } else {
      TypesNeverMerge(m, threshold, entities, path, i - 1);
      var link := LinkOf(m, threshold, entities);
      assert link(path[i - 1], path[(i - 1) + 1]) || link(path[(i - 1) + 1], path[i - 1]);
    }
  }

  /** The last bearer of a name exists. */
  lemma {:induction false} LastBearer(entities: seq<RawEntity>, i: nat) returns (l: nat)
    requires i < |entities|
    ensures IsLastBearer(entities, l) && entities[l].name == entities[i].name && i <= l
    decreases |entities| - i
  {
    if j :| i < j < |entities| && entities[j].name == entities[i].name {
      l := LastBearer(entities, j);
    } else {
      l := i;
    }
  }

  /** An endpoint that names an input entity names, once rewritten, an output entity. */
  lemma {:induction false} EndpointsFollow(m: Embedder, threshold: real, entities: seq<RawEntity>,
                                           relations: seq<RawRelation>, rewrite: map<string, string>, out: Outcome,
                                           r: nat)
    requires IsResolution(m, threshold, entities, relations, rewrite, out) && r < |relations|
    ensures (exists i :: 0 <= i < |entities| && entities[i].name == relations[r].source) ==>
      exists i :: 0 <= i < |out.entities| && out.entities[i].name == out.relations[r].source
    ensures (exists i :: 0 <= i < |entities| && entities[i].name == relations[r].target) ==>
      exists i :: 0 <= i < |out.entities| && out.entities[i].name == out.relations[r].target
  {
    hide IsRewrite;
    if i :| 0 <= i < |entities| && entities[i].name == relations[r].source {
      assert out.entities[i].name == out.relations[r].source;
    }
    if i :| 0 <= i < |entities| && entities[i].name == relations[r].target {
      assert out.entities[i].name == out.relations[r].target;
    }
  }

  /**
    An entity receives its own cluster's canonical name exactly when the cluster of the last
    bearer of its name has the same one; always so when no other type bears the name.
  */
  lemma {:induction false} OwnClusterIff(m: Embedder, threshold: real, entities: seq<RawEntity>,
                                         relations: seq<RawRelation>, rewrite: map<string, string>, out: Outcome,
                                         i: nat, last: nat)
    requires IsResolution(m, threshold, entities, relations, rewrite, out) && i < |entities|
    requires IsLastBearer(entities, last) && entities[last].name == entities[i].name
    ensures var link := LinkOf(m, threshold, entities);
      IsCanonicalName(entities, link, i, out.entities[i].name) <==>
        exists name :: IsCanonicalName(entities, link, i, name) && IsCanonicalName(entities, link, last, name)
    ensures entities[last].kind == entities[i].kind ==>
      IsCanonicalName(entities, LinkOf(m, threshold, entities), i, out.entities[i].name)
  {
    hide Connected, IsCanonicalName, LinkOf;
    var link := LinkOf(m, threshold, entities);
    var name := out.entities[i].name;
    assert entities[i].name in rewrite && IsCanonicalName(entities, link, last, name);
    if other :| IsCanonicalName(entities, link, i, other) && IsCanonicalName(entities, link, last, other) {
      CanonicalNameUnique(entities, link, last, name, other);
    }
    if entities[last].kind == entities[i].kind {
      SameNameSameCluster(m, threshold, entities, i, last, name);
    }
  }

  lemma {:induction false} SameNameSameCluster(m: Embedder, threshold: real, entities: seq<RawEntity>, i: nat,
                                               last: nat, name: string)
    requires i < |entities| && last < |entities|
    requires entities[last].name == entities[i].name && entities[last].kind == entities[i].kind
    requires IsCanonicalName(entities, LinkOf(m, threshold, entities), last, name)
    ensures IsCanonicalName(entities, LinkOf(m, threshold, entities), i, name)
  {
    hide Connected, IsCanonicalName;
    if i != last {
      ConnectedLink(LinkOf(m, threshold, entities), |entities|, i, last);
      SameClusterSameName(entities, LinkOf(m, threshold, entities), i, last, name);
    }
  }

  /** A canonical name is that of every member of the cluster. */
  lemma {:induction false} SameClusterSameName(entities: seq<RawEntity>, link: Link, i: nat, last: nat, name: string)
    requires i < |entities| && last < |entities|
    requires Connected(link, |entities|, i, last) || Connected(link, |entities|, last, i)
    requires IsCanonicalName(entities, link, last, name)
    ensures IsCanonicalName(entities, link, i, name)
  {
    hide Connected;
    if Connected(link, |entities|, i, last) {
      ConnectedSymmetric(link, |entities|, i, last);
    } else {
      ConnectedSymmetric(link, |entities|, last, i);
    }
    forall j | 0 <= j < |entities|
      ensures Connected(link, |entities|, i, j) <==> Connected(link, |entities|, last, j)
    {
      if Connected(link, |entities|, i, j) {
        ConnectedTransitive(link, |entities|, last, i, j);
      }
      if Connected(link, |entities|, last, j) {
        ConnectedTransitive(link, |entities|, i, last, j);
      }
    }
  }

  /** The clusters of i and j have one canonical name. */
  ghost predicate ShareCanonical(entities: seq<RawEntity>, link: Link, i: nat, j: nat) {
    exists name :: IsCanonicalName(entities, link, i, name) && IsCanonicalName(entities, link, j, name)
  }

  /** Where two types bear one name, their clusters have one canonical name. */
  ghost predicate TypesAgree(entities: seq<RawEntity>, link: Link) {
    forall i, j ::
      0 <= i < |entities| && 0 <= j < |entities| &&
      entities[i].name == entities[j].name && entities[i].kind != entities[j].kind ==>
      ShareCanonical(entities, link, i, j)
  }

  /** Every entity comes out with its own cluster's canonical name. */
  ghost predicate AllOwn(entities: seq<RawEntity>, link: Link, out: seq<RawEntity>)
    requires |out| == |entities|
  {
    forall i :: 0 <= i < |entities| ==> IsCanonicalName(entities, link, i, out[i].name)
  }

  /** Every entity receives its own cluster's canonical name exactly when the types that share a name agree on it. */
  lemma {:induction false} AllOwnIff(m: Embedder, threshold: real, entities: seq<RawEntity>,
                                     relations: seq<RawRelation>, rewrite: map<string, string>, out: Outcome)
    requires IsResolution(m, threshold, entities, relations, rewrite, out)
    ensures AllOwn(entities, LinkOf(m, threshold, entities), out.entities) <==>
      TypesAgree(entities, LinkOf(m, threshold, entities))
  {
    hide IsRewrite, IsCanonicalName, LinkOf, IsLastBearer;
    var link := LinkOf(m, threshold, entities);
    if AllOwn(entities, link, out.entities) {
      forall i, j | 0 <= i < |entities| && 0 <= j < |entities| && entities[i].name == entities[j].name
        ensures ShareCanonical(entities, link, i, j)
      {
        assert out.entities[i].name == out.entities[j].name;
      }
    }
    if TypesAgree(entities, link) {
      forall i | 0 <= i < |entities|
        ensures IsCanonicalName(entities, link, i, out.entities[i].name)
      {
        var last := LastBearer(entities, i);
        OwnClusterIff(m, threshold, entities, relations, rewrite, out, i, last);
        if entities[last].kind != entities[i].kind {
          assert ShareCanonical(entities, link, i, last);
        }
      }
    }
  }

  /** The members of every cluster come out under one name. */
  ghost predicate MergesKept(entities: seq<RawEntity>, link: Link, out: seq<RawEntity>)
    requires |out| == |entities|
  {
    forall i, j :: 0 <= i < |entities| && 0 <= j < |entities| && Connected(link, |entities|, i, j) ==>
      out[i].name == out[j].name
  }

  /** Wherever a cluster bears two names, the clusters of their last bearers have one canonical name. */
  ghost predicate LastBearersAgree(entities: seq<RawEntity>, link: Link) {
    forall i, j, a, b ::
      0 <= i < |entities| && 0 <= j < |entities| && Connected(link, |entities|, i, j) &&
      LastOf(entities, i, a) && LastOf(entities, j, b) ==>
      ShareCanonical(entities, link, a, b)
  }

  /** a is the last bearer of i's name. */
  ghost predicate LastOf(entities: seq<RawEntity>, i: nat, a: nat)
    requires i < |entities|
  {
    IsLastBearer(entities, a) && entities[a].name == entities[i].name
  }

  /** A name becomes the canonical name of its last bearer's cluster. */
  lemma NamedByLast(m: Embedder, threshold: real, entities: seq<RawEntity>, relations: seq<RawRelation>,
                    rewrite: map<string, string>, out: Outcome, i: nat, a: nat)
    requires IsResolution(m, threshold, entities, relations, rewrite, out)
    requires i < |entities| && LastOf(entities, i, a)
    ensures IsCanonicalName(entities, LinkOf(m, threshold, entities), a, out.entities[i].name)
  {
    hide IsCanonicalName, LinkOf;
    assert entities[a].name in rewrite;
  }

  /** Clusters come out under one name each exactly when the last bearers of their names agree. */
  lemma {:induction false} MergesKeptIff(m: Embedder, threshold: real, entities: seq<RawEntity>,
                                         relations: seq<RawRelation>, rewrite: map<string, string>, out: Outcome)
    requires IsResolution(m, threshold, entities, relations, rewrite, out)
    ensures MergesKept(entities, LinkOf(m, threshold, entities), out.entities) <==>
      LastBearersAgree(entities, LinkOf(m, threshold, entities))
  {
    hide IsRewrite, IsCanonicalName, LinkOf, IsLastBearer, Connected;
    var link := LinkOf(m, threshold, entities);
    if MergesKept(entities, link, out.entities) {
      forall i, j, a, b |
        0 <= i < |entities| && 0 <= j < |entities| && Connected(link, |entities|, i, j) &&
        LastOf(entities, i, a) && LastOf(entities, j, b)
        ensures ShareCanonical(entities, link, a, b)
      {
        NamedByLast(m, threshold, entities, relations, rewrite, out, i, a);
        NamedByLast(m, threshold, entities, relations, rewrite, out, j, b);
      }
    }
    if LastBearersAgree(entities, link) {
      forall i, j | 0 <= i < |entities| && 0 <= j < |entities| && Connected(link, |entities|, i, j)
        ensures out.entities[i].name == out.entities[j].name
      {
        var a := LastBearer(entities, i);
        var b := LastBearer(entities, j);
        NamedByLast(m, threshold, entities, relations, rewrite, out, i, a);
        NamedByLast(m, threshold, entities, relations, rewrite, out, j, b);
        assert ShareCanonical(entities, link, a, b);
        var name :| IsCanonicalName(entities, link, a, name) && IsCanonicalName(entities, link, b, name);
        CanonicalNameUnique(entities, link, a, name, out.entities[i].name);
        CanonicalNameUnique(entities, link, b, name, out.entities[j].name);
      }
    }
  }

  /** Own names suffice. */
  lemma {:induction false} OwnNamesKeepMerges(entities: seq<RawEntity>, link: Link, out: seq<RawEntity>)
    requires |out| == |entities| && AllOwn(entities, link, out)
    ensures MergesKept(entities, link, out)
  {
    hide Connected;
    forall i, j | 0 <= i < |entities| && 0 <= j < |entities| && Connected(link, |entities|, i, j)
      ensures out[i].name == out[j].name
    {
      SameClusterSameName(entities, link, j, i, out[i].name);
      CanonicalNameUnique(entities, link, j, out[i].name, out[j].name);
    }
  }

  /** Two linked entities come out under two names, because an entity of another type shares a name with one. */
  lemma {:induction false} MergeUndone(m: Embedder, entities: seq<RawEntity>, rewrite: map<string, string>, out: Outcome)
    requires entities == [RawEntity("A", "o", "", []), RawEntity("AB", "o", "", []), RawEntity("A", "p", "", [])]
    requires m.cosine(VectorOf(m, "A"), VectorOf(m, "AB")) >= DEFAULT_THRESHOLD
    requires IsResolution(m, DEFAULT_THRESHOLD, entities, [], rewrite, out)
    ensures var link := LinkOf(m, DEFAULT_THRESHOLD, entities);
      link(0, 1) && out.entities[0].name == "A" && out.entities[1].name == "AB" && !MergesKept(entities, link, out.entities)
  {
    hide Connected, LinkOf, IsCanonicalName;
    var link := LinkOf(m, DEFAULT_THRESHOLD, entities);
    MergedNames(m, entities);
    assert |"A"| != |"AB"|;
    assert IsLastBearer(entities, 2) && IsLastBearer(entities, 1);
    CanonicalNameUnique(entities, link, 1, rewrite["AB"], "AB");
    CanonicalNameUnique(entities, link, 2, rewrite["A"], "A");
    assert out.entities[0].name == rewrite["A"] && out.entities[1].name == rewrite["AB"];
  }

  lemma MergedNames(m: Embedder, entities: seq<RawEntity>)
    requires entities == [RawEntity("A", "o", "", []), RawEntity("AB", "o", "", []), RawEntity("A", "p", "", [])]
    requires m.cosine(VectorOf(m, "A"), VectorOf(m, "AB")) >= DEFAULT_THRESHOLD
    ensures var link := LinkOf(m, DEFAULT_THRESHOLD, entities);
      && link(0, 1) && Connected(link, 3, 0, 1)
      && IsCanonicalName(entities, link, 1, "AB") && IsCanonicalName(entities, link, 2, "A")
  {
    hide Connected, LinkOf;
    var link := LinkOf(m, DEFAULT_THRESHOLD, entities);
    assert |"A"| == 1 && |"AB"| == 2;
    SimilarLinked(m, entities, 0, 1);
    ConnectedLink(link, 3, 0, 1);
    ConnectedSelf(link, 3, 1);
    ConnectedSelf(link, 3, 2);
    forall y: nat | y < 3 && Connected(link, 3, 2, y)
      ensures entities[y].kind == "p"
    {
      ConnectedSameKind(m, DEFAULT_THRESHOLD, entities, 2, y);
    }
    Irreflexive("AB");
    Irreflexive("A");
  }

  lemma SimilarLinked(m: Embedder, entities: seq<RawEntity>, i: nat, j: nat)
    requires i < |entities| && j < |entities| && i != j && entities[i].kind == entities[j].kind
    requires entities[i].name == "A" && entities[j].name == "AB"
    requires m.cosine(VectorOf(m, "A"), VectorOf(m, "AB")) >= DEFAULT_THRESHOLD
    ensures LinkOf(m, DEFAULT_THRESHOLD, entities)(i, j)
  {
    assert "AB"[0] == "A"[0] && "AB"[1..] != [] && "A"[1..] == [];
    assert AtMost("A", "AB");
  }

  /** Every cluster keeps one name although an entity has not its own cluster's. */
  lemma {:induction false} KeptWithoutOwn(m: Embedder, entities: seq<RawEntity>, rewrite: map<string, string>,
                                          out: Outcome)
    requires entities == [RawEntity("A", "o", "", []), RawEntity("A", "p", "", []), RawEntity("AB", "p", "", [])]
    requires m.cosine(VectorOf(m, "A"), VectorOf(m, "AB")) >= DEFAULT_THRESHOLD
    requires IsResolution(m, DEFAULT_THRESHOLD, entities, [], rewrite, out)
    ensures var link := LinkOf(m, DEFAULT_THRESHOLD, entities);
      MergesKept(entities, link, out.entities) && !AllOwn(entities, link, out.entities)
  {
    hide Connected, LinkOf, IsCanonicalName;
    var link := LinkOf(m, DEFAULT_THRESHOLD, entities);
    assert |"A"| != |"AB"|;
    KeptNames(m, entities);
    assert IsLastBearer(entities, 2) && IsLastBearer(entities, 1);
    CanonicalNameUnique(entities, link, 2, rewrite["AB"], "AB");
    CanonicalNameUnique(entities, link, 1, rewrite["A"], "AB");
    assert forall i :: 0 <= i < 3 ==> out.entities[i].name == "AB";
    if IsCanonicalName(entities, link, 0, "AB") {
      CanonicalNameUnique(entities, link, 0, "A", "AB");
    }
    assert out.entities[0].name == "AB";
    assert !IsCanonicalName(entities, link, 0, out.entities[0].name);
  }

  lemma KeptNames(m: Embedder, entities: seq<RawEntity>)
    requires entities == [RawEntity("A", "o", "", []), RawEntity("A", "p", "", []), RawEntity("AB", "p", "", [])]
    requires m.cosine(VectorOf(m, "A"), VectorOf(m, "AB")) >= DEFAULT_THRESHOLD
    ensures var link := LinkOf(m, DEFAULT_THRESHOLD, entities);
      && IsCanonicalName(entities, link, 0, "A") && IsCanonicalName(entities, link, 1, "AB")
      && IsCanonicalName(entities, link, 2, "AB")
  {
    hide Connected, LinkOf;
    var link := LinkOf(m, DEFAULT_THRESHOLD, entities);
    assert |"A"| == 1 && |"AB"| == 2;
    SimilarLinked(m, entities, 1, 2);
    ConnectedLink(link, 3, 1, 2);
    ConnectedSelf(link, 3, 2);
    ConnectedSelf(link, 3, 0);
    forall y: nat | y < 3 && Connected(link, 3, 0, y)
      ensures entities[y].kind == "o"
    {
      ConnectedSameKind(m, DEFAULT_THRESHOLD, entities, 0, y);
    }
    Irreflexive("AB");
    Irreflexive("A");
  }

  lemma ConnectedSameKind(m: Embedder, threshold: real, entities: seq<RawEntity>, x: nat, y: nat)
    requires Connected(LinkOf(m, threshold, entities), |entities|, x, y) && x < |entities| && y < |entities|
    ensures entities[x].kind == entities[y].kind
  {
    hide LinkOf;
    var link := LinkOf(m, threshold, entities);
    var path :| Joins(link, |entities|, path, x, y);
    TypesNeverMerge(m, threshold, entities, path, |path| - 1);
  }
}
