/** Cache keys and the caching wrapper of the chunk grader. */
module GraderCache {
  import opened Lru
  import opened Memo
  import MemoInterleaved

  const HEADER := "v1\0grader\0"
  const RELEVANCE := "relevance"
  const SUPPORT := "support"

  /** Lower-casing and whitespace collapse, of which only the empty string's image matters here. */
  type Normalizer = string -> string

  predicate Free(s: string, c: char) {
    forall i :: 0 <= i < |s| ==> s[i] != c
  }

  /** What is hashed; the digest is taken to be injective. */
  function GraderCacheKey(norm: Normalizer, query: string, hitID: string, answer: string, mode: string): string {
    HEADER + norm(query) + "\0" + norm(hitID) + "\0" + norm(answer) + "\0" + mode
  }

  /** A grading question: how relevant a hit is to a query, or how well it supports an answer. */
  datatype Query = Relevance(text: string, hitID: string) | Support(text: string, hitID: string)

  function KeyOf(norm: Normalizer, q: Query): string {
    match q
    case Relevance(query, hitID) => GraderCacheKey(norm, query, hitID, "", RELEVANCE)
    case Support(answer, hitID) => GraderCacheKey(norm, "", hitID, answer, SUPPORT)
  }

  /** Alike up to normalisation. */
  ghost predicate SameQuery(norm: Normalizer, p: Query, q: Query) {
    (p.Relevance? <==> q.Relevance?) && norm(p.text) == norm(q.text) && norm(p.hitID) == norm(q.hitID)
  }

  /** Where the first separator is tells the parts apart. */
  lemma {:induction false} SplitFirst(a: string, b: string, c: string, d: string, sep: char)
    requires a + [sep] + b == c + [sep] + d && Free(a, sep) && Free(c, sep)
    ensures a == c && b == d
  {
    var left, right := a + [sep] + b, c + [sep] + d;
    assert left[0] == if a == [] then sep else a[0];
    assert right[0] == if c == [] then sep else c[0];
    if a == [] {
      assert left[1..] == b && right[1..] == d;
    } else {
      assert left[1..] == a[1..] + [sep] + b && right[1..] == c[1..] + [sep] + d;
      SplitFirst(a[1..], b, c[1..], d, sep);
      assert a == [a[0]] + a[1..] && c == [c[0]] + c[1..];
    }
  }

  /** So does where the last one is. */
  lemma {:induction false} SplitLast(a: string, b: string, c: string, d: string, sep: char)
    requires a + [sep] + b == c + [sep] + d && Free(b, sep) && Free(d, sep)
    ensures a == c && b == d
    decreases |b|
  {
    var left, right := a + [sep] + b, c + [sep] + d;
    var n := |left| - 1;
    assert left[n] == if b == [] then sep else b[|b| - 1];
    assert right[n] == if d == [] then sep else d[|d| - 1];
    if b == [] {
      assert left[..n] == a && right[..n] == c;
    } else {
      assert left[..n] == a + [sep] + b[..|b| - 1] && right[..n] == c + [sep] + d[..|d| - 1];
      SplitLast(a, b[..|b| - 1], c, d[..|d| - 1], sep);
      assert b == b[..|b| - 1] + [b[|b| - 1]] && d == d[..|d| - 1] + [d[|d| - 1]];
    }
  }

  lemma SamePrefix(p: string, a: string, b: string)
    requires p + a == p + b
    ensures a == b
  {
    assert (p + a)[|p|..] == a && (p + b)[|p|..] == b;
  }

  lemma SameSuffix(a: string, b: string, s: string)
    requires a + s == b + s
    ensures a == b
  {
    assert |a + s| == |b + s|;
    assert (a + s)[..|a|] == a && (b + s)[..|b|] == b;
  }

  lemma RelevanceKey(norm: Normalizer, query: string, hitID: string)
    requires norm("") == ""
    ensures KeyOf(norm, Relevance(query, hitID)) == HEADER + ((norm(query) + ['\0'] + norm(hitID)) + "\0\0relevance")
  {
    var left := KeyOf(norm, Relevance(query, hitID));
    assert left == HEADER + norm(query) + "\0" + norm(hitID) + "\0" + "" + "\0" + "relevance";
  }

  lemma SupportKey(norm: Normalizer, answer: string, hitID: string)
    requires norm("") == ""
    ensures KeyOf(norm, Support(answer, hitID)) == HEADER + ("\0" + ((norm(hitID) + ['\0'] + norm(answer)) + "\0support"))
  {
    var left := KeyOf(norm, Support(answer, hitID));
    assert left == HEADER + "" + "\0" + norm(hitID) + "\0" + norm(answer) + "\0" + "support";
  }

  lemma LastChar(a: string, b: string)
    requires b != ""
    ensures (a + b)[|a + b| - 1] == b[|b| - 1]
  {
  }

  /** The two kinds of question never share a key. */
  lemma ModesApart(norm: Normalizer, p: Query, q: Query)
    requires p.Relevance? && q.Support?
    ensures KeyOf(norm, p) != KeyOf(norm, q)
  {
    LastChar(HEADER + norm(p.text) + "\0" + norm(p.hitID) + "\0" + norm("") + "\0", "relevance");
    LastChar(HEADER + norm("") + "\0" + norm(q.hitID) + "\0" + norm(q.text) + "\0", "support");
    assert "relevance"[8] == 'e' && "support"[6] == 't';
  }

  /** The two hashed texts of a question, with the separator between them. */
  function Joined(norm: Normalizer, q: Query): string {
    match q
    case Relevance(query, hitID) => norm(query) + ['\0'] + norm(hitID)
    case Support(answer, hitID) => norm(hitID) + ['\0'] + norm(answer)
  }

  /** Keys are shared exactly by questions of one kind with one joined text. */
  lemma SameKeyIff(norm: Normalizer, p: Query, q: Query)
    requires norm("") == ""
    ensures KeyOf(norm, p) == KeyOf(norm, q) <==> (p.Relevance? <==> q.Relevance?) && Joined(norm, p) == Joined(norm, q)
  {
    hide KeyOf;
    var a, b := Joined(norm, p), Joined(norm, q);
    if p.Relevance? && q.Relevance? {
      RelevanceKey(norm, p.text, p.hitID);
      RelevanceKey(norm, q.text, q.hitID);
      if KeyOf(norm, p) == KeyOf(norm, q) {
        SamePrefix(HEADER, a + "\0\0relevance", b + "\0\0relevance");
        SameSuffix(a, b, "\0\0relevance");
      }
    } else if p.Support? && q.Support? {
      SupportKey(norm, p.text, p.hitID);
      SupportKey(norm, q.text, q.hitID);
      if KeyOf(norm, p) == KeyOf(norm, q) {
        SamePrefix(HEADER, "\0" + (a + "\0support"), "\0" + (b + "\0support"));
        SamePrefix("\0", a + "\0support", b + "\0support");
        SameSuffix(a, b, "\0support");
      }
    } else if p.Relevance? {
      ModesApart(norm, p, q);
    } else {
      ModesApart(norm, q, p);
    }
  }

  /* ---- When a key tells its question ---- */

  /** Which texts and chunk IDs are ever asked about; all of them, unless a caller knows better. */
  datatype Use = Use(text: string -> bool, hitID: string -> bool)

  ghost predicate Uses(use: Use, q: Query) {
    use.text(q.text) && use.hitID(q.hitID)
  }

  /** s is what a string in use normalises to. */
  ghost predicate From(norm: Normalizer, used: string -> bool, s: string) {
    exists x :: used(x) && norm(x) == s
  }

  /** Under a normaliser that changes nothing twice these are the strings it leaves alone. */
  lemma FromAnything(norm: Normalizer, s: string)
    requires forall x :: norm(norm(x)) == norm(x)
    ensures From(norm, _ => true, s) <==> norm(s) == s
  {
  }

  /** The joined text of q falls into a text and a chunk ID in use at the NUL in place k. */
  ghost predicate SplitsAt(norm: Normalizer, use: Use, q: Query, k: nat) {
    var all := Joined(norm, q);
    && k < |all| && all[k] == '\0'
    && if q.Relevance? then From(norm, use.text, all[..k]) && From(norm, use.hitID, all[k + 1..])
       else From(norm, use.hitID, all[..k]) && From(norm, use.text, all[k + 1..])
  }

  /** Where the separator is. */
  function SeparatorAt(norm: Normalizer, q: Query): nat {
    if q.Relevance? then |norm(q.text)| else |norm(q.hitID)|
  }

  /** The joined text splits nowhere but at its separator. */
  ghost predicate OneSplit(norm: Normalizer, use: Use, q: Query) {
    forall k: nat :: SplitsAt(norm, use, q, k) ==> k == SeparatorAt(norm, q)
  }

  lemma JoinedParts(norm: Normalizer, q: Query)
    ensures var all, k := Joined(norm, q), SeparatorAt(norm, q);
      && k < |all| && all[k] == '\0'
      && all[..k] == (if q.Relevance? then norm(q.text) else norm(q.hitID))
      && all[k + 1..] == (if q.Relevance? then norm(q.hitID) else norm(q.text))
  {
  }

  /** A question shares its key only with its like exactly when its joined text splits in one place. */
  lemma KeysDistinguish(norm: Normalizer, use: Use, q: Query)
    requires norm("") == ""
    ensures (forall p: Query :: Uses(use, p) && KeyOf(norm, p) == KeyOf(norm, q) ==> SameQuery(norm, p, q)) <==>
      OneSplit(norm, use, q)
  {
    hide KeyOf, Joined;
    JoinedParts(norm, q);
    if OneSplit(norm, use, q) {
      forall p: Query | Uses(use, p) && KeyOf(norm, p) == KeyOf(norm, q)
        ensures SameQuery(norm, p, q)
      {
        SameKeyIff(norm, p, q);
        JoinedParts(norm, p);
        assert SplitsAt(norm, use, q, SeparatorAt(norm, p));
      }
    } else {
      var k: nat :| SplitsAt(norm, use, q, k) && k != SeparatorAt(norm, q);
      var p := OtherReading(norm, use, q, k);
    }
  }

  /** Every other split belongs to a question with the same key that is not alike. */
  lemma OtherReading(norm: Normalizer, use: Use, q: Query, k: nat) returns (p: Query)
    requires norm("") == "" && SplitsAt(norm, use, q, k) && k != SeparatorAt(norm, q)
    ensures Uses(use, p) && KeyOf(norm, p) == KeyOf(norm, q) && !SameQuery(norm, p, q)
  {
    hide KeyOf;
    var all := Joined(norm, q);
    if q.Relevance? {
      var x :| use.text(x) && norm(x) == all[..k];
      var y :| use.hitID(y) && norm(y) == all[k + 1..];
      p := Relevance(x, y);
    } else {
      var x :| use.hitID(x) && norm(x) == all[..k];
      var y :| use.text(y) && norm(y) == all[k + 1..];
      p := Support(y, x);
    }
    assert all == all[..k] + ['\0'] + all[k + 1..];
    SameKeyIff(norm, p, q);
  }

  /** Chunk IDs free of NUL suffice. */
  lemma PlainIdsSplitOnce(norm: Normalizer, use: Use, q: Query)
    requires Free(norm(q.hitID), '\0') && forall x :: use.hitID(x) ==> Free(norm(x), '\0')
    ensures OneSplit(norm, use, q)
  {
    hide Free;
    var all := Joined(norm, q);
    forall k: nat | SplitsAt(norm, use, q, k)
      ensures k == SeparatorAt(norm, q)
    {
      assert all == all[..k] + ['\0'] + all[k + 1..];
      if q.Relevance? {
        SplitLast(norm(q.text), norm(q.hitID), all[..k], all[k + 1..], '\0');
      } else {
        SplitFirst(norm(q.hitID), norm(q.text), all[..k], all[k + 1..], '\0');
      }
    }
  }

  /**
    A chunk ID holding a NUL makes every query share its key with a longer one about a shorter
    ID, where both are normal.
  */
  lemma NulCollides(norm: Normalizer, query: string, hitID: string, at: nat)
    requires norm("") == "" && at < |norm(hitID)| && norm(hitID)[at] == '\0'
    requires norm(norm(query) + "\0" + norm(hitID)[..at]) == norm(query) + "\0" + norm(hitID)[..at]
    requires norm(norm(hitID)[at + 1..]) == norm(hitID)[at + 1..]
    ensures var p, q := Relevance(query, hitID), Relevance(norm(query) + "\0" + norm(hitID)[..at], norm(hitID)[at + 1..]);
      !SameQuery(norm, p, q) && KeyOf(norm, p) == KeyOf(norm, q)
  {
    hide KeyOf;
    var id := norm(hitID);
    var longer, rest := norm(query) + "\0" + id[..at], id[at + 1..];
    RelevanceKey(norm, query, hitID);
    RelevanceKey(norm, longer, rest);
    assert id == id[..at] + ['\0'] + rest;
    assert norm(query) + ['\0'] + id == longer + ['\0'] + rest;
    assert |longer| > |norm(query)|;
  }

  /* ---- The wrapper ---- */

  /** A grading answer: a score and a reason. */
  datatype Grade = Grade(score: real, reason: string)

  datatype ChunkScore = ChunkScore(hitID: string, relevance: real, support: real, reason: string)

  /** The entry kept for a grade. */
  function Kept<E>(q: Query, r: Result<Grade, E>): Result<ChunkScore, E> {
    match r
    case Err(e) => Err(e)
    case Ok(g) =>
      Ok(if q.Relevance? then ChunkScore(q.hitID, g.score, 0.0, g.reason)
         else ChunkScore(q.hitID, 0.0, g.score, g.reason))
  }

  /** The grade read back from an entry. */
  function ReadBack<E>(q: Query, r: Result<ChunkScore, E>): Result<Grade, E> {
    match r
    case Err(e) => Err(e)
    case Ok(cs) => Ok(Grade(if q.Relevance? then cs.relevance else cs.support, cs.reason))
  }

  function CallOf<E>(norm: Normalizer, q: Query, inner: Result<Grade, E>): Call<string, ChunkScore, E> {
    Call(KeyOf(norm, q), Kept(q, inner))
  }

  /** The wrapped grader over one cache. */
  class CachingGrader {
    const norm: Normalizer
    const cache: Cache<string, ChunkScore>

    constructor (norm: Normalizer, cache: Cache<string, ChunkScore>)
      ensures this.norm == norm && this.cache == cache
    {
      this.norm, this.cache := norm, cache;
    }

    method ScoreRelevance<E>(query: string, hitID: string, inner: () -> Result<Grade, E>)
      returns (reply: Result<Grade, E>)
      requires cache.Valid()
      modifies cache.Repr()
      ensures cache.Valid() && fresh(cache.Repr() - old(cache.Repr()))
      ensures var q, call := Relevance(query, hitID), CallOf(norm, Relevance(query, hitID), inner());
        && cache.Entries() == Memo.Step(cache.cap, old(cache.Entries()), call)
        && reply == ReadBack(q, Memo.Reply(old(cache.Entries()), call))
    {
      hide Memo.Step, Memo.Reply, Cache.Valid;
      var q := Relevance(query, hitID);
      var kept := Memo.Ask(cache, KeyOf(norm, q), () => Kept(q, inner()));
      reply := ReadBack(q, kept);
    }

    method ScoreSupport<E>(answer: string, hitID: string, inner: () -> Result<Grade, E>)
      returns (reply: Result<Grade, E>)
      requires cache.Valid()
      modifies cache.Repr()
      ensures cache.Valid() && fresh(cache.Repr() - old(cache.Repr()))
      ensures var q, call := Support(answer, hitID), CallOf(norm, Support(answer, hitID), inner());
        && cache.Entries() == Memo.Step(cache.cap, old(cache.Entries()), call)
        && reply == ReadBack(q, Memo.Reply(old(cache.Entries()), call))
    {
      hide Memo.Step, Memo.Reply, Cache.Valid;
      var q := Support(answer, hitID);
      var kept := Memo.Ask(cache, KeyOf(norm, q), () => Kept(q, inner()));
      reply := ReadBack(q, kept);
    }
  }

  /** A question and what would be answered if asked now. */
  datatype Asked<E> = Asked(query: Query, inner: Result<Grade, E>)

  function CallsOf<E>(norm: Normalizer, asks: seq<Asked<E>>): (calls: seq<Call<string, ChunkScore, E>>)
    ensures |calls| == |asks|
    ensures forall i :: 0 <= i < |asks| ==> calls[i] == CallOf(norm, asks[i].query, asks[i].inner)
  {
    seq(|asks|, i requires 0 <= i < |asks| => CallOf(norm, asks[i].query, asks[i].inner))
  }

  /** All asked questions are within the use, and each one's joined text splits once. */
  ghost predicate Told<E>(norm: Normalizer, use: Use, asks: seq<Asked<E>>) {
    forall j :: 0 <= j < |asks| ==> Uses(use, asks[j].query) && OneSplit(norm, use, asks[j].query)
  }

  /** Questions alike up to normalisation are answered alike. */
  ghost predicate AnswersAlike<E>(norm: Normalizer, asks: seq<Asked<E>>) {
    forall j, k :: 0 <= j < |asks| && 0 <= k < |asks| && SameQuery(norm, asks[j].query, asks[k].query) ==>
      asks[j].inner == asks[k].inner
  }

  /** Questions told apart share a key only with their like. */
  lemma ToldApart<E>(norm: Normalizer, use: Use, asks: seq<Asked<E>>, j: nat, k: nat)
    requires norm("") == "" && Told(norm, use, asks) && j < |asks| && k < |asks|
    requires KeyOf(norm, asks[j].query) == KeyOf(norm, asks[k].query)
    ensures SameQuery(norm, asks[j].query, asks[k].query)
  {
    hide KeyOf, SameQuery, OneSplit;
    KeysDistinguish(norm, use, asks[k].query);
  }

  /**
    The wrapper is transparent in every run of questions that split once, as those about
    NUL-free chunk IDs do, if questions alike up to normalisation are answered alike.
  */
  lemma GraderTransparent<E>(cap: nat, norm: Normalizer, use: Use, asks: seq<Asked<E>>, i: nat)
    requires norm("") == "" && i < |asks| && Told(norm, use, asks) && AnswersAlike(norm, asks)
    ensures ReadBack(asks[i].query, Memo.ReplyAt(cap, CallsOf(norm, asks), i)) == asks[i].inner
  {
    hide Memo.ReplyAt, KeyOf, Told;
    var calls := CallsOf(norm, asks);
    Memo.RepliesAreAnswers(cap, calls, i);
    var reply := Memo.ReplyAt(cap, calls, i);
    if reply != calls[i].inner {
      var j :| 0 <= j < i && calls[j] == Call(calls[i].key, Ok(reply.value));
      ToldApart(norm, use, asks, i, j);
      assert reply == Kept(asks[j].query, asks[j].inner);
    }
  }

  /** So it is to concurrent calls, however their lookups, inner calls and insertions interleave. */
  lemma ConcurrentGraderTransparent<E(!new)>(cap: nat, norm: Normalizer, use: Use, asks: seq<Asked<E>>,
                                             keys: seq<string>, events: seq<MemoInterleaved.Event<ChunkScore, E>>,
                                             s: MemoInterleaved.State<string, ChunkScore, E>, c: nat)
    requires norm("") == "" && c < |asks| && Told(norm, use, asks) && AnswersAlike(norm, asks)
    requires |keys| == |asks| && forall j :: 0 <= j < |asks| ==> keys[j] == KeyOf(norm, asks[j].query)
    requires MemoInterleaved.Reaches(cap, keys, events, s)
    requires forall e :: e in events && e.Return? && e.call < |asks| ==>
      e.inner == Kept(asks[e.call].query, asks[e.call].inner)
    ensures |s.phases| == |asks| && (s.phases[c].Done? ==> ReadBack(asks[c].query, s.phases[c].reply) == asks[c].inner)
  {
    hide MemoInterleaved.Reaches, KeyOf, Told;
    var d := MemoInterleaved.AnsweredByCall(cap, keys, events, s, c);
    if s.phases[c].Done? {
      ToldApart(norm, use, asks, c, d);
    }
  }
}
