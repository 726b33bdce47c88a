/** Cache keys of the answer judge, the second user of the cache and its wrapper. */
module JudgeCache {
  import opened Lru
  import opened Memo
  import MemoInterleaved
  import opened GraderCache

  const JUDGE_HEADER := "v1\0judge\0"

  const SEPARATOR: char := '\U{0001}'

  /** Passages joined by a separator of their own. */
  function Join(passages: seq<string>): string {
    if passages == [] then "" else if |passages| == 1 then passages[0] else passages[0] + [SEPARATOR] + Join(passages[1..])
  }

  /** What is hashed; the digest is taken to be injective. */
  function JudgeCacheKey(norm: Normalizer, query: string, answer: string, context: seq<string>): string {
    JUDGE_HEADER + norm(query) + "\0" + norm(answer) + "\0" + Join(Normalized(norm, context))
  }

  function Normalized(norm: Normalizer, context: seq<string>): (r: seq<string>)
    ensures |r| == |context| && forall i :: 0 <= i < |r| ==> r[i] == norm(context[i])
  {
    seq(|context|, i requires 0 <= i < |context| => norm(context[i]))
  }

  ghost predicate AllFree(passages: seq<string>) {
    forall i :: 0 <= i < |passages| ==> Free(passages[i], SEPARATOR)
  }

  /** No passage, or one blank one. */
  predicate Blank(passages: seq<string>) {
    passages == [] || passages == [""]
  }

  lemma JoinHasSeparator(passages: seq<string>)
    requires |passages| >= 2
    ensures !Free(Join(passages), SEPARATOR)
  {
    assert Join(passages)[|passages[0]|] == SEPARATOR;
  }

  /** Passages free of the separator join alike exactly when they are the same, but for no passage and a blank one. */
  lemma {:induction false} JoinIff(xs: seq<string>, ys: seq<string>)
    requires AllFree(xs) && AllFree(ys)
    ensures Join(xs) == Join(ys) <==> xs == ys || (Blank(xs) && Blank(ys))
  {
    hide Free;
    if |xs| >= 2 {
      JoinHasSeparator(xs);
    }
    if |ys| >= 2 {
      JoinHasSeparator(ys);
    }
    if |xs| >= 2 && |ys| >= 2 {
      assert xs == [xs[0]] + xs[1..] && ys == [ys[0]] + ys[1..];
      JoinIff(xs[1..], ys[1..]);
      if Join(xs) == Join(ys) {
        SplitFirst(xs[0], Join(xs[1..]), ys[0], Join(ys[1..]), SEPARATOR);
      }
    } else {
      ShortJoin(xs);
      ShortJoin(ys);
    }
  }

  lemma ShortJoin(xs: seq<string>)
    requires AllFree(xs)
    ensures |xs| < 2 ==> Free(Join(xs), SEPARATOR)
    ensures |xs| < 2 ==> if xs == [] then Join(xs) == "" else xs == [Join(xs)]
  {
  }

  ghost predicate SameContext(norm: Normalizer, a: seq<string>, b: seq<string>) {
    Normalized(norm, a) == Normalized(norm, b) || (Blank(Normalized(norm, a)) && Blank(Normalized(norm, b)))
  }

  datatype JudgeRequest = JudgeRequest(query: string, answer: string, context: seq<string>)

  function KeyOfRequest(norm: Normalizer, r: JudgeRequest): string {
    JudgeCacheKey(norm, r.query, r.answer, r.context)
  }

  /** Separators occur in no part but as separators. */
  ghost predicate Separable(norm: Normalizer, r: JudgeRequest) {
    Free(norm(r.query), '\0') && Free(norm(r.answer), '\0') && AllFree(Normalized(norm, r.context))
  }

  ghost predicate SameRequest(norm: Normalizer, p: JudgeRequest, q: JudgeRequest) {
    norm(p.query) == norm(q.query) && norm(p.answer) == norm(q.answer) && SameContext(norm, p.context, q.context)
  }

  /** The hashed texts of a request with their separators. */
  function JoinedRequest(norm: Normalizer, r: JudgeRequest): string {
    norm(r.query) + ['\0'] + (norm(r.answer) + ['\0'] + Join(Normalized(norm, r.context)))
  }

  /** Keys are shared exactly by requests with one joined text. */
  lemma SameJudgeKeyIff(norm: Normalizer, p: JudgeRequest, q: JudgeRequest)
    ensures KeyOfRequest(norm, p) == KeyOfRequest(norm, q) <==> JoinedRequest(norm, p) == JoinedRequest(norm, q)
  {
    hide Join;
    assert KeyOfRequest(norm, p) == JUDGE_HEADER + JoinedRequest(norm, p);
    assert KeyOfRequest(norm, q) == JUDGE_HEADER + JoinedRequest(norm, q);
    if KeyOfRequest(norm, p) == KeyOfRequest(norm, q) {
      SamePrefix(JUDGE_HEADER, JoinedRequest(norm, p), JoinedRequest(norm, q));
    }
  }

  /* ---- When a key tells its request ---- */

  /** Which queries, answers and passages ever occur; all of them, unless a caller knows better. */
  datatype Use = Use(query: string -> bool, answer: string -> bool, passage: string -> bool)

  ghost predicate Uses(use: Use, r: JudgeRequest) {
    use.query(r.query) && use.answer(r.answer) && forall i :: 0 <= i < |r.context| ==> use.passage(r.context[i])
  }

  /** The ways to cut l, at some of its 0x01, into passages in use. */
  ghost function Pieces(norm: Normalizer, used: string -> bool, l: string): set<seq<string>>
    decreases |l|
  {
    (if From(norm, used, l) then {[l]} else {})
    + set k, rest | 0 <= k < |l| && l[k] == SEPARATOR && From(norm, used, l[..k]) && rest in Pieces(norm, used, l[k + 1..]) ::
        [l[..k]] + rest
  }

  /** No passage at all gives the empty text too. */
  ghost function Cuts(norm: Normalizer, used: string -> bool, l: string): set<seq<string>> {
    Pieces(norm, used, l) + if l == "" then {[]} else {}
  }

  lemma PieceCases(norm: Normalizer, used: string -> bool, l: string, parts: seq<string>)
    returns (k: nat, rest: seq<string>)
    requires parts in Pieces(norm, used, l)
    ensures (parts == [l] && From(norm, used, l)) ||
      (k < |l| && l[k] == SEPARATOR && From(norm, used, l[..k]) && rest in Pieces(norm, used, l[k + 1..]) &&
       parts == [l[..k]] + rest)
  {
    k, rest := 0, [];
    if !(parts == [l] && From(norm, used, l)) {
      k, rest :|
        0 <= k < |l| && l[k] == SEPARATOR && From(norm, used, l[..k]) && rest in Pieces(norm, used, l[k + 1..]) &&
        parts == [l[..k]] + rest;
    }
  }

  lemma JoinCons(x: string, rest: seq<string>)
    requires rest != []
    ensures Join([x] + rest) == x + [SEPARATOR] + Join(rest)
  {
    assert ([x] + rest)[1..] == rest;
  }

  lemma {:induction false} PiecesJoin(norm: Normalizer, used: string -> bool, l: string, parts: seq<string>)
    requires parts in Pieces(norm, used, l)
    ensures parts != [] && Join(parts) == l && AllFrom(norm, used, parts)
    decreases |l|
  {
    hide From, Pieces;
    var k, rest := PieceCases(norm, used, l, parts);
    if parts == [l] && From(norm, used, l) {
    } else {
      PiecesJoin(norm, used, l[k + 1..], rest);
      hide Join;
      JoinCons(l[..k], rest);
      assert l == l[..k] + [SEPARATOR] + l[k + 1..];
    }
  }

  lemma {:induction false} JoinsArePieces(norm: Normalizer, used: string -> bool, l: string, parts: seq<string>)
    requires parts != [] && Join(parts) == l && AllFrom(norm, used, parts)
    ensures parts in Pieces(norm, used, l)
    decreases |parts|
  {
    hide From;
    if |parts| == 1 {
      assert parts == [l];
    } else {
      var k, rest := |parts[0]|, parts[1..];
      assert l[..k] == parts[0] && l[k] == SEPARATOR && l[k + 1..] == Join(rest);
      JoinsArePieces(norm, used, l[k + 1..], rest);
      assert parts == [l[..k]] + rest;
    }
  }

  ghost predicate AllFrom(norm: Normalizer, used: string -> bool, parts: seq<string>) {
    forall i :: 0 <= i < |parts| ==> From(norm, used, parts[i])
  }

  /** The cuts are exactly the lists of passages in use that join to l. */
  lemma CutsIff(norm: Normalizer, used: string -> bool, l: string, parts: seq<string>)
    ensures parts in Cuts(norm, used, l) <==> Join(parts) == l && AllFrom(norm, used, parts)
  {
    hide Pieces, From;
    if parts in Pieces(norm, used, l) {
      PiecesJoin(norm, used, l, parts);
    }
    if parts != [] && Join(parts) == l && AllFrom(norm, used, parts) {
      JoinsArePieces(norm, used, l, parts);
    }
  }

  /** The joined text, split at two of its NUL and cut behind them, gives these parts in use. */
  ghost predicate ReadsAs(norm: Normalizer, use: Use, r: JudgeRequest, i: nat, j: nat, passages: seq<string>) {
    var all := JoinedRequest(norm, r);
    && i < j < |all| && all[i] == '\0' == all[j]
    && From(norm, use.query, all[..i]) && From(norm, use.answer, all[i + 1..j])
    && passages in Cuts(norm, use.passage, all[j + 1..])
  }

  /** These places and passages are those of the request itself. */
  ghost predicate OwnReading(norm: Normalizer, r: JudgeRequest, i: nat, j: nat, passages: seq<string>) {
    var own := Normalized(norm, r.context);
    && i == |norm(r.query)| && j == i + 1 + |norm(r.answer)|
    && (passages == own || (Blank(passages) && Blank(own)))
  }

  /** The joined text reads in no other way than as the request. */
  ghost predicate OneReading(norm: Normalizer, use: Use, r: JudgeRequest) {
    forall i: nat, j: nat, passages :: ReadsAs(norm, use, r, i, j, passages) ==> OwnReading(norm, r, i, j, passages)
  }

  lemma JoinedRequestParts(norm: Normalizer, r: JudgeRequest)
    ensures var all, i := JoinedRequest(norm, r), |norm(r.query)|;
      var j := i + 1 + |norm(r.answer)|;
      && j < |all| && all[i] == '\0' == all[j] && all[..i] == norm(r.query) && all[i + 1..j] == norm(r.answer)
      && all[j + 1..] == Join(Normalized(norm, r.context))
  {
    hide Join;
  }

  /** A request in use is one of the readings of its joined text. */
  lemma OwnReads(norm: Normalizer, use: Use, p: JudgeRequest, q: JudgeRequest)
    requires Uses(use, p) && JoinedRequest(norm, p) == JoinedRequest(norm, q)
    ensures var i := |norm(p.query)|;
      ReadsAs(norm, use, q, i, i + 1 + |norm(p.answer)|, Normalized(norm, p.context))
  {
    hide Join, Cuts, JoinedRequest;
    JoinedRequestParts(norm, p);
    CutsIff(norm, use.passage, Join(Normalized(norm, p.context)), Normalized(norm, p.context));
  }

  /** A request shares its key only with its like exactly when its joined text reads in one way. */
  lemma JudgeKeysDistinguish(norm: Normalizer, use: Use, q: JudgeRequest)
    ensures (forall p: JudgeRequest :: Uses(use, p) && KeyOfRequest(norm, p) == KeyOfRequest(norm, q) ==> SameRequest(norm, p, q))
      <==> OneReading(norm, use, q)
  {
    hide KeyOfRequest, JoinedRequest, Normalized, ReadsAs, Blank;
    JoinedRequestParts(norm, q);
    if OneReading(norm, use, q) {
      forall p: JudgeRequest | Uses(use, p) && KeyOfRequest(norm, p) == KeyOfRequest(norm, q)
        ensures SameRequest(norm, p, q)
      {
        SameJudgeKeyIff(norm, p, q);
        OwnReads(norm, use, p, q);
        JoinedRequestParts(norm, p);
        assert OwnReading(norm, q, |norm(p.query)|, |norm(p.query)| + 1 + |norm(p.answer)|, Normalized(norm, p.context));
      }
    } else {
      var i: nat, j: nat, passages :| ReadsAs(norm, use, q, i, j, passages) && !OwnReading(norm, q, i, j, passages);
      var p := OtherRequest(norm, use, q, i, j, passages);
    }
  }

  /** Every other reading belongs to a request with the same key that is not alike. */
  lemma OtherRequest(norm: Normalizer, use: Use, q: JudgeRequest, i: nat, j: nat, passages: seq<string>)
    returns (p: JudgeRequest)
    requires ReadsAs(norm, use, q, i, j, passages) && !OwnReading(norm, q, i, j, passages)
    ensures Uses(use, p) && KeyOfRequest(norm, p) == KeyOfRequest(norm, q) && !SameRequest(norm, p, q)
  {
    hide KeyOfRequest, JoinedRequest, Join, Cuts, Blank;
    var all := JoinedRequest(norm, q);
    CutsIff(norm, use.passage, all[j + 1..], passages);
    var x :| use.query(x) && norm(x) == all[..i];
    var y :| use.answer(y) && norm(y) == all[i + 1..j];
    var context := Originals(norm, use.passage, passages);
    p := JudgeRequest(x, y, context);
    assert Normalized(norm, context) == passages;
    assert all == all[..i] + ['\0'] + (all[i + 1..j] + ['\0'] + all[j + 1..]);
    assert JoinedRequest(norm, p) == all by {
      JoinedOf(norm, p);
    }
    SameJudgeKeyIff(norm, p, q);
  }

  lemma JoinedOf(norm: Normalizer, r: JudgeRequest)
    ensures JoinedRequest(norm, r) == norm(r.query) + ['\0'] + (norm(r.answer) + ['\0'] + Join(Normalized(norm, r.context)))
  {
  }

  lemma {:induction false} Originals(norm: Normalizer, used: string -> bool, parts: seq<string>)
    returns (context: seq<string>)
    requires AllFrom(norm, used, parts)
    ensures |context| == |parts| && forall i :: 0 <= i < |parts| ==> used(context[i]) && norm(context[i]) == parts[i]
  {
    if parts == [] {
      context := [];
    } else {
      var rest := Originals(norm, used, parts[1..]);
      assert From(norm, used, parts[0]);
      var x :| used(x) && norm(x) == parts[0];
      context := [x] + rest;
    }
  }

  /** Only separable requests are in use. */
  ghost predicate PlainUse(norm: Normalizer, use: Use) {
    && (forall x :: use.query(x) ==> Free(norm(x), '\0')) && (forall x :: use.answer(x) ==> Free(norm(x), '\0'))
    && forall x :: use.passage(x) ==> Free(norm(x), SEPARATOR)
  }

  /** Queries and answers free of NUL and passages free of 0x01 suffice. */
  lemma SeparableReadsOnce(norm: Normalizer, use: Use, q: JudgeRequest)
    requires PlainUse(norm, use) && Separable(norm, q)
    ensures OneReading(norm, use, q)
  {
    hide Join, Cuts, JoinedRequest, Normalized, Blank;
    var all, own := JoinedRequest(norm, q), Normalized(norm, q.context);
    forall i: nat, j: nat, passages | ReadsAs(norm, use, q, i, j, passages)
      ensures OwnReading(norm, q, i, j, passages)
    {
      var tail := all[j + 1..];
      CutsIff(norm, use.passage, tail, passages);
      PlainParts(norm, use, q, i, j, passages);
      hide PlainUse, Free, AllFree;
      JoinedOf(norm, q);
      assert all == all[..i] + ['\0'] + (all[i + 1..j] + ['\0'] + tail);
      SplitFirst(norm(q.query), norm(q.answer) + ['\0'] + Join(own), all[..i], all[i + 1..j] + ['\0'] + tail, '\0');
      SplitFirst(norm(q.answer), Join(own), all[i + 1..j], tail, '\0');
      JoinIff(own, passages);
    }
  }

  lemma PlainParts(norm: Normalizer, use: Use, q: JudgeRequest, i: nat, j: nat, passages: seq<string>)
    requires PlainUse(norm, use) && ReadsAs(norm, use, q, i, j, passages) && AllFrom(norm, use.passage, passages)
    ensures Free(JoinedRequest(norm, q)[..i], '\0') && Free(JoinedRequest(norm, q)[i + 1..j], '\0') && AllFree(passages)
  {
    hide JoinedRequest, Cuts, Free;
    forall k | 0 <= k < |passages|
      ensures Free(passages[k], SEPARATOR)
    {
      assert From(norm, use.passage, passages[k]);
    }
  }

  /** A NUL in a normal query moves what follows it into the answer without changing the key. */
  lemma JudgeNulCollides(norm: Normalizer, u: string, v: string, answer: string, context: seq<string>)
    requires norm(u + "\0" + v) == u + "\0" + v && norm(u) == u
    requires norm(v + "\0" + norm(answer)) == v + "\0" + norm(answer)
    ensures var p, q := JudgeRequest(u + "\0" + v, answer, context), JudgeRequest(u, v + "\0" + norm(answer), context);
      !SameRequest(norm, p, q) && KeyOfRequest(norm, p) == KeyOfRequest(norm, q)
  {
    hide KeyOfRequest, Join, Normalized, SameContext;
    var p, q := JudgeRequest(u + "\0" + v, answer, context), JudgeRequest(u, v + "\0" + norm(answer), context);
    SameJudgeKeyIff(norm, p, q);
    var rest := norm(answer) + ['\0'] + Join(Normalized(norm, context));
    assert (u + "\0" + v) + ['\0'] + rest == u + ['\0'] + ((v + "\0" + norm(answer)) + ['\0'] + Join(Normalized(norm, context)));
    assert |u + "\0" + v| > |u|;
  }

  /** A NUL in a normal answer moves what follows it into the first passage. */
  lemma JudgeAnswerCollides(norm: Normalizer, query: string, u: string, v: string, passage: string)
    requires norm(u + "\0" + v) == u + "\0" + v && norm(u) == u
    requires norm(v + "\0" + norm(passage)) == v + "\0" + norm(passage)
    ensures var p, q := JudgeRequest(query, u + "\0" + v, [passage]), JudgeRequest(query, u, [v + "\0" + norm(passage)]);
      !SameRequest(norm, p, q) && KeyOfRequest(norm, p) == KeyOfRequest(norm, q)
  {
    hide KeyOfRequest, SameContext;
    var moved := v + "\0" + norm(passage);
    var p, q := JudgeRequest(query, u + "\0" + v, [passage]), JudgeRequest(query, u, [moved]);
    SameJudgeKeyIff(norm, p, q);
    assert Normalized(norm, [passage]) == [norm(passage)] && Normalized(norm, [moved]) == [moved];
    assert (u + "\0" + v) + ['\0'] + norm(passage) == u + ['\0'] + moved;
    assert |u + "\0" + v| > |u|;
  }

  /** A separator in a normal passage makes it share its key with two passages. */
  lemma SeparatorCollides(norm: Normalizer, query: string, answer: string, u: string, v: string)
    requires norm(u + [SEPARATOR] + v) == u + [SEPARATOR] + v && norm(u) == u && norm(v) == v
    ensures var p, q := JudgeRequest(query, answer, [u + [SEPARATOR] + v]), JudgeRequest(query, answer, [u, v]);
      !SameRequest(norm, p, q) && KeyOfRequest(norm, p) == KeyOfRequest(norm, q)
  {
    var one, two := [u + [SEPARATOR] + v], [u, v];
    assert Normalized(norm, one) == one && Normalized(norm, two) == two;
    assert two[1..] == [v];
    assert Join(one) == Join(two);
    assert |one| != |two|;
  }

  /* ---- The wrapper ---- */

  datatype Judgement = Judgement(groundedness: real, answerRelevance: real, reason: string)

  /** The wrapped judge over one cache. */
  class CachingJudge {
    const norm: Normalizer
    const cache: Cache<string, Judgement>

    constructor (norm: Normalizer, cache: Cache<string, Judgement>)
      ensures this.norm == norm && this.cache == cache
    {
      this.norm, this.cache := norm, cache;
    }

    method Judge<E>(req: JudgeRequest, inner: () -> Result<Judgement, E>) returns (reply: Result<Judgement, E>)
      requires cache.Valid()
      modifies cache.Repr()
      ensures cache.Valid() && fresh(cache.Repr() - old(cache.Repr()))
      ensures cache.Entries() == Memo.Step(cache.cap, old(cache.Entries()), Call(KeyOfRequest(norm, req), inner()))
      ensures reply == Memo.Reply(old(cache.Entries()), Call(KeyOfRequest(norm, req), inner()))
    {
      hide Memo.Step, Memo.Reply, Cache.Valid;
      reply := Memo.Ask(cache, KeyOfRequest(norm, req), inner);
    }
  }

  /** A request and what the judge would answer if asked now. */
  datatype Asked<E> = Asked(req: JudgeRequest, inner: Result<Judgement, E>)

  function CallsOf<E>(norm: Normalizer, asks: seq<Asked<E>>): (calls: seq<Call<string, Judgement, E>>)
    ensures |calls| == |asks|
    ensures forall i :: 0 <= i < |asks| ==> calls[i] == Call(KeyOfRequest(norm, asks[i].req), asks[i].inner)
  {
    seq(|asks|, i requires 0 <= i < |asks| => Call(KeyOfRequest(norm, asks[i].req), asks[i].inner))
  }

  /** All requests are within the use, and each one's joined text reads in one way. */
  ghost predicate Told<E>(norm: Normalizer, use: Use, asks: seq<Asked<E>>) {
    forall j :: 0 <= j < |asks| ==> Uses(use, asks[j].req) && OneReading(norm, use, asks[j].req)
  }

  /** The judge answers requests alike up to normalisation alike. */
  ghost predicate AnswersAlike<E>(norm: Normalizer, asks: seq<Asked<E>>) {
    forall j, k :: 0 <= j < |asks| && 0 <= k < |asks| && SameRequest(norm, asks[j].req, asks[k].req) ==>
      asks[j].inner == asks[k].inner
  }

  lemma ToldApart<E>(norm: Normalizer, use: Use, asks: seq<Asked<E>>, j: nat, k: nat)
    requires Told(norm, use, asks) && AnswersAlike(norm, asks) && j < |asks| && k < |asks|
    requires KeyOfRequest(norm, asks[j].req) == KeyOfRequest(norm, asks[k].req)
    ensures asks[j].inner == asks[k].inner
  {
    hide KeyOfRequest, SameRequest, OneReading;
    JudgeKeysDistinguish(norm, use, asks[k].req);
  }

  /**
    The wrapper is transparent in every run of requests that read in one way, as those free
    of separators do, if the judge answers requests alike up to normalisation alike.
  */
  lemma JudgeTransparent<E>(cap: nat, norm: Normalizer, use: Use, asks: seq<Asked<E>>, i: nat)
    requires i < |asks| && Told(norm, use, asks) && AnswersAlike(norm, asks)
    ensures Memo.ReplyAt(cap, CallsOf(norm, asks), i) == asks[i].inner
  {
    hide Memo.ReplyAt, KeyOfRequest, Told, AnswersAlike;
    var calls := CallsOf(norm, asks);
    forall j, k | 0 <= j < |calls| && 0 <= k < |calls| && calls[j].key == calls[k].key
      ensures calls[j].inner == calls[k].inner
    {
      ToldApart(norm, use, asks, j, k);
    }
    Memo.Transparent(cap, calls, i);
  }

  /** So it is to concurrent calls, as those of the parallel benchmark. */
  lemma ConcurrentJudgeTransparent<E(!new)>(cap: nat, norm: Normalizer, use: Use, asks: seq<Asked<E>>,
                                            keys: seq<string>, events: seq<MemoInterleaved.Event<Judgement, E>>,
                                            s: MemoInterleaved.State<string, Judgement, E>, c: nat)
    requires c < |asks| && Told(norm, use, asks) && AnswersAlike(norm, asks)
    requires |keys| == |asks| && forall j :: 0 <= j < |asks| ==> keys[j] == KeyOfRequest(norm, asks[j].req)
    requires MemoInterleaved.Reaches(cap, keys, events, s)
    requires forall e :: e in events && e.Return? && e.call < |asks| ==> e.inner == asks[e.call].inner
    ensures |s.phases| == |asks| && (s.phases[c].Done? ==> s.phases[c].reply == asks[c].inner)
  {
    hide MemoInterleaved.Reaches, KeyOfRequest, Told, AnswersAlike;
    var d := MemoInterleaved.AnsweredByCall(cap, keys, events, s, c);
    if s.phases[c].Done? {
      ToldApart(norm, use, asks, c, d);
    }
  }
}
