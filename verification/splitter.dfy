/** Splitting a text into overlapping windows at paragraph and word breaks. A string is its bytes. */
module Splitter {

  /** The bytes from lo up to hi. */
  datatype Window = Window(lo: int, hi: int)

  /** Which bytes belong to white space. */
  type Spaces = int -> bool

  /** What TrimSpace leaves of the bytes from lo up to hi. */
  type Trimmer = (int, int) -> Window

  ghost predicate Gap(space: Spaces, lo: int, hi: int) {
    forall p :: lo <= p < hi ==> space(p)
  }

  /** Trimming keeps a window and takes off nothing but white space. */
  ghost predicate TrimsTo(space: Spaces, lo: int, hi: int, w: Window) {
    lo <= w.lo <= w.hi <= hi && Gap(space, lo, w.lo) && Gap(space, w.hi, hi)
  }

  ghost predicate IsTrim(text: string, space: Spaces, trim: Trimmer) {
    && (forall lo, hi :: 0 <= lo <= hi <= |text| ==> TrimsTo(space, lo, hi, trim(lo, hi)))
    && forall p :: 0 <= p < |text| && text[p] == '\n' ==> space(p)
  }

  /* ---- Break points ---- */

  predicate Blank(text: string, i: int) {
    0 <= i && i + 1 < |text| && text[i] == '\n' && text[i + 1] == '\n'
  }

  predicate SpaceAt(text: string, i: int) {
    0 <= i < |text| && text[i] == ' '
  }

  /** The last blank line that starts and ends from lo up to hi, or -1. */
  ghost function LastBlank(text: string, lo: nat, hi: nat): (at: int)
    ensures at == -1 || (lo <= at && at + 2 <= hi && Blank(text, at))
    ensures forall i :: lo <= i && i > at && i + 2 <= hi ==> !Blank(text, i)
    decreases hi
  {
    if hi < lo + 2 then -1 else if Blank(text, hi - 2) then hi - 2 else LastBlank(text, lo, hi - 1)
  }

  method LastIndexBlank(text: string, lo: nat, hi: nat) returns (at: int)
    requires lo <= hi <= |text|
    ensures at == LastBlank(text, lo, hi)
  {
    at := hi - 2;
    while at >= lo
      invariant lo - 2 <= at <= hi - 2 && LastBlank(text, lo, hi) == LastBlank(text, lo, at + 2)
    {
      if Blank(text, at) {
        return;
      }
      at := at - 1;
    }
    at := -1;
  }

  /** The last space from lo up to hi, or -1. */
  ghost function LastSpace(text: string, lo: nat, hi: nat): (at: int)
    ensures at == -1 || (lo <= at < hi && SpaceAt(text, at))
    ensures forall i :: lo <= i < hi && i > at ==> !SpaceAt(text, i)
    decreases hi
  {
    if hi <= lo then -1 else if SpaceAt(text, hi - 1) then hi - 1 else LastSpace(text, lo, hi - 1)
  }

  method LastIndexSpace(text: string, lo: nat, hi: nat) returns (at: int)
    requires lo <= hi <= |text|
    ensures at == LastSpace(text, lo, hi)
  {
    at := hi - 1;
    while at >= lo
      invariant lo - 1 <= at < hi && LastSpace(text, lo, hi) == LastSpace(text, lo, at + 1)
    {
      if text[at] == ' ' {
        return;
      }
      at := at - 1;
    }
    at := -1;
  }

  function HardSize(maxChars: nat): nat {
    maxChars + maxChars / 5
  }

  /**
    Break at the last blank line of the hard window; failing that after the last word of the
    soft one; failing that at its end.
  */
  ghost predicate IsBreak(text: string, start: nat, maxChars: nat, at: nat) {
    var hard, soft := start + HardSize(maxChars), start + maxChars;
    if exists i :: start <= i && i + 2 <= hard && Blank(text, i) then
      start <= at && at + 2 <= hard && Blank(text, at) && forall i :: at < i && i + 2 <= hard ==> !Blank(text, i)
    else if exists i :: start < i < soft && SpaceAt(text, i) then
      start < at < soft && SpaceAt(text, at) && forall i :: at < i < soft ==> !SpaceAt(text, i)
    else
      at == soft
  }

  ghost function BreakAt(text: string, start: nat, maxChars: nat): (at: nat)
    ensures IsBreak(text, start, maxChars, at)
  {
    var blank, word := LastBlank(text, start, start + HardSize(maxChars)), LastSpace(text, start, start + maxChars);
    if blank >= 0 then blank else if word > start then word else start + maxChars
  }

  function Past(text: string, breakAt: nat): nat {
    if Blank(text, breakAt) then breakAt + 2 else breakAt
  }

  /** Where the window from start ends, and where the text goes on: past a blank line. */
  method FindBreak(text: string, start: nat, maxChars: nat) returns (breakAt: nat, nextStart: nat)
    requires maxChars > 0 && start + HardSize(maxChars) < |text|
    ensures breakAt == BreakAt(text, start, maxChars) && nextStart == Past(text, breakAt)
    ensures start <= breakAt <= start + HardSize(maxChars) && start < nextStart <= |text|
  {
    var hardEnd := start + maxChars + maxChars / 5;
    var at := LastIndexBlank(text, start, hardEnd);
    if at < 0 {
      var end := start + maxChars;
      var ws := LastIndexSpace(text, start, end);
      if ws > start {
        at := ws;
      } else {
        at := end;
      }
    }
    breakAt, nextStart := at, at;
    if breakAt < |text| - 1 && text[breakAt] == '\n' && text[breakAt + 1] == '\n' {
      nextStart := breakAt + 2;
    }
  }

  lemma BreakInside(text: string, start: nat, maxChars: nat)
    requires maxChars > 0 && start + HardSize(maxChars) < |text|
    ensures start <= BreakAt(text, start, maxChars) <= start + HardSize(maxChars)
    ensures start < Past(text, BreakAt(text, start, maxChars)) <= |text|
  {
  }

  /** The next window starts back before where the text goes on, but always further on than this one. */
  function Resume(start: nat, nextStart: nat, back: nat): nat {
    if nextStart as int - back as int <= start then start + 1 else nextStart - back
  }

  /** The windows of the text from start on. */
  ghost function Windows(text: string, maxChars: nat, back: nat, trim: Trimmer, start: nat): seq<Window>
    requires maxChars > 0 && start <= |text|
    decreases |text| - start
  {
    if start == |text| then []
    else if start + HardSize(maxChars) >= |text| then [trim(start, |text|)]
    else
      BreakInside(text, start, maxChars);
      var at := BreakAt(text, start, maxChars);
      [trim(start, at)] + Windows(text, maxChars, back, trim, Resume(start, Past(text, at), back))
  }

  /** The chunks of a text as windows: the text itself when it is short, else the windows not empty. */
  ghost function Split(text: string, maxChars: nat, overlap: int, trim: Trimmer): seq<Window>
    requires maxChars > 0
  {
    if |text| <= maxChars then [Window(0, |text|)]
    else NonEmpty(Windows(text, maxChars, EffectiveOverlap(maxChars, overlap), trim, 0))
  }

  /* ---- What the chunks hold ---- */

  ghost predicate Held(windows: seq<Window>, p: int) {
    exists k :: 0 <= k < |windows| && windows[k].lo <= p < windows[k].hi
  }

  /** Every byte before n that is not white space lies in a window. */
  ghost predicate HeldTo(space: Spaces, windows: seq<Window>, n: int) {
    forall p :: 0 <= p < n && !space(p) ==> Held(windows, p)
  }

  /** The bytes from lo up to hi that are not white space. */
  ghost function Marks(text: string, space: Spaces, lo: nat, hi: nat): string
    requires hi <= |text|
    decreases hi
  {
    if lo >= hi then "" else Marks(text, space, lo, hi - 1) + if space(hi - 1) then "" else [text[hi - 1]]
  }

  ghost predicate InText(text: string, windows: seq<Window>) {
    forall k :: 0 <= k < |windows| ==> 0 <= windows[k].lo <= windows[k].hi <= |text|
  }

  ghost function AllMarks(text: string, space: Spaces, windows: seq<Window>): string
    requires InText(text, windows)
  {
    if windows == [] then "" else
      var last := windows[|windows| - 1];
      AllMarks(text, space, windows[..|windows| - 1]) + Marks(text, space, last.lo, last.hi)
  }

  lemma {:induction false} MarksSplit(text: string, space: Spaces, lo: nat, mid: nat, hi: nat)
    requires lo <= mid <= hi <= |text|
    ensures Marks(text, space, lo, hi) == Marks(text, space, lo, mid) + Marks(text, space, mid, hi)
    decreases hi
  {
    if mid < hi {
      MarksSplit(text, space, lo, mid, hi - 1);
    }
  }

  lemma {:induction false} MarksGap(text: string, space: Spaces, lo: nat, hi: nat)
    requires hi <= |text| && Gap(space, lo, hi)
    ensures Marks(text, space, lo, hi) == ""
    decreases hi
  {
    if lo < hi {
      MarksGap(text, space, lo, hi - 1);
    }
  }

  lemma MarksTrim(text: string, space: Spaces, lo: nat, hi: nat, w: Window)
    requires lo <= hi <= |text| && TrimsTo(space, lo, hi, w)
    ensures Marks(text, space, w.lo, w.hi) == Marks(text, space, lo, hi)
  {
    MarksSplit(text, space, lo, w.lo, hi);
    MarksSplit(text, space, w.lo, w.hi, hi);
    MarksGap(text, space, lo, w.lo);
    MarksGap(text, space, w.hi, hi);
  }

  /** What holds once the text before start is dealt with; with no overlap nothing is held twice. */
  ghost predicate Covered(text: string, space: Spaces, maxChars: nat, windows: seq<Window>, start: nat, once: bool)
    requires start <= |text|
  {
    && InText(text, windows) && HeldTo(space, windows, start)
    && (forall k :: 0 <= k < |windows| ==> windows[k].hi - windows[k].lo <= HardSize(maxChars))
    && (once ==> AllMarks(text, space, windows) == Marks(text, space, 0, start))
  }

  /** One more trimmed window, and a start no further than what follows its break. */
  lemma CoveredNext(text: string, space: Spaces, maxChars: nat, windows: seq<Window>, start: nat, once: bool, end: nat,
                    next: nat, w: Window)
    requires start <= end <= |text| && start <= next <= |text| && Covered(text, space, maxChars, windows, start, once)
    requires TrimsTo(space, start, end, w) && end - start <= HardSize(maxChars)
    requires next > end ==> Gap(space, end, next)
    requires once ==> next >= end
    ensures Covered(text, space, maxChars, windows + [w], next, once)
  {
    var windows' := windows + [w];
    forall p | 0 <= p < next && !space(p)
      ensures Held(windows', p)
    {
      if p < start {
        var k :| 0 <= k < |windows| && windows[k].lo <= p < windows[k].hi;
        assert windows'[k] == windows[k];
      } else {
        assert windows'[|windows|] == w;
      }
    }
    if once {
      assert windows'[..|windows|] == windows;
      MarksTrim(text, space, start, end, w);
      MarksSplit(text, space, 0, start, next);
      MarksSplit(text, space, start, end, next);
      MarksGap(text, space, end, next);
    }
  }

  /** The windows that are not empty, in order. */
  ghost function NonEmpty(windows: seq<Window>): seq<Window> {
    if windows == [] then [] else
      var last := windows[|windows| - 1];
      NonEmpty(windows[..|windows| - 1]) + if last.lo < last.hi then [last] else []
  }

  lemma {:induction false} NonEmptyFits(text: string, maxChars: nat, windows: seq<Window>)
    requires InText(text, windows)
    requires forall k :: 0 <= k < |windows| ==> windows[k].hi - windows[k].lo <= HardSize(maxChars)
    ensures InText(text, NonEmpty(windows))
    ensures forall k :: 0 <= k < |NonEmpty(windows)| ==>
      NonEmpty(windows)[k].hi - NonEmpty(windows)[k].lo <= HardSize(maxChars)
  {
    if windows == [] {
    } else {
      NonEmptyFits(text, maxChars, windows[..|windows| - 1]);
    }
  }

  lemma {:induction false} NonEmptyHolds(windows: seq<Window>, p: int)
    ensures Held(NonEmpty(windows), p) <==> Held(windows, p)
  {
    hide Held;
    if windows == [] {
    } else {
      var front, last := windows[..|windows| - 1], windows[|windows| - 1];
      NonEmptyHolds(front, p);
      HeldLast(front, last, p);
      HeldLast(NonEmpty(front), last, p);
      assert windows == front + [last];
      assert last.lo < last.hi || NonEmpty(windows) == NonEmpty(front);
    }
  }

  lemma {:induction false} NonEmptyMarks(text: string, space: Spaces, windows: seq<Window>)
    requires InText(text, windows) && InText(text, NonEmpty(windows))
    ensures AllMarks(text, space, NonEmpty(windows)) == AllMarks(text, space, windows)
  {
    hide Marks;
    if windows == [] {
    } else {
      var front, last := windows[..|windows| - 1], windows[|windows| - 1];
      if last.lo < last.hi {
        assert NonEmpty(windows)[..|NonEmpty(front)|] == NonEmpty(front);
        assert forall k :: 0 <= k < |NonEmpty(front)| ==> NonEmpty(front)[k] == NonEmpty(windows)[k];
        NonEmptyMarks(text, space, front);
      } else {
        assert NonEmpty(windows) == NonEmpty(front);
        NonEmptyMarks(text, space, front);
        NoMarks(text, space, last.lo, last.hi);
      }
    }
  }

  lemma NoMarks(text: string, space: Spaces, lo: nat, hi: nat)
    requires hi <= |text| && lo >= hi
    ensures Marks(text, space, lo, hi) == ""
  {
  }

  lemma HeldLast(front: seq<Window>, last: Window, p: int)
    ensures Held(front + [last], p) <==> Held(front, p) || last.lo <= p < last.hi
  {
    if Held(front, p) {
      var k :| 0 <= k < |front| && front[k].lo <= p < front[k].hi;
      assert (front + [last])[k] == front[k];
    }
    if last.lo <= p < last.hi {
      assert (front + [last])[|front|] == last;
    }
  }

  /** The chunk texts are those of the windows. */
  ghost predicate Reads(text: string, windows: seq<Window>, chunks: seq<string>) {
    && InText(text, windows) && |chunks| == |windows|
    && forall k :: 0 <= k < |chunks| ==> chunks[k] == text[windows[k].lo..windows[k].hi]
  }

  function EffectiveOverlap(maxChars: nat, overlap: int): (r: nat)
    requires maxChars > 0
    ensures r < maxChars && (0 <= overlap < maxChars ==> r == overlap) && (overlap <= 0 ==> r == 0)
    ensures overlap >= maxChars ==> r == maxChars / 2
  {
    if overlap < 0 then 0 else if overlap >= maxChars then maxChars / 2 else overlap
  }

  /** What the chunks of a text must be. */
  ghost predicate IsSplit(text: string, space: Spaces, maxChars: nat, overlap: int, chunks: seq<string>,
                          windows: seq<Window>) {
    && Reads(text, windows, chunks) && HeldTo(space, windows, |text|)
    && (forall k :: 0 <= k < |chunks| ==> |chunks[k]| <= HardSize(maxChars))
    && (overlap <= 0 ==> AllMarks(text, space, windows) == Marks(text, space, 0, |text|))
  }

  /* ---- The spans before trimming ---- */

  /** The windows before they are trimmed. */
  ghost function Spans(text: string, maxChars: nat, back: nat, start: nat): seq<Window>
    requires maxChars > 0 && start <= |text|
    decreases |text| - start
  {
    if start == |text| then []
    else if start + HardSize(maxChars) >= |text| then [Window(start, |text|)]
    else
      BreakInside(text, start, maxChars);
      var at := BreakAt(text, start, maxChars);
      [Window(start, at)] + Spans(text, maxChars, back, Resume(start, Past(text, at), back))
  }

  lemma {:induction false} SpansTrimmed(text: string, maxChars: nat, back: nat, trim: Trimmer, start: nat)
    requires maxChars > 0 && start <= |text|
    ensures |Spans(text, maxChars, back, start)| == |Windows(text, maxChars, back, trim, start)|
    ensures forall k :: 0 <= k < |Spans(text, maxChars, back, start)| ==>
      Windows(text, maxChars, back, trim, start)[k]
      == trim(Spans(text, maxChars, back, start)[k].lo, Spans(text, maxChars, back, start)[k].hi)
    decreases |text| - start
  {
    hide BreakAt, IsBreak;
    if start == |text| || start + HardSize(maxChars) >= |text| {
    } else {
      BreakInside(text, start, maxChars);
      SpansTrimmed(text, maxChars, back, trim, Resume(start, Past(text, BreakAt(text, start, maxChars)), back));
    }
  }

  /**
    The text goes on at next after a span that ends at a break: past a blank line there, and
    back by the overlap, or at the second byte of the span where that would not get further.
  */
  ghost predicate Follows(text: string, maxChars: nat, overlap: nat, span: Window, next: int) {
    && 0 <= span.lo <= span.hi && span.lo + maxChars + maxChars / 5 < |text|
    && IsBreak(text, span.lo, maxChars, span.hi)
    && var e := if Blank(text, span.hi) then span.hi + 2 else span.hi;
    span.lo < next <= e && e - next <= overlap && (e - next < overlap ==> next == span.lo + 1)
  }

  /** The spans follow one another from start to the end of the text. */
  ghost predicate SpansFrom(text: string, maxChars: nat, overlap: nat, start: int, spans: seq<Window>) {
    && (if spans == [] then start == |text| else spans[0].lo == start)
    && (forall k :: 0 <= k < |spans| - 1 ==> Follows(text, maxChars, overlap, spans[k], spans[k + 1].lo))
    && (spans != [] ==> LastSpan(text, maxChars, overlap, spans[|spans| - 1]))
  }

  ghost predicate LastSpan(text: string, maxChars: nat, overlap: nat, span: Window) {
    || (span.lo < span.hi == |text| <= span.lo + maxChars + maxChars / 5)
    || Follows(text, maxChars, overlap, span, |text|)
  }

  lemma {:induction false} SpansFollow(text: string, maxChars: nat, back: nat, start: nat)
    requires maxChars > 0 && start <= |text|
    ensures SpansFrom(text, maxChars, back, start, Spans(text, maxChars, back, start))
    decreases |text| - start
  {
    hide BreakAt, IsBreak;
    if start == |text| || start + HardSize(maxChars) >= |text| {
    } else {
      BreakInside(text, start, maxChars);
      var at := BreakAt(text, start, maxChars);
      var next := Resume(start, Past(text, at), back);
      SpansFollow(text, maxChars, back, next);
      assert Follows(text, maxChars, back, Window(start, at), next);
      hide Follows;
      var rest := Spans(text, maxChars, back, next);
      var all := [Window(start, at)] + rest;
      forall k | 0 <= k < |all| - 1
        ensures Follows(text, maxChars, back, all[k], all[k + 1].lo)
      {
        if k > 0 {
          assert Follows(text, maxChars, back, rest[k - 1], rest[(k - 1) + 1].lo);
        }
      }
    }
  }

  /** The chunks are the trimmed spans at the given places, which are those not empty. */
  ghost predicate ChunksAt(text: string, trim: Trimmer, spans: seq<Window>, chunks: seq<string>, places: seq<nat>) {
    && |places| == |chunks|
    && (forall i :: 0 <= i < |places| ==> places[i] < |spans| && IsChunk(text, trim, spans[places[i]], chunks[i]))
    && (forall i, j :: 0 <= i < j < |places| ==> places[i] < places[j])
    && (forall k: nat :: k in places <==> k < |spans| && !TrimsAway(trim, spans[k]))
  }

  ghost predicate IsChunk(text: string, trim: Trimmer, span: Window, chunk: string) {
    var w := trim(span.lo, span.hi);
    0 <= w.lo <= w.hi <= |text| && chunk == text[w.lo..w.hi]
  }

  ghost predicate TrimsAway(trim: Trimmer, span: Window) {
    trim(span.lo, span.hi).lo >= trim(span.lo, span.hi).hi
  }

  ghost predicate ChunksOf(text: string, trim: Trimmer, spans: seq<Window>, chunks: seq<string>) {
    exists places :: ChunksAt(text, trim, spans, chunks, places)
  }

  /** Where the windows that are not empty come from. */
  ghost predicate PlacesOf(windows: seq<Window>, kept: seq<Window>, places: seq<nat>) {
    && |places| == |kept|
    && (forall i :: 0 <= i < |places| ==> places[i] < |windows| && kept[i] == windows[places[i]])
    && (forall i, j :: 0 <= i < j < |places| ==> places[i] < places[j])
    && (forall k: nat :: k in places <==> k < |windows| && windows[k].lo < windows[k].hi)
  }

  lemma PlacesNext(windows: seq<Window>, kept: seq<Window>, places: seq<nat>)
    requires windows != [] && PlacesOf(windows[..|windows| - 1], kept, places)
    ensures var n, last := |windows| - 1, windows[|windows| - 1];
      if last.lo < last.hi then PlacesOf(windows, kept + [last], places + [n]) else PlacesOf(windows, kept, places)
  {
    var n, last := |windows| - 1, windows[|windows| - 1];
    forall i | 0 <= i < |places|
      ensures places[i] < n && kept[i] == windows[places[i]]
    {
      assert windows[..n][places[i]] == windows[places[i]];
    }
    var next: seq<nat> := if last.lo < last.hi then places + [n] else places;
    forall k: nat
      ensures k in next <==> k < |windows| && windows[k].lo < windows[k].hi
    {
      assert k in places <==> k < n && windows[..n][k].lo < windows[..n][k].hi;
      assert k in next <==> k in places || (k == n && last.lo < last.hi);
    }
  }

  lemma {:induction false} NonEmptyPlaces(windows: seq<Window>) returns (places: seq<nat>)
    ensures PlacesOf(windows, NonEmpty(windows), places)
  {
    if windows == [] {
      places := [];
    } else {
      hide PlacesOf;
      var n, last := |windows| - 1, windows[|windows| - 1];
      places := NonEmptyPlaces(windows[..n]);
      PlacesNext(windows, NonEmpty(windows[..n]), places);
      places := if last.lo < last.hi then places + [n] else places;
    }
  }

  lemma {:induction false} ChunksOfSpans(text: string, maxChars: nat, back: nat, trim: Trimmer, chunks: seq<string>)
    requires maxChars > 0 && Reads(text, NonEmpty(Windows(text, maxChars, back, trim, 0)), chunks)
    ensures ChunksOf(text, trim, Spans(text, maxChars, back, 0), chunks)
  {
    hide Windows, Spans, NonEmpty;
    var windows, spans := Windows(text, maxChars, back, trim, 0), Spans(text, maxChars, back, 0);
    SpansTrimmed(text, maxChars, back, trim, 0);
    var places := NonEmptyPlaces(windows);
    assert ChunksAt(text, trim, spans, chunks, places);
  }

  /** The text before start is cut into the given windows, and the rest is to be cut from start. */
  ghost predicate CutTo(text: string, maxChars: nat, back: nat, trim: Trimmer, once: bool, space: Spaces,
                        windows: seq<Window>, out: seq<string>, start: nat)
    requires maxChars > 0
  {
    && start <= |text| && Covered(text, space, maxChars, windows, start, once) && Reads(text, windows, out)
    && windows + Windows(text, maxChars, back, trim, start) == Windows(text, maxChars, back, trim, 0)
  }

  lemma NothingCut(text: string, maxChars: nat, back: nat, trim: Trimmer, once: bool, space: Spaces)
    requires maxChars > 0
    ensures CutTo(text, maxChars, back, trim, once, space, [], [], 0)
  {
    assert [] + Windows(text, maxChars, back, trim, 0) == Windows(text, maxChars, back, trim, 0);
  }

  lemma CutLast(text: string, maxChars: nat, back: nat, trim: Trimmer, once: bool, space: Spaces, windows: seq<Window>,
                out: seq<string>, start: nat)
    requires maxChars > 0 && IsTrim(text, space, trim)
    requires CutTo(text, maxChars, back, trim, once, space, windows, out, start)
    requires start < |text| <= start + HardSize(maxChars)
    ensures var w := trim(start, |text|);
      && 0 <= w.lo <= w.hi <= |text|
      && CutTo(text, maxChars, back, trim, once, space, windows + [w], out + [text[w.lo..w.hi]], |text|)
  {
    hide Covered, Reads, Windows, IsTrim;
    var w := trim(start, |text|);
    TrimAt(text, space, trim, start, |text|);
    CoveredNext(text, space, maxChars, windows, start, once, |text|, |text|, w);
    ReadsNext(text, windows, out, start, |text|, space, w);
    LastWindow(text, maxChars, back, trim, start, windows);
  }

  lemma CutNext(text: string, maxChars: nat, back: nat, trim: Trimmer, once: bool, space: Spaces, windows: seq<Window>,
                out: seq<string>, start: nat)
    requires maxChars > 0 && IsTrim(text, space, trim) && (once ==> back == 0)
    requires CutTo(text, maxChars, back, trim, once, space, windows, out, start) && start + HardSize(maxChars) < |text|
    ensures var at := BreakAt(text, start, maxChars);
      var w, next := trim(start, at), Resume(start, Past(text, at), back);
      && 0 <= w.lo <= w.hi <= |text|
      && CutTo(text, maxChars, back, trim, once, space, windows + [w], out + [text[w.lo..w.hi]], next)
  {
    hide Covered, Reads, Windows, IsTrim, BreakAt, IsBreak;
    BreakInside(text, start, maxChars);
    var at := BreakAt(text, start, maxChars);
    var w, next := trim(start, at), Resume(start, Past(text, at), back);
    TrimAt(text, space, trim, start, at);
    SkippedBlank(text, space, trim, at, next);
    CoveredNext(text, space, maxChars, windows, start, once, at, next, w);
    ReadsNext(text, windows, out, start, at, space, w);
    MoreWindows(text, maxChars, back, trim, start, windows);
  }

  lemma CutAll(text: string, maxChars: nat, back: nat, trim: Trimmer, once: bool, space: Spaces, windows: seq<Window>,
               out: seq<string>)
    requires maxChars > 0 && CutTo(text, maxChars, back, trim, once, space, windows, out, |text|)
    ensures windows == Windows(text, maxChars, back, trim, 0) && Reads(text, windows, out)
    ensures Covered(text, space, maxChars, windows, |text|, once)
  {
    assert windows + Windows(text, maxChars, back, trim, |text|) == windows;
  }

  /** The loop: one trimmed window after another, until the rest of the text fits. */
  method CutWindows(text: string, maxChars: nat, back: nat, trim: Trimmer, ghost once: bool, ghost space: Spaces)
    returns (out: seq<string>, ghost windows: seq<Window>)
    requires maxChars > 0 && IsTrim(text, space, trim) && (once ==> back == 0)
    ensures windows == Windows(text, maxChars, back, trim, 0) && Reads(text, windows, out)
    ensures Covered(text, space, maxChars, windows, |text|, once)
  {
    hide CutTo, IsTrim, Covered, Reads, Windows, BreakAt, IsBreak, Blank;
    out, windows := [], [];
    var start: nat := 0;
    NothingCut(text, maxChars, back, trim, once, space);
    while start < |text|
      invariant 0 <= start <= |text| && CutTo(text, maxChars, back, trim, once, space, windows, out, start)
    {
      var hardEnd := start + maxChars + maxChars / 5;
      if hardEnd >= |text| {
        CutLast(text, maxChars, back, trim, once, space, windows, out, start);
        var w := trim(start, |text|);
        out, windows := out + [text[w.lo..w.hi]], windows + [w];
        start := |text|;
        break;
      }
      var breakAt, nextStart := FindBreak(text, start, maxChars);
      CutNext(text, maxChars, back, trim, once, space, windows, out, start);
      var w := trim(start, breakAt);
      out, windows := out + [text[w.lo..w.hi]], windows + [w];
      var next := nextStart as int - back as int;
      if next <= start {
        next := start + 1;
      }
      start := next;
    }
    CutAll(text, maxChars, back, trim, once, space, windows, out);
  }

  /**
    Splits for every text, positive size and overlap: each byte that is not white space is in
    a chunk, no chunk exceeds the size by more than a fifth, and without overlap the bytes of
    the chunks that are not white space are exactly those of the text, in order.
  */
  method SplitText(text: string, maxChars: nat, overlap: int, trim: Trimmer, ghost space: Spaces)
    returns (chunks: seq<string>, ghost windows: seq<Window>, ghost spans: seq<Window>)
    requires maxChars > 0 && IsTrim(text, space, trim)
    ensures windows == Split(text, maxChars, overlap, trim) && Reads(text, windows, chunks)
    ensures IsSplit(text, space, maxChars, overlap, chunks, windows)
    ensures |text| > maxChars ==> forall k :: 0 <= k < |chunks| ==> chunks[k] != ""
    ensures |text| <= maxChars ==> chunks == [text]
    ensures |text| > maxChars ==>
      && SpansFrom(text, maxChars, if overlap < 0 then 0 else if overlap >= maxChars then maxChars / 2 else overlap, 0, spans)
      && ChunksOf(text, trim, spans, chunks)
  {
    hide Covered, IsTrim, Reads, IsSplit, Windows, NonEmpty, Spans, SpansFrom, ChunksOf;
    if |text| <= maxChars {
      windows := [Window(0, |text|)];
      WholeText(text, space, maxChars, overlap);
      return [text], windows, windows;
    }
    var back := EffectiveOverlap(maxChars, overlap);
    spans := Spans(text, maxChars, back, 0);
    SpansFollow(text, maxChars, back, 0);
    var out;
    out, windows := CutWindows(text, maxChars, back, trim, overlap <= 0, space);
    ghost var kept := windows;
    chunks := DropEmpty(text, out, kept);
    windows := NonEmpty(kept);
    CleanedSplits(text, space, maxChars, overlap, kept, chunks);
    ChunksOfSpans(text, maxChars, back, trim, chunks);
  }

  /** The final filter: chunks that are empty once trimmed are left out. */
  method DropEmpty(text: string, out: seq<string>, ghost windows: seq<Window>) returns (cleaned: seq<string>)
    requires Reads(text, windows, out)
    ensures Reads(text, NonEmpty(windows), cleaned) && forall k :: 0 <= k < |cleaned| ==> cleaned[k] != ""
  {
    hide NonEmpty, Reads;
    cleaned := [];
    NothingRead(text, windows, out);
    for i := 0 to |out|
      invariant Reads(text, NonEmpty(windows[..i]), cleaned)
      invariant forall k :: 0 <= k < |cleaned| ==> cleaned[k] != ""
    {
      KeepsNext(text, windows, out, i, cleaned);
      if out[i] != "" {
        cleaned := cleaned + [out[i]];
      }
    }
    assert windows[..|out|] == windows;
  }

  lemma NothingRead(text: string, windows: seq<Window>, out: seq<string>)
    requires Reads(text, windows, out)
    ensures |windows| == |out| && Reads(text, NonEmpty(windows[..0]), [])
  {
  }

  lemma KeepsNext(text: string, windows: seq<Window>, out: seq<string>, i: nat, cleaned: seq<string>)
    requires Reads(text, windows, out) && i < |windows| == |out| && Reads(text, NonEmpty(windows[..i]), cleaned)
    ensures Reads(text, NonEmpty(windows[..i + 1]), if out[i] == "" then cleaned else cleaned + [out[i]])
  {
    assert windows[..i + 1][..i] == windows[..i];
    assert windows[..i + 1][i] == windows[i];
  }

  lemma ReadsNext(text: string, windows: seq<Window>, chunks: seq<string>, lo: nat, hi: nat, space: Spaces, w: Window)
    requires Reads(text, windows, chunks) && TrimsTo(space, lo, hi, w) && hi <= |text|
    ensures 0 <= w.lo <= w.hi <= |text| && Reads(text, windows + [w], chunks + [text[w.lo..w.hi]])
  {
  }

  lemma LastWindow(text: string, maxChars: nat, back: nat, trim: Trimmer, start: nat, windows: seq<Window>)
    requires maxChars > 0 && start < |text| <= start + HardSize(maxChars)
    ensures windows + Windows(text, maxChars, back, trim, start)
      == windows + [trim(start, |text|)] + Windows(text, maxChars, back, trim, |text|)
  {
  }

  lemma MoreWindows(text: string, maxChars: nat, back: nat, trim: Trimmer, start: nat, windows: seq<Window>)
    requires maxChars > 0 && start + HardSize(maxChars) < |text|
    ensures var at := BreakAt(text, start, maxChars);
      var next := Resume(start, Past(text, at), back);
      && next <= |text|
      && windows + Windows(text, maxChars, back, trim, start)
         == windows + [trim(start, at)] + Windows(text, maxChars, back, trim, next)
  {
    BreakInside(text, start, maxChars);
  }

  lemma TrimAt(text: string, space: Spaces, trim: Trimmer, lo: int, hi: int)
    requires IsTrim(text, space, trim) && 0 <= lo <= hi <= |text|
    ensures TrimsTo(space, lo, hi, trim(lo, hi))
  {
  }

  lemma SkippedBlank(text: string, space: Spaces, trim: Trimmer, breakAt: nat, next: int)
    requires IsTrim(text, space, trim) && breakAt <= |text|
    requires next <= if Blank(text, breakAt) then breakAt + 2 else breakAt
    ensures next > breakAt ==> Gap(space, breakAt, next)
  {
  }

  lemma WholeText(text: string, space: Spaces, maxChars: nat, overlap: int)
    requires |text| <= maxChars
    ensures IsSplit(text, space, maxChars, overlap, [text], [Window(0, |text|)])
    ensures Reads(text, [Window(0, |text|)], [text])
  {
    var windows := [Window(0, |text|)];
    forall p | 0 <= p < |text|
      ensures Held(windows, p)
    {
      assert windows[0].lo <= p < windows[0].hi;
    }
    assert InText(text, windows) && windows[..0] == [] && text[0..|text|] == text;
    assert AllMarks(text, space, []) == "";
  }

  lemma CleanedSplits(text: string, space: Spaces, maxChars: nat, overlap: int, windows: seq<Window>,
                      chunks: seq<string>)
    requires Covered(text, space, maxChars, windows, |text|, overlap <= 0) && Reads(text, NonEmpty(windows), chunks)
    ensures IsSplit(text, space, maxChars, overlap, chunks, NonEmpty(windows))
  {
    hide Held, AllMarks, Marks, NonEmpty;
    NonEmptyFits(text, maxChars, windows);
    NonEmptyMarks(text, space, windows);
    forall p
      ensures Held(NonEmpty(windows), p) <==> Held(windows, p)
    {
      NonEmptyHolds(windows, p);
    }
  }

  /* ---- Trimming the white space of ASCII ---- */

  predicate IsAsciiSpace(c: char) {
    c == ' ' || c == '\t' || c == '\n' || c == '\U{000B}' || c == '\U{000C}' || c == '\r'
  }

  function TrimLeft(text: string, lo: nat, hi: nat): (r: nat)
    requires lo <= hi <= |text|
    ensures lo <= r <= hi && forall p :: lo <= p < r ==> IsAsciiSpace(text[p])
    decreases hi - lo
  {
    if lo < hi && IsAsciiSpace(text[lo]) then TrimLeft(text, lo + 1, hi) else lo
  }

  function TrimRight(text: string, lo: nat, hi: nat): (r: nat)
    requires lo <= hi <= |text|
    ensures lo <= r <= hi && forall p :: r <= p < hi ==> IsAsciiSpace(text[p])
    decreases hi - lo
  {
    if lo < hi && IsAsciiSpace(text[hi - 1]) then TrimRight(text, lo, hi - 1) else hi
  }

  function TrimSpace(text: string, lo: int, hi: int): Window {
    if 0 <= lo <= hi <= |text| then
      var left := TrimLeft(text, lo, hi);
      Window(left, TrimRight(text, left, hi))
    else Window(lo, hi)
  }

  /** For a text whose white space is ASCII the trimmer is what the split asks for. */
  lemma AsciiTrims(text: string)
    ensures IsTrim(text, p => 0 <= p < |text| && IsAsciiSpace(text[p]), (lo, hi) => TrimSpace(text, lo, hi))
  {
  }

  /* ---- The size of a chunk ---- */

  lemma {:induction false} WindowsFit(text: string, maxChars: nat, back: nat, trim: Trimmer, space: Spaces, start: nat)
    requires maxChars > 0 && start <= |text| && IsTrim(text, space, trim)
    ensures InText(text, Windows(text, maxChars, back, trim, start))
    ensures forall k :: 0 <= k < |Windows(text, maxChars, back, trim, start)| ==>
      Windows(text, maxChars, back, trim, start)[k].hi - Windows(text, maxChars, back, trim, start)[k].lo <= HardSize(maxChars)
    decreases |text| - start
  {
    hide IsTrim, BreakAt;
    if start < |text| {
      if start + HardSize(maxChars) >= |text| {
        TrimAt(text, space, trim, start, |text|);
      } else {
        BreakInside(text, start, maxChars);
        var at := BreakAt(text, start, maxChars);
        TrimAt(text, space, trim, start, at);
        WindowsFit(text, maxChars, back, trim, space, Resume(start, Past(text, at), back));
      }
    }
  }

  /** No chunk of this text is larger than the size asked for. */
  ghost predicate KeepsSize(text: string, maxChars: nat, overlap: int, trim: Trimmer)
    requires maxChars > 0
  {
    forall k :: 0 <= k < |Split(text, maxChars, overlap, trim)| ==>
      Split(text, maxChars, overlap, trim)[k].hi - Split(text, maxChars, overlap, trim)[k].lo <= maxChars
  }

  ghost predicate AlwaysKeepsSize(maxChars: nat)
    requires maxChars > 0
  {
    forall text, space, overlap, trim :: IsTrim(text, space, trim) ==> KeepsSize(text, maxChars, overlap, trim)
  }

  /** One byte more than the size asked for stays in one chunk, from size five on. */
  lemma OneByteOver(maxChars: nat)
    requires maxChars >= 5
    ensures !AlwaysKeepsSize(maxChars)
  {
    var text: string := seq(maxChars + 1, i => 'a');
    var space: Spaces := p => false;
    var trim: Trimmer := (lo, hi) => Window(lo, hi);
    assert IsTrim(text, space, trim);
    assert Windows(text, maxChars, 0, trim, 0) == [Window(0, maxChars + 1)];
    assert Split(text, maxChars, 0, trim) == NonEmpty([Window(0, maxChars + 1)]) == [Window(0, maxChars + 1)] by {
      assert [Window(0, maxChars + 1)][..0] == [];
      assert NonEmpty([]) == [];
    }
    assert !KeepsSize(text, maxChars, 0, trim);
  }

  /** Chunks are no larger than asked for, whatever the text, exactly when the size asked for is below five. */
  lemma SizeAsDocumentedIff(maxChars: nat)
    requires maxChars > 0
    ensures AlwaysKeepsSize(maxChars) <==> maxChars < 5
  {
    if maxChars >= 5 {
      OneByteOver(maxChars);
    } else {
      forall text: string, space, overlap: int, trim | IsTrim(text, space, trim)
        ensures KeepsSize(text, maxChars, overlap, trim)
      {
        SmallKeeps(text, maxChars, overlap, trim, space);
      }
    }
  }

  lemma SmallKeeps(text: string, maxChars: nat, overlap: int, trim: Trimmer, space: Spaces)
    requires 0 < maxChars < 5 && IsTrim(text, space, trim)
    ensures KeepsSize(text, maxChars, overlap, trim)
  {
    hide Windows, NonEmpty, IsTrim;
    var back := EffectiveOverlap(maxChars, overlap);
    WindowsFit(text, maxChars, back, trim, space, 0);
    NonEmptyFits(text, maxChars, Windows(text, maxChars, back, trim, 0));
  }
}
