/** Chunking a file for mining: pieces of bounded length that lose no visible character. */
module Chunking {
  import opened EventLog
  import opened Text

  const BREAK := "\n\n"

  // ---------------------------------------------------------------------------
  // Paragraphs
  // ---------------------------------------------------------------------------

  predicate BreakAt(s: string, i: nat) {
    i + 2 <= |s| && s[i..i + 2] == BREAK
  }

  /** Where the first blank line from `from` on starts; the length of the text when there is
      none. */
  function FindBreak(s: string, from: nat): (i: nat)
    requires from <= |s|
    ensures from <= i <= |s|
    ensures i < |s| ==> BreakAt(s, i)
    ensures forall j :: from <= j < i ==> !BreakAt(s, j)
    decreases |s| - from
  {
    if from + 2 > |s| then |s| else if BreakAt(s, from) then from else FindBreak(s, from + 1)
  }

  /** `text.split("\n\n")`. */
  function Paragraphs(s: string): (ps: seq<string>)
    ensures ps != []
    decreases |s|
  {
    var i := FindBreak(s, 0);
    if i == |s| then [s] else [s[..i]] + Paragraphs(s[i + 2..])
  }

  lemma AroundBreak(s: string, i: nat)
    requires BreakAt(s, i)
    ensures s == s[..i] + BREAK + s[i + 2..]
  {
  }

  lemma {:induction false} ParagraphsJoin(s: string)
    ensures Join(BREAK, Paragraphs(s)) == s
    decreases |s|
  {
    var i := FindBreak(s, 0);
    if i < |s| {
      var rest := Paragraphs(s[i + 2..]);
      ParagraphsJoin(s[i + 2..]);
      JoinCons(BREAK, s[..i], rest);
      assert Paragraphs(s) == [s[..i]] + rest;
      AroundBreak(s, i);
    }
  }

  predicate BlankLineIn(p: string) {
    exists j :: 0 <= j < |p| - 1 && p[j] == '\n' && p[j + 1] == '\n'
  }

  /** No paragraph has a blank line in it, and the first one is where the text is split: a
      paragraph with another after it does not end in a line break. With `ParagraphsJoin`
      this leaves one way to split a text. */
  lemma {:induction false} ParagraphsExact(s: string, k: nat)
    requires k < |Paragraphs(s)|
    ensures !BlankLineIn(Paragraphs(s)[k])
    ensures k < |Paragraphs(s)| - 1 && Paragraphs(s)[k] != "" ==>
              Paragraphs(s)[k][|Paragraphs(s)[k]| - 1] != '\n'
    decreases |s|
  {
    var i := FindBreak(s, 0);
    if i < |s| && k > 0 {
      ParagraphsExact(s[i + 2..], k - 1);
    } else {
      assert Paragraphs(s)[k] == s[..i];
      NoneBefore(s, i);
    }
  }

  lemma BreakSpelled(s: string, i: nat)
    ensures BreakAt(s, i) <==> i + 2 <= |s| && s[i] == '\n' && s[i + 1] == '\n'
  {
    assert i + 2 <= |s| ==> s[i..i + 2] == [s[i], s[i + 1]];
  }

  lemma NoneBefore(s: string, i: nat)
    requires i == FindBreak(s, 0)
    ensures !BlankLineIn(s[..i])
    ensures 0 < i < |s| ==> s[i - 1] != '\n'
  {
    forall j | 0 <= j < i - 1
      ensures !(s[j] == '\n' && s[j + 1] == '\n')
    {
      BreakSpelled(s, j);
    }
    if 0 < i < |s| {
      BreakSpelled(s, i - 1);
      BreakSpelled(s, i);
    }
  }

  // ---------------------------------------------------------------------------
  // Chunks
  // ---------------------------------------------------------------------------

  /** What a reader of the chunks, in order, sees. */
  function Seen(pieces: seq<string>): string {
    if pieces == [] then "" else Seen(pieces[..|pieces| - 1]) + Visible(pieces[|pieces| - 1])
  }

  lemma SeenSnoc(pieces: seq<string>, s: string)
    ensures Seen(pieces + [s]) == Seen(pieces) + Visible(s)
  {
    assert (pieces + [s])[..|pieces|] == pieces;
  }

  lemma Regroup(a: string, b: string, c: string)
    ensures a + b + c == a + (b + c)
  {
  }

  lemma {:induction false} SeenJoined(a: seq<string>, b: seq<string>)
    ensures Seen(a + b) == Seen(a) + Seen(b)
  {
    if b == [] {
      assert a + b == a;
    } else {
      var front, last := b[..|b| - 1], b[|b| - 1];
      SeenJoined(a, front);
      assert a + b == a + front + [last];
      SeenSnoc(a + front, last);
      Regroup(Seen(a), Seen(front), Visible(last));
    }
  }

  /** Joining with blank lines adds nothing visible. */
  lemma {:induction false} SeenOfJoin(pieces: seq<string>)
    ensures Visible(Join(BREAK, pieces)) == Seen(pieces)
  {
    if |pieces| == 1 {
      assert pieces[..0] == [];
    } else if |pieces| > 1 {
      var front, last := pieces[..|pieces| - 1], pieces[|pieces| - 1];
      SeenOfJoin(front);
      BreakInvisible();
      VisibleJoined(Join(BREAK, front) + BREAK, last);
      VisibleJoined(Join(BREAK, front), BREAK);
    }
  }

  lemma BreakInvisible()
    ensures Visible(BREAK) == ""
  {
    BlankIsInvisible(BREAK);
  }

  predicate Bounded(chunks: seq<string>, maxChars: int) {
    forall i :: 0 <= i < |chunks| ==> 0 < |chunks[i]| <= maxChars
  }

  // ---------------------------------------------------------------------------
  // What the loop over the paragraphs makes, for a bound of at least one
  // ---------------------------------------------------------------------------

  /** An overlong paragraph, cut every `maxChars` characters. */
  function Pieces(para: string, maxChars: nat): seq<string>
    requires maxChars >= 1
    decreases |para|
  {
    if para == "" then []
    else if |para| <= maxChars then [para]
    else [para[..maxChars]] + Pieces(para[maxChars..], maxChars)
  }

  function Flushed(chunks: seq<string>, current: string): seq<string> {
    if Blank(current) then chunks else chunks + [current]
  }

  /** One paragraph: joined to the pending chunk if that stays short enough, else the pending
      chunk is finished first. */
  function Placed(chunks: seq<string>, current: string, para: string, maxChars: nat): (seq<string>, string)
    requires maxChars >= 1
  {
    var candidate := if current != "" then current + BREAK + para else para;
    if |candidate| <= maxChars then (chunks, candidate)
    else if |para| > maxChars then (Flushed(chunks, current) + Pieces(para, maxChars), "")
    else (Flushed(chunks, current), para)
  }

  function PlacedAll(ps: seq<string>, maxChars: nat): (seq<string>, string)
    requires maxChars >= 1
  {
    if ps == [] then ([], "")
    else
      var (chunks, current) := PlacedAll(ps[..|ps| - 1], maxChars);
      Placed(chunks, current, ps[|ps| - 1], maxChars)
  }

  function Packed(ps: seq<string>, maxChars: nat): seq<string>
    requires maxChars >= 1
  {
    var (chunks, current) := PlacedAll(ps, maxChars);
    Flushed(chunks, current)
  }

  // -- the pieces of one paragraph ----------------------------------------------

  function Concat(pieces: seq<string>): string {
    if pieces == [] then "" else pieces[0] + Concat(pieces[1..])
  }

  ghost predicate IsSlice(c: string, para: string) {
    exists a, b :: 0 <= a <= b <= |para| && c == para[a..b]
  }

  /** The pieces are the paragraph, in order; each is within the bound, and all but the last
      are as long as that. */
  lemma {:induction false} PiecesExact(para: string, maxChars: nat)
    requires maxChars >= 1
    ensures var pieces := Pieces(para, maxChars);
            && Concat(pieces) == para && Bounded(pieces, maxChars)
            && (forall k :: 0 <= k < |pieces| - 1 ==> |pieces[k]| == maxChars)
            && (forall k :: 0 <= k < |pieces| ==> IsSlice(pieces[k], para))
    decreases |para|
  {
    if 0 < |para| <= maxChars {
      assert para == para[0..|para|];
      assert Concat([para]) == para + Concat([]);
    } else if para != "" {
      var rest := para[maxChars..];
      PiecesExact(rest, maxChars);
      assert para == para[..maxChars] + rest;
      assert para[..maxChars] == para[0..maxChars];
      var pieces := Pieces(para, maxChars);
      assert pieces[1..] == Pieces(rest, maxChars);
      forall k | 0 <= k < |pieces|
        ensures IsSlice(pieces[k], para)
      {
        if k > 0 {
          SliceOfRest(pieces[k], para, maxChars);
        }
      }
    }
  }

  lemma SliceOfRest(c: string, para: string, n: nat)
    requires n <= |para| && IsSlice(c, para[n..])
    ensures IsSlice(c, para)
  {
    var a, b :| 0 <= a <= b <= |para[n..]| && c == para[n..][a..b];
    assert c == para[n + a..n + b];
  }

  lemma {:induction false} ConcatShows(pieces: seq<string>)
    ensures Seen(pieces) == Visible(Concat(pieces))
  {
    if pieces != [] {
      ConcatShows(pieces[1..]);
      assert pieces == [pieces[0]] + pieces[1..];
      SeenJoined([pieces[0]], pieces[1..]);
      SeenSnoc([], pieces[0]);
      VisibleJoined(pieces[0], Concat(pieces[1..]));
    }
  }

  // -- bounded, and nothing visible lost ----------------------------------------

  lemma {:induction false} PlacedShows(ps: seq<string>, maxChars: nat)
    requires maxChars >= 1
    ensures var (chunks, current) := PlacedAll(ps, maxChars);
            Shows(chunks, current, Seen(ps), maxChars)
  {
    if ps != [] {
      var front, para := ps[..|ps| - 1], ps[|ps| - 1];
      PlacedShows(front, maxChars);
      var (chunks, current) := PlacedAll(front, maxChars);
      PlacedStepShows(chunks, current, para, front, maxChars);
      assert ps == front + [para];
    }
  }

  lemma FlushedShows(chunks: seq<string>, current: string, maxChars: nat)
    requires |current| <= maxChars && Bounded(chunks, maxChars)
    ensures Bounded(Flushed(chunks, current), maxChars)
    ensures Seen(Flushed(chunks, current)) == Seen(chunks) + Visible(current)
  {
    BlankIsInvisible(current);
    SeenSnoc(chunks, current);
  }

  /** The chunks and the pending one are within the bound and show this much. */
  predicate Shows(chunks: seq<string>, current: string, seen: string, maxChars: nat) {
    |current| <= maxChars && Bounded(chunks, maxChars) && Seen(chunks) + Visible(current) == seen
  }

  lemma CutShows(flushed: seq<string>, para: string, seen: string, maxChars: nat)
    requires maxChars >= 1 && Bounded(flushed, maxChars) && Seen(flushed) == seen
    ensures Shows(flushed + Pieces(para, maxChars), "", seen + Visible(para), maxChars)
  {
    PiecesExact(para, maxChars);
    ConcatShows(Pieces(para, maxChars));
    SeenJoined(flushed, Pieces(para, maxChars));
  }

  lemma PlacedStepShows(chunks: seq<string>, current: string, para: string, taken: seq<string>, maxChars: nat)
    requires maxChars >= 1 && Shows(chunks, current, Seen(taken), maxChars)
    ensures var (chunks', current') := Placed(chunks, current, para, maxChars);
            Shows(chunks', current', Seen(taken + [para]), maxChars)
  {
    SeenSnoc(taken, para);
    if |if current != "" then current + BREAK + para else para| <= maxChars {
      JoinedShows(chunks, current, para, taken);
    } else {
      FlushedShows(chunks, current, maxChars);
      if |para| > maxChars {
        CutShows(Flushed(chunks, current), para, Seen(taken), maxChars);
      }
    }
  }

  lemma PackedShows(ps: seq<string>, maxChars: nat)
    requires maxChars >= 1
    ensures Bounded(Packed(ps, maxChars), maxChars) && Seen(Packed(ps, maxChars)) == Seen(ps)
  {
    PlacedShows(ps, maxChars);
    var (chunks, current) := PlacedAll(ps, maxChars);
    FlushedShows(chunks, current, maxChars);
  }

  // ---------------------------------------------------------------------------
  // Where each chunk stands in the text
  // ---------------------------------------------------------------------------

  /** The paragraphs from `from` up to `to`. */
  datatype Span = Span(from: nat, to: nat)

  /** The chunk is a run of whole paragraphs as they stand in the text, or cut from one that is
      longer than the bound. */
  ghost predicate Stands(c: string, sp: Span, ps: seq<string>, maxChars: nat) {
    && sp.from < sp.to <= |ps|
    && (c == Join(BREAK, ps[sp.from..sp.to])
        || (sp.to == sp.from + 1 && |ps[sp.from]| > maxChars && IsSlice(c, ps[sp.from])))
  }

  ghost predicate AllBlank(ps: seq<string>, a: nat, b: nat) {
    forall k :: a <= k < b && k < |ps| ==> Blank(ps[k])
  }

  /** The next chunk had to be one of its own: both are cut from one paragraph, the first as
      long as can be; or nothing but blank paragraphs, left out, lies between; or the first
      is cut, or would get too long with the next paragraph. */
  ghost predicate Apart(c: string, sp: Span, next: Span, ps: seq<string>, maxChars: nat)
    requires sp.from < |ps| && next.from < |ps|
  {
    || (sp == next && |ps[sp.from]| > maxChars && |c| == maxChars)
    || (sp.to < next.from && AllBlank(ps, sp.to, next.from))
    || (sp.to == next.from && (|ps[sp.from]| > maxChars || |c| + |BREAK| + |ps[next.from]| > maxChars))
  }

  ghost predicate InBounds(spans: seq<Span>, ps: seq<string>) {
    forall k :: 0 <= k < |spans| ==> spans[k].from < spans[k].to <= |ps|
  }

  ghost function End(spans: seq<Span>): nat {
    if spans == [] then 0 else spans[|spans| - 1].to
  }

  /** Chunk by chunk: each stands in the text, none could have been joined to the one before,
      and what is left out ahead of the first is blank. */
  ghost predicate Laid(chunks: seq<string>, spans: seq<Span>, ps: seq<string>, maxChars: nat) {
    && |spans| == |chunks| && InBounds(spans, ps)
    && (forall k :: 0 <= k < |chunks| ==> Stands(chunks[k], spans[k], ps, maxChars))
    && (forall k :: 1 <= k < |chunks| ==> Apart(chunks[k - 1], spans[k - 1], spans[k], ps, maxChars))
    && (spans != [] ==> AllBlank(ps, 0, spans[0].from))
  }

  /** ... and so is what is left out behind the last. */
  ghost predicate WellChunked(chunks: seq<string>, ps: seq<string>, maxChars: nat) {
    exists spans :: Laid(chunks, spans, ps, maxChars) && AllBlank(ps, End(spans), |ps|)
  }

  /** A chunk of its own may start at this paragraph. */
  ghost predicate MayStart(chunks: seq<string>, spans: seq<Span>, start: nat, ps: seq<string>, maxChars: nat)
    requires |spans| == |chunks| && InBounds(spans, ps)
  {
    && End(spans) <= start < |ps| && AllBlank(ps, End(spans), start)
    && (spans != [] && End(spans) == start ==>
          || |ps[spans[|spans| - 1].from]| > maxChars
          || |chunks[|chunks| - 1]| + |BREAK| + |ps[start]| > maxChars)
  }

  /** The chunks so far, and the pending one, which starts at paragraph `start`. */
  ghost predicate Pending(chunks: seq<string>, spans: seq<Span>, current: string, start: nat, ps: seq<string>,
                          maxChars: nat)
  {
    && Laid(chunks, spans, ps, maxChars)
    && (current == "" ==> AllBlank(ps, End(spans), |ps|))
    && (current != "" ==> MayStart(chunks, spans, start, ps, maxChars) && current == Join(BREAK, ps[start..]))
  }

  lemma LaidStays(chunks: seq<string>, spans: seq<Span>, ps: seq<string>, p: string, maxChars: nat)
    requires Laid(chunks, spans, ps, maxChars)
    ensures Laid(chunks, spans, ps + [p], maxChars)
  {
    var more := ps + [p];
    assert forall k :: 0 <= k < |ps| ==> more[k] == ps[k];
    forall k | 0 <= k < |chunks|
      ensures Stands(chunks[k], spans[k], more, maxChars)
    {
      assert Stands(chunks[k], spans[k], ps, maxChars);
      assert more[spans[k].from..spans[k].to] == ps[spans[k].from..spans[k].to];
    }
    forall k | 1 <= k < |chunks|
      ensures Apart(chunks[k - 1], spans[k - 1], spans[k], more, maxChars)
    {
      assert Apart(chunks[k - 1], spans[k - 1], spans[k], ps, maxChars);
    }
  }

  /** One more chunk, where one may start. */
  lemma LaidNext(chunks: seq<string>, spans: seq<Span>, c: string, sp: Span, ps: seq<string>, maxChars: nat)
    requires Laid(chunks, spans, ps, maxChars) && Stands(c, sp, ps, maxChars)
    requires MayStart(chunks, spans, sp.from, ps, maxChars)
    ensures Laid(chunks + [c], spans + [sp], ps, maxChars)
  {
    var n := |chunks|;
    if n > 0 {
      assert Apart(chunks[n - 1], spans[n - 1], sp, ps, maxChars);
    }
    forall k | 1 <= k < n + 1
      ensures Apart((chunks + [c])[k - 1], (spans + [sp])[k - 1], (spans + [sp])[k], ps, maxChars)
    {
      if k < n {
        assert Apart(chunks[k - 1], spans[k - 1], spans[k], ps, maxChars);
      }
    }
  }

  /** One more piece of the paragraph the last chunk was cut from. */
  lemma LaidPiece(chunks: seq<string>, spans: seq<Span>, c: string, ps: seq<string>, maxChars: nat)
    requires Laid(chunks, spans, ps, maxChars) && spans != []
    requires var sp := spans[|spans| - 1];
             Stands(c, sp, ps, maxChars) && |ps[sp.from]| > maxChars && |chunks[|chunks| - 1]| == maxChars
    ensures Laid(chunks + [c], spans + [spans[|spans| - 1]], ps, maxChars)
  {
    var n, sp := |chunks|, spans[|spans| - 1];
    assert Apart(chunks[n - 1], sp, sp, ps, maxChars);
    forall k | 1 <= k < n + 1
      ensures Apart((chunks + [c])[k - 1], (spans + [sp])[k - 1], (spans + [sp])[k], ps, maxChars)
    {
      if k < n {
        assert Apart(chunks[k - 1], spans[k - 1], spans[k], ps, maxChars);
      }
    }
  }

  ghost function Repeated(sp: Span, n: nat): (r: seq<Span>)
    ensures |r| == n && forall k :: 0 <= k < n ==> r[k] == sp
  {
    seq(n, k requires 0 <= k < n => sp)
  }

  /** All pieces of an overlong paragraph, the first `n` of them. */
  lemma {:induction false} LaidPieces(chunks: seq<string>, spans: seq<Span>, pieces: seq<string>, n: nat, at: nat,
                                      ps: seq<string>, maxChars: nat)
    requires Laid(chunks, spans, ps, maxChars) && MayStart(chunks, spans, at, ps, maxChars)
    requires n <= |pieces| && |ps[at]| > maxChars
    requires forall k :: 0 <= k < |pieces| ==> IsSlice(pieces[k], ps[at])
    requires forall k :: 0 <= k < |pieces| - 1 ==> |pieces[k]| == maxChars
    ensures Laid(chunks + pieces[..n], spans + Repeated(Span(at, at + 1), n), ps, maxChars)
  {
    var sp := Span(at, at + 1);
    if n == 0 {
      assert chunks + pieces[..0] == chunks && spans + Repeated(sp, 0) == spans;
    } else {
      LaidPieces(chunks, spans, pieces, n - 1, at, ps, maxChars);
      OneMorePiece(chunks, spans, pieces, n - 1, at, ps, maxChars);
      assert chunks + pieces[..n - 1] + [pieces[n - 1]] == chunks + pieces[..n];
      assert spans + Repeated(sp, n - 1) + [sp] == spans + Repeated(sp, n);
    }
  }

  lemma OneMorePiece(chunks: seq<string>, spans: seq<Span>, pieces: seq<string>, m: nat, at: nat, ps: seq<string>,
                     maxChars: nat)
    requires |spans| == |chunks| && InBounds(spans, ps) && MayStart(chunks, spans, at, ps, maxChars)
    requires m < |pieces| && |ps[at]| > maxChars && IsSlice(pieces[m], ps[at])
    requires m > 0 ==> |pieces[m - 1]| == maxChars
    requires Laid(chunks + pieces[..m], spans + Repeated(Span(at, at + 1), m), ps, maxChars)
    ensures Laid(chunks + pieces[..m] + [pieces[m]], spans + Repeated(Span(at, at + 1), m) + [Span(at, at + 1)],
                 ps, maxChars)
  {
    var sp := Span(at, at + 1);
    var before, laid := chunks + pieces[..m], spans + Repeated(sp, m);
    assert Stands(pieces[m], sp, ps, maxChars);
    if m == 0 {
      assert before == chunks && laid == spans;
      LaidNext(chunks, spans, pieces[0], sp, ps, maxChars);
    } else {
      assert before[|before| - 1] == pieces[m - 1] && laid[|laid| - 1] == sp;
      LaidPiece(before, laid, pieces[m], ps, maxChars);
    }
  }

  lemma {:induction false} BlankJoin(ps: seq<string>, k: nat)
    requires k < |ps| && Blank(Join(BREAK, ps))
    ensures Blank(ps[k])
  {
    if |ps| > 1 {
      var front, last := ps[..|ps| - 1], ps[|ps| - 1];
      var joined := Join(BREAK, front) + BREAK;
      assert Join(BREAK, ps) == joined + last;
      assert forall c :: c in Join(BREAK, front) ==> c in joined;
      assert forall c :: c in joined || c in last ==> c in joined + last;
      if k < |front| {
        BlankJoin(front, k);
      }
    }
  }

  /** The pending chunk is finished. */
  lemma FlushedLaid(chunks: seq<string>, spans: seq<Span>, current: string, start: nat, ps: seq<string>, maxChars: nat)
    returns (spans': seq<Span>)
    requires Pending(chunks, spans, current, start, ps, maxChars)
    ensures Laid(Flushed(chunks, current), spans', ps, maxChars) && AllBlank(ps, End(spans'), |ps|)
    ensures spans' == if Blank(current) then spans else spans + [Span(start, |ps|)]
  {
    if Blank(current) {
      spans' := spans;
      if current != "" {
        forall k | End(spans) <= k < |ps|
          ensures Blank(ps[k])
        {
          if k >= start {
            BlankJoin(ps[start..], k - start);
          }
        }
      }
    } else {
      spans' := spans + [Span(start, |ps|)];
      assert ps[start..|ps|] == ps[start..];
      LaidNext(chunks, spans, current, Span(start, |ps|), ps, maxChars);
    }
  }

  /** After that, the paragraph that was too much for it may start a chunk. */
  lemma StartsAfterFlush(chunks: seq<string>, spans: seq<Span>, current: string, start: nat, spans': seq<Span>,
                         ps: seq<string>, para: string, maxChars: nat)
    requires Pending(chunks, spans, current, start, ps, maxChars)
    requires |if current != "" then current + BREAK + para else para| > maxChars
    requires spans' == if Blank(current) then spans else spans + [Span(start, |ps|)]
    requires Laid(Flushed(chunks, current), spans', ps, maxChars) && AllBlank(ps, End(spans'), |ps|)
    requires current != "" || |para| > maxChars
    ensures Laid(Flushed(chunks, current), spans', ps + [para], maxChars)
    ensures MayStart(Flushed(chunks, current), spans', |ps|, ps + [para], maxChars)
  {
    var more := ps + [para];
    LaidStays(Flushed(chunks, current), spans', ps, para, maxChars);
    assert forall k :: 0 <= k < |ps| ==> more[k] == ps[k];
  }

  /** Joined to the pending chunk. */
  lemma JoinedPending(chunks: seq<string>, spans: seq<Span>, current: string, start: nat, ps: seq<string>,
                      para: string, maxChars: nat)
    requires Pending(chunks, spans, current, start, ps, maxChars) && current != ""
    ensures Pending(chunks, spans, current + BREAK + para, start, ps + [para], maxChars)
  {
    var more := ps + [para];
    LaidStays(chunks, spans, ps, para, maxChars);
    JoinSnoc(BREAK, ps[start..], para);
    assert more[start..] == ps[start..] + [para];
    assert forall k :: 0 <= k < |ps| ==> more[k] == ps[k];
  }

  /** With nothing pending the paragraph is, unless it is empty. */
  lemma AlonePending(chunks: seq<string>, spans: seq<Span>, start: nat, ps: seq<string>, para: string, maxChars: nat)
    requires Pending(chunks, spans, "", start, ps, maxChars) && |para| <= maxChars
    requires spans != [] && End(spans) == |ps| ==>
               || |ps[spans[|spans| - 1].from]| > maxChars
               || |chunks[|chunks| - 1]| + |BREAK| + |para| > maxChars
    ensures Pending(chunks, spans, para, |ps|, ps + [para], maxChars)
  {
    var more := ps + [para];
    LaidStays(chunks, spans, ps, para, maxChars);
    assert forall k :: 0 <= k < |ps| ==> more[k] == ps[k];
    assert more[|ps|..] == [para];
  }

  /** The chunks as they are taken paragraph by paragraph. */
  lemma {:induction false} PlacedLaid(ps: seq<string>, maxChars: nat) returns (spans: seq<Span>, start: nat)
    requires maxChars >= 1
    ensures PendingAndSettled(PlacedAll(ps, maxChars), spans, start, ps, maxChars)
  {
    spans, start := [], 0;
    if ps != [] {
      var front, para := ps[..|ps| - 1], ps[|ps| - 1];
      var (chunks, current) := PlacedAll(front, maxChars);
      var laid, begun := PlacedLaid(front, maxChars);
      assert ps == front + [para];
      spans, start := PlacedStepLaid(chunks, laid, current, begun, front, para, maxChars);
    }
  }

  /** With nothing pending, the last chunk was cut, or something came since that was left
      out. */
  ghost predicate Settled(spans: seq<Span>, current: string, ps: seq<string>, maxChars: nat)
    requires InBounds(spans, ps)
  {
    current == "" && spans != [] && End(spans) == |ps| ==> |ps[spans[|spans| - 1].from]| > maxChars
  }

  ghost predicate PendingAndSettled(placed: (seq<string>, string), spans: seq<Span>, start: nat, ps: seq<string>,
                                    maxChars: nat)
  {
    Pending(placed.0, spans, placed.1, start, ps, maxChars) && Settled(spans, placed.1, ps, maxChars)
  }

  lemma PlacedStepLaid(chunks: seq<string>, spans: seq<Span>, current: string, start: nat, ps: seq<string>,
                       para: string, maxChars: nat)
    returns (spans': seq<Span>, start': nat)
    requires maxChars >= 1 && PendingAndSettled((chunks, current), spans, start, ps, maxChars)
    ensures PendingAndSettled(Placed(chunks, current, para, maxChars), spans', start', ps + [para], maxChars)
  {
    if |if current != "" then current + BREAK + para else para| <= maxChars {
      spans', start' := spans, if current != "" then start else |ps|;
      if current != "" {
        JoinedPending(chunks, spans, current, start, ps, para, maxChars);
      } else {
        AlonePending(chunks, spans, start, ps, para, maxChars);
      }
    } else {
      var laid := FlushedLaid(chunks, spans, current, start, ps, maxChars);
      StartsAfterFlush(chunks, spans, current, start, laid, ps, para, maxChars);
      start' := |ps|;
      spans' := StartedLaid(Flushed(chunks, current), laid, ps, para, maxChars);
    }
  }

  /** A paragraph that starts a chunk is pending, or cut into chunks at once. */
  lemma StartedLaid(flushed: seq<string>, spans: seq<Span>, ps: seq<string>, para: string, maxChars: nat)
    returns (spans': seq<Span>)
    requires maxChars >= 1 && Laid(flushed, spans, ps + [para], maxChars)
    requires MayStart(flushed, spans, |ps|, ps + [para], maxChars)
    ensures PendingAndSettled(if |para| > maxChars then (flushed + Pieces(para, maxChars), "") else (flushed, para),
                              spans', |ps|, ps + [para], maxChars)
  {
    var more := ps + [para];
    spans' := spans;
    if |para| > maxChars {
      var pieces := Pieces(para, maxChars);
      PiecesExact(para, maxChars);
      LaidPieces(flushed, spans, pieces, |pieces|, |ps|, more, maxChars);
      assert pieces[..|pieces|] == pieces;
      spans' := spans + Repeated(Span(|ps|, |ps| + 1), |pieces|);
      assert spans'[|spans'| - 1] == Span(|ps|, |ps| + 1);
    } else {
      assert more[|ps|..] == [para];
    }
  }

  lemma PackedLaid(ps: seq<string>, maxChars: nat)
    requires maxChars >= 1
    ensures WellChunked(Packed(ps, maxChars), ps, maxChars)
  {
    var (chunks, current) := PlacedAll(ps, maxChars);
    var spans, start := PlacedLaid(ps, maxChars);
    var laid := FlushedLaid(chunks, spans, current, start, ps, maxChars);
  }

  // ---------------------------------------------------------------------------
  // The methods
  // ---------------------------------------------------------------------------

  /** An overlong paragraph, cut every `maxChars` characters. None is the ValueError of a
      zero step; a negative step gives no cut points at all. */
  method HardSplit(para: string, maxChars: int) returns (pieces: Option<seq<string>>)
    requires |para| > maxChars
    ensures pieces.None? <==> maxChars == 0
    ensures maxChars < 0 ==> pieces == Some([])
    ensures maxChars >= 1 ==>
              && Concat(pieces.value) == para && Bounded(pieces.value, maxChars)
              && (forall k :: 0 <= k < |pieces.value| - 1 ==> |pieces.value[k]| == maxChars)
    ensures maxChars >= 1 ==> pieces.value == Pieces(para, maxChars)
  {
    if maxChars == 0 {
      return None;
    }
    if maxChars < 0 {
      return Some([]);
    }
    PiecesExact(para, maxChars);
    var cut := CutEvery(para, maxChars);
    pieces := Some(cut);
  }

  method CutEvery(para: string, maxChars: nat) returns (cut: seq<string>)
    requires maxChars >= 1
    ensures cut == Pieces(para, maxChars)
  {
    cut := [];
    var i := 0;
    while i < |para|
      invariant cut + Pieces(From(para, i), maxChars) == Pieces(para, maxChars)
      decreases |para| - i
    {
      CutNext(cut, para, i, maxChars);
      cut := cut + [Upto(para[i..], maxChars)];
      i := i + maxChars;
    }
  }

  /** Python's `s[:n]` and `s[n:]` for a bound that may lie past the end. */
  function Upto(s: string, n: nat): string {
    if n < |s| then s[..n] else s
  }

  function From(s: string, n: nat): string {
    if n < |s| then s[n..] else ""
  }

  lemma CutNext(cut: seq<string>, para: string, i: nat, maxChars: nat)
    requires maxChars >= 1 && i < |para|
    ensures cut + Pieces(From(para, i), maxChars) ==
            cut + [Upto(para[i..], maxChars)] + Pieces(From(para, i + maxChars), maxChars)
  {
    NextPiece(para[i..], maxChars);
    assert From(para, i + maxChars) == From(para[i..], maxChars);
  }

  lemma NextPiece(s: string, maxChars: nat)
    requires maxChars >= 1 && s != ""
    ensures Pieces(s, maxChars) == [Upto(s, maxChars)] + Pieces(From(s, maxChars), maxChars)
  {
  }

  /** Chunks of at most `maxChars` characters that show what the text shows, made of whole
      paragraphs wherever a paragraph fits, and no two of them made where one would do. A zero
      bound raises, and a negative one returns nothing, for every text that is not blank. */
  method ChunkText(text: string, maxChars: int) returns (chunks: Option<seq<string>>)
    ensures chunks.Some? && maxChars >= 1 ==> Bounded(chunks.value, maxChars) && Seen(chunks.value) == Visible(text)
    ensures chunks.Some? && maxChars >= 1 ==> WellChunked(chunks.value, Paragraphs(text), maxChars)
    ensures chunks.None? <==> maxChars == 0 && !Blank(text)
    ensures maxChars < 0 || Blank(text) ==> chunks == Some([])
    ensures 0 < |text| <= maxChars && !Blank(text) ==> chunks == Some([text])
  {
    BlankIsInvisible(text);
    StripBlank(text);
    if text == "" || Strip(text) == "" {
      if maxChars >= 1 {
        BlankText(text, maxChars);
      }
      return Some([]);
    }
    if |text| <= maxChars {
      SeenSnoc([], text);
      WholeText(text, maxChars);
      return Some([text]);
    }
    chunks := Pack(Paragraphs(text), maxChars);
    ParagraphsJoin(text);
    SeenOfJoin(Paragraphs(text));
  }

  lemma BlankText(text: string, maxChars: nat)
    requires Blank(text)
    ensures WellChunked([], Paragraphs(text), maxChars)
  {
    ParagraphsJoin(text);
    var ps, spans: seq<Span> := Paragraphs(text), [];
    forall k | 0 <= k < |ps|
      ensures Blank(ps[k])
    {
      BlankJoin(ps, k);
    }
    assert Laid([], spans, ps, maxChars) && AllBlank(ps, End(spans), |ps|);
  }

  lemma WholeText(text: string, maxChars: nat)
    ensures WellChunked([text], Paragraphs(text), maxChars)
  {
    ParagraphsJoin(text);
    var ps := Paragraphs(text);
    assert ps[0..|ps|] == ps;
    LaidNext([], [], text, Span(0, |ps|), ps, maxChars);
    assert [] + [text] == [text];
    assert End([] + [Span(0, |ps|)]) == |ps|;
    assert AllBlank(ps, End([] + [Span(0, |ps|)]), |ps|);
  }

  /** The loop over the paragraphs. */
  method Pack(paragraphs: seq<string>, maxChars: int) returns (result: Option<seq<string>>)
    ensures maxChars >= 1 ==>
              result.Some? && Bounded(result.value, maxChars) && Seen(result.value) == Seen(paragraphs)
    ensures maxChars >= 1 ==> WellChunked(result.value, paragraphs, maxChars)
    ensures maxChars == 0 && Seen(paragraphs) != "" ==> result == None
    ensures maxChars < 0 ==> result == Some([])
  {
    var chunks: seq<string>, current := [], "";
    for i := 0 to |paragraphs|
      invariant PackedSoFar(chunks, current, paragraphs[..i], maxChars)
    {
      assert paragraphs[..i + 1][..i] == paragraphs[..i];
      SeenSnoc(paragraphs[..i], paragraphs[i]);
      assert paragraphs[..i] + [paragraphs[i]] == paragraphs[..i + 1];
      var next := AddParagraph(chunks, current, paragraphs[i], maxChars);
      if next.None? {
        return None;
      }
      chunks, current := next.value.0, next.value.1;
    }
    assert paragraphs[..|paragraphs|] == paragraphs;
    var flushed := Flush(chunks, current);
    if maxChars >= 1 {
      PackedShows(paragraphs, maxChars);
      PackedLaid(paragraphs, maxChars);
    }
    result := Some(flushed);
  }

  /** What the loop has, for each kind of bound: with a zero one it goes on only while the
      paragraphs are empty. */
  ghost predicate PackedSoFar(chunks: seq<string>, current: string, taken: seq<string>, maxChars: int) {
    && (maxChars <= 0 ==> current == "" && chunks == [])
    && (maxChars == 0 ==> Seen(taken) == "")
    && (maxChars >= 1 ==> (chunks, current) == PlacedAll(taken, maxChars))
  }

  method AddParagraph(chunks: seq<string>, current: string, para: string, maxChars: int)
    returns (next: Option<(seq<string>, string)>)
    requires maxChars <= 0 ==> current == "" && chunks == []
    ensures maxChars >= 1 ==> next == Some(Placed(chunks, current, para, maxChars))
    ensures maxChars < 0 ==> next == Some(([], ""))
    ensures maxChars == 0 ==> next == if para == "" then Some(([], "")) else None
  {
    var candidate := if current != "" then current + BREAK + para else para;
    if |candidate| <= maxChars {
      return Some((chunks, candidate));
    }
    var flushed := Flush(chunks, current);
    if |para| <= maxChars {
      return Some((flushed, para));
    }
    var pieces := HardSplit(para, maxChars);
    if pieces.None? {
      return None;
    }
    assert maxChars < 0 ==> flushed == [] && flushed + pieces.value == [];
    next := Some((flushed + pieces.value, ""));
  }

  lemma JoinedShows(chunks: seq<string>, current: string, para: string, taken: seq<string>)
    requires Seen(chunks) + Visible(current) == Seen(taken)
    ensures Seen(chunks) + Visible(if current != "" then current + BREAK + para else para) == Seen(taken + [para])
  {
    SeenSnoc(taken, para);
    CandidateVisible(current, para);
    Regroup(Seen(chunks), Visible(current), Visible(para));
  }

  lemma CandidateVisible(current: string, para: string)
    ensures Visible(if current != "" then current + BREAK + para else para) == Visible(current) + Visible(para)
  {
    BreakInvisible();
    VisibleJoined(current + BREAK, para);
    VisibleJoined(current, BREAK);
  }

  /** A pending chunk is kept unless it is blank. */
  method Flush(chunks: seq<string>, current: string) returns (r: seq<string>)
    ensures r == Flushed(chunks, current)
  {
    StripBlank(current);
    r := if Strip(current) != "" then chunks + [current] else chunks;
  }

  /** A bound of at least one is exactly what losslessness takes: any other bound loses every
      text that has something visible in it. */
  method ChunkTextLossless(text: string, maxChars: int) returns (lossless: bool)
    ensures lossless <==> maxChars >= 1 || Blank(text)
  {
    var chunks := ChunkText(text, maxChars);
    BlankIsInvisible(text);
    lossless := chunks.Some? && Seen(chunks.value) == Visible(text);
  }
}
