/** The context that consolidates its window while it sleeps: two buffers, a memory message
    at the head of the working window, and the verbatim fallback note. */
module Compaction {
  import opened EventLog
  import opened Text
  import opened Lines

  datatype Block = Block(text: string, content: string) | OtherBlock

  datatype Content = NoContent | Plain(s: string) | Blocks(blocks: seq<Block>)

  datatype Message = Message(role: Option<string>, content: Content)

  // ---------------------------------------------------------------------------
  // Serialising
  // ---------------------------------------------------------------------------

  function BlockText(b: Block): string {
    if b.OtherBlock? then "" else if b.text != "" then b.text else b.content
  }

  function Bits(blocks: seq<Block>): seq<string> {
    if blocks == [] then []
    else
      var rest := Bits(blocks[..|blocks| - 1]);
      var t := BlockText(blocks[|blocks| - 1]);
      if t != "" then rest + [t] else rest
  }

  function ContentText(c: Content): string {
    match c
    case NoContent => ""
    case Plain(s) => s
    case Blocks(bs) => Join(" ", Bits(bs))
  }

  function Serialised(m: Message): string {
    "[" + (if m.role.Some? then m.role.value else "unknown") + "]: " + ContentText(m.content)
  }

  function SerialisedAll(ms: seq<Message>): seq<string> {
    seq(|ms|, i requires 0 <= i < |ms| => Serialised(ms[i]))
  }

  /** `_messages_to_text`: both loops. */
  method MessagesToText(ms: seq<Message>) returns (text: string)
    ensures text == Join("\n\n", SerialisedAll(ms))
  {
    var parts := [];
    for i := 0 to |ms|
      invariant parts == SerialisedAll(ms[..i])
    {
      var content := "";
      match ms[i].content {
        case NoContent =>
        case Plain(s) => content := s;
        case Blocks(bs) =>
          var bits := [];
          for j := 0 to |bs|
            invariant bits == Bits(bs[..j])
          {
            assert bs[..j + 1][..j] == bs[..j];
            var t := BlockText(bs[j]);
            if t != "" {
              bits := bits + [t];
            }
          }
          assert bs[..|bs|] == bs;
          content := Join(" ", bits);
      }
      parts := parts + ["[" + (if ms[i].role.Some? then ms[i].role.value else "unknown") + "]: " + content];
    }
    assert ms[..|ms|] == ms;
    text := Join("\n\n", parts);
  }

  lemma {:induction false} BitsJoined(a: seq<Block>, b: seq<Block>)
    ensures Bits(a + b) == Bits(a) + Bits(b)
  {
    if b == [] {
      assert a + b == a;
    } else {
      BitsJoined(a, b[..|b| - 1]);
      assert (a + b)[..|a + b| - 1] == a + b[..|b| - 1];
    }
  }

  /** The text stands in the other as it is. */
  ghost predicate StandsIn(t: string, s: string) {
    exists a, b :: s == a + t + b
  }

  lemma StandsBehind(t: string, p: string, s: string)
    requires StandsIn(t, s)
    ensures StandsIn(t, p + s)
  {
    var a, b :| s == a + t + b;
    assert p + s == (p + a) + t + b;
  }

  lemma StandsItself(a: string, t: string, b: string)
    ensures StandsIn(t, a + t + b)
  {
  }

  lemma {:induction false} BitStands(blocks: seq<Block>, i: nat)
    requires i < |blocks|
    ensures StandsIn(BlockText(blocks[i]), Join(" ", Bits(blocks)))
  {
    var t := BlockText(blocks[i]);
    if t == "" {
      assert Join(" ", Bits(blocks)) == "" + t + Join(" ", Bits(blocks));
    } else {
      var before, after := AroundBlock(blocks, i);
      StandsItself(before, t, after);
    }
  }

  /** What stands before and behind the text of a block. */
  lemma AroundBlock(blocks: seq<Block>, i: nat) returns (before: string, after: string)
    requires i < |blocks| && BlockText(blocks[i]) != ""
    ensures Join(" ", Bits(blocks)) == before + BlockText(blocks[i]) + after
    ensures after == if Bits(blocks[i + 1..]) == [] then "" else " " + Join(" ", Bits(blocks[i + 1..]))
  {
    var p, q := blocks[..i], blocks[i + 1..];
    assert blocks == p + [blocks[i]] + q;
    assert [blocks[i]][..0] == [];
    BitsJoined(p + [blocks[i]], q);
    BitsJoined(p, [blocks[i]]);
    JoinAround(" ", Bits(p), BlockText(blocks[i]), Bits(q));
    before := if Bits(p) == [] then "" else Join(" ", Bits(p)) + " ";
    after := if Bits(q) == [] then "" else " " + Join(" ", Bits(q));
  }

  /** A serialised message opens with its role and holds every block: the text, or the content
      where the text is empty. */
  lemma MessageHolds(m: Message, i: nat)
    requires m.content.Blocks? && i < |m.content.blocks| && !m.content.blocks[i].OtherBlock?
    ensures var b := m.content.blocks[i];
            && (b.text != "" ==> StandsIn(b.text, Serialised(m)))
            && (b.text == "" ==> StandsIn(b.content, Serialised(m)))
    ensures m.role.Some? ==> "[" + m.role.value + "]: " <= Serialised(m)
  {
    var opening := "[" + (if m.role.Some? then m.role.value else "unknown") + "]: ";
    BitStands(m.content.blocks, i);
    StandsBehind(BlockText(m.content.blocks[i]), opening, Join(" ", Bits(m.content.blocks)));
    assert opening <= opening + ContentText(m.content);
  }

  /** The blocks keep their order. */
  lemma BlocksInOrder(blocks: seq<Block>, i: nat, j: nat)
    requires i < j < |blocks| && BlockText(blocks[i]) != ""
    ensures StandsAhead(BlockText(blocks[i]), BlockText(blocks[j]), Join(" ", Bits(blocks)))
  {
    var before, after := AroundBlock(blocks, i);
    var rest := blocks[i + 1..];
    assert rest[j - i - 1] == blocks[j];
    BitStands(rest, j - i - 1);
    if Bits(rest) != [] {
      StandsBehind(BlockText(blocks[j]), " ", Join(" ", Bits(rest)));
    }
    assert StandsIn(BlockText(blocks[j]), after);
  }

  /** The one text stands ahead of the other. */
  ghost predicate StandsAhead(t: string, u: string, s: string) {
    exists before, after :: s == before + t + after && StandsIn(u, after)
  }

  /** And each message stands in the text of them all. */
  lemma TextHolds(ms: seq<Message>, i: nat)
    requires i < |ms|
    ensures StandsIn(Serialised(ms[i]), Join("\n\n", SerialisedAll(ms)))
  {
    var all := SerialisedAll(ms);
    assert all == all[..i] + [Serialised(ms[i])] + all[i + 1..];
    JoinAround("\n\n", all[..i], Serialised(ms[i]), all[i + 1..]);
  }

  /** Any lines of a text between two line breaks of it are lines of whatever the text stands
      in. */
  lemma InnerLinesStand(x: string, b: char, y: string, c: char, z: string, s: string)
    requires IsBreak(b) && IsBreak(c) && StandsIn(x + [b] + y + [c] + z, s)
    ensures KeyLines(y) <= KeyLines(s)
  {
    var p, q :| s == p + (x + [b] + y + [c] + z) + q;
    assert s == (p + x) + [b] + (y + [c] + (z + q));
    KeyLinesJoined(p + x, b, y + [c] + (z + q));
    KeyLinesJoined(y, c, z + q);
  }

  /** So a tool result, say, is not lost: every line of a block but its first and last, which
      the serialisation may extend, is a stripped line of the note for its message. */
  lemma BlockLinesSurvive(note: string, ms: seq<Message>, k: nat, i: nat, x: string, b: char, y: string, c: char,
                          z: string)
    requires IsNoteFor(note, ms, false) && k < |ms| && ms[k].content.Blocks? && i < |ms[k].content.blocks|
    requires ms[k].content.blocks[i] == Block("", x + [b] + y + [c] + z) && IsBreak(b) && IsBreak(c)
    ensures KeyLines(y) <= KeyLines(note)
  {
    MessageHolds(ms[k], i);
    InnerLinesStand(x, b, y, c, z, Serialised(ms[k]));
    EveryLineSurvives(note, ms, k);
  }

  /** The lines a reader of the messages' text would look for. */
  function LinesOfAll(texts: seq<string>): set<string> {
    if texts == [] then {} else LinesOfAll(texts[..|texts| - 1]) + KeyLines(texts[|texts| - 1])
  }

  lemma {:induction false} LinesOfParagraphs(texts: seq<string>)
    ensures KeyLines(Join("\n\n", texts)) == LinesOfAll(texts)
  {
    if texts == [] {
      EmptyKey();
    } else if |texts| == 1 {
      assert texts[..0] == [];
    } else {
      var front, last := texts[..|texts| - 1], texts[|texts| - 1];
      LinesOfParagraphs(front);
      LinesAcrossBlank(Join("\n\n", front), last);
    }
  }

  lemma LinesAcrossBlank(a: string, b: string)
    ensures KeyLines(a + "\n\n" + b) == KeyLines(a) + KeyLines(b)
  {
    KeyLinesJoined(a, '\n', "\n" + b);
    KeyLinesJoined("", '\n', b);
    EmptyKey();
    assert a + ['\n'] + ("\n" + b) == a + "\n\n" + b;
    assert "" + ['\n'] + b == "\n" + b;
  }

  // ---------------------------------------------------------------------------
  // The verbatim fallback
  // ---------------------------------------------------------------------------

  /** The lines that stay: blank ones, and the first of each stripped content. */
  function Dedup(lines: seq<string>): seq<string> {
    if lines == [] then []
    else
      var front, last := lines[..|lines| - 1], lines[|lines| - 1];
      if Strip(last) != "" && Strip(last) in Keys(front) then Dedup(front) else Dedup(front) + [last]
  }

  method VerbatimFallback(text: string) returns (note: string)
    ensures note == Join("\n", Dedup(SplitLines(text)))
  {
    var lines := SplitLines(text);
    var seen: set<string> := {};
    var out := [];
    for i := 0 to |lines|
      invariant SeenKeys(seen, lines[..i])
      invariant out == Dedup(lines[..i])
    {
      assert lines[..i + 1][..i] == lines[..i] && lines[..i + 1] == lines[..i] + [lines[i]];
      KeysSnoc(lines[..i], lines[i]);
      var key := Strip(lines[i]);
      if key != "" && key in seen {
        continue;
      }
      seen := seen + {key};
      out := out + [lines[i]];
    }
    assert lines[..|lines|] == lines;
    note := Join("\n", out);
  }

  /** The loop's set also collects the empty key. */
  ghost predicate SeenKeys(seen: set<string>, lines: seq<string>) {
    seen - {""} == Keys(lines)
  }

  lemma {:induction false} DedupKeepsKeys(lines: seq<string>)
    ensures Keys(Dedup(lines)) == Keys(lines)
    ensures forall l :: l in Dedup(lines) ==> l in lines
  {
    if lines != [] {
      var front, last := lines[..|lines| - 1], lines[|lines| - 1];
      DedupKeepsKeys(front);
      assert lines == front + [last];
      KeysSnoc(front, last);
      KeysSnoc(Dedup(front), last);
    }
  }

  ghost predicate BlankOrFirst(lines: seq<string>, i: nat)
    requires i < |lines|
  {
    Blank(lines[i]) || forall j :: 0 <= j < i ==> Strip(lines[j]) != Strip(lines[i])
  }

  /** The lines at these places, in order. */
  ghost predicate Picks(idx: seq<nat>, lines: seq<string>, picked: seq<string>) {
    && |idx| == |picked|
    && (forall k :: 0 <= k < |idx| ==> idx[k] < |lines| && picked[k] == lines[idx[k]])
    && (forall j, k :: 0 <= j < k < |idx| ==> idx[j] < idx[k])
  }

  ghost predicate Marks(idx: seq<nat>, lines: seq<string>) {
    forall i :: 0 <= i < |lines| ==> (i in idx <==> BlankOrFirst(lines, i))
  }

  /** Which lines stay, exactly, in their order and as they are: the blank ones and the first
      of each stripped content. */
  lemma {:induction false} DedupExact(lines: seq<string>) returns (idx: seq<nat>)
    ensures Picks(idx, lines, Dedup(lines)) && Marks(idx, lines)
  {
    idx := [];
    if lines != [] {
      var n := |lines| - 1;
      var before := DedupExact(lines[..n]);
      idx := if BlankOrFirst(lines, n) then before + [n] else before;
      LastStays(lines);
      PicksLast(before, lines, Dedup(lines[..n]), idx);
      MarksLast(before, lines, idx);
    }
  }

  lemma PicksLast(before: seq<nat>, lines: seq<string>, picked: seq<string>, idx: seq<nat>)
    requires lines != [] && Picks(before, lines[..|lines| - 1], picked)
    requires idx == if BlankOrFirst(lines, |lines| - 1) then before + [|lines| - 1] else before
    ensures Picks(idx, lines, if BlankOrFirst(lines, |lines| - 1) then picked + [lines[|lines| - 1]] else picked)
    ensures |lines| - 1 !in before
  {
  }

  lemma MarksLast(before: seq<nat>, lines: seq<string>, idx: seq<nat>)
    requires lines != [] && Marks(before, lines[..|lines| - 1]) && |lines| - 1 !in before
    requires idx == if BlankOrFirst(lines, |lines| - 1) then before + [|lines| - 1] else before
    ensures Marks(idx, lines)
  {
    var n := |lines| - 1;
    forall i | 0 <= i < |lines|
      ensures i in idx <==> BlankOrFirst(lines, i)
    {
      if i < n {
        EarlierStays(lines, i);
        assert i in before <==> BlankOrFirst(lines[..n], i);
      }
    }
  }

  lemma EarlierStays(lines: seq<string>, i: nat)
    requires i < |lines| - 1
    ensures BlankOrFirst(lines, i) <==> BlankOrFirst(lines[..|lines| - 1], i)
  {
    assert forall j :: 0 <= j <= i ==> lines[..|lines| - 1][j] == lines[j];
  }

  lemma LastStays(lines: seq<string>)
    requires lines != []
    ensures var front, last := lines[..|lines| - 1], lines[|lines| - 1];
            Dedup(lines) == if BlankOrFirst(lines, |lines| - 1) then Dedup(front) + [last] else Dedup(front)
  {
    var n := |lines| - 1;
    StripBlank(lines[n]);
    if Strip(lines[n]) in Keys(lines[..n]) {
      var l :| l in lines[..n] && Strip(l) == Strip(lines[n]);
      var j :| 0 <= j < n && lines[j] == l;
    }
    if j :| 0 <= j < n && Strip(lines[j]) == Strip(lines[n]) {
      assert lines[j] in lines[..n];
    }
  }

  /** Only exact duplicates go: no two lines that stay have the same stripped content. */
  lemma {:induction false} DedupDistinct(lines: seq<string>, i: nat, j: nat)
    requires i < j < |Dedup(lines)| && Strip(Dedup(lines)[j]) != ""
    ensures Strip(Dedup(lines)[i]) != Strip(Dedup(lines)[j])
  {
    var front, last := lines[..|lines| - 1], lines[|lines| - 1];
    DedupKeepsKeys(front);
    if j < |Dedup(front)| {
      DedupDistinct(front, i, j);
    } else {
      assert Dedup(lines) == Dedup(front) + [last];
      var earlier := Dedup(front)[i];
      assert earlier in Dedup(front);
      assert Strip(earlier) != "" ==> Strip(earlier) in Keys(Dedup(front));
    }
  }

  /** The note has exactly the stripped non-blank lines of the text. */
  lemma FallbackLosesNothing(text: string)
    ensures KeyLines(Join("\n", Dedup(SplitLines(text)))) == KeyLines(text)
  {
    SplitLinesAreLines(text);
    DedupKeepsKeys(SplitLines(text));
    KeyLinesOfJoin(Dedup(SplitLines(text)));
  }

  // ---------------------------------------------------------------------------
  // Compaction
  // ---------------------------------------------------------------------------

  const MEMORY_PREFIX := "[Consolidated memory]"
  const PRIOR_HEADER := "[Prior consolidated note]"

  function Memory(note: string): Message {
    Message(Some("system"), Plain(MEMORY_PREFIX + "\n" + note))
  }

  /** What the code takes for its own memory message. */
  predicate LooksLikeMemory(m: Message) {
    m.role == Some("system") && m.content.Plain? && MEMORY_PREFIX <= m.content.s
  }

  /** Whatever follows the prefix, were it nothing. */
  lemma TakenExactly(m: Message)
    ensures LooksLikeMemory(m) <==> exists rest: string :: m == Message(Some("system"), Plain(MEMORY_PREFIX + rest))
  {
    if LooksLikeMemory(m) {
      var s := m.content.s;
      assert s == MEMORY_PREFIX + s[|MEMORY_PREFIX|..];
      assert m == Message(Some("system"), Plain(MEMORY_PREFIX + s[|MEMORY_PREFIX|..]));
    }
  }

  /** The note in such a message: one character after the prefix is skipped unseen. */
  function NoteIn(m: Message): string
    requires LooksLikeMemory(m)
  {
    var s := m.content.s;
    if |MEMORY_PREFIX| + 1 <= |s| then s[|MEMORY_PREFIX| + 1..] else ""
  }

  lemma NoteRoundTrip(note: string)
    ensures LooksLikeMemory(Memory(note)) && NoteIn(Memory(note)) == note
  {
    var s := MEMORY_PREFIX + "\n" + note;
    assert s[..|MEMORY_PREFIX|] == MEMORY_PREFIX;
    assert s[|MEMORY_PREFIX| + 1..] == note;
  }

  /** Where Python's `[: -keep]` and `[-keep :]` cut a list of `n`. */
  function Cut(n: nat, keep: int): (i: nat)
    ensures i <= n
    ensures 1 <= keep <= n ==> i == n - keep
    ensures keep == 0 ==> i == 0
    ensures keep < 0 ==> i == if -keep < n then -keep else n
  {
    if -keep < 0 then (if n - keep < 0 then 0 else n - keep) else if -keep < n then -keep else n
  }

  /** The text handed to the provider or to the fallback. */
  function ConsolidationInput(prior: string, evicted: seq<Message>): string {
    var texts := Join("\n\n", SerialisedAll(evicted));
    if prior != "" then PRIOR_HEADER + "\n" + prior + "\n\n" + texts else texts
  }

  lemma InputLines(prior: string, evicted: seq<Message>)
    ensures KeyLines(ConsolidationInput(prior, evicted)) ==
            KeyLines(prior) + LinesOfAll(SerialisedAll(evicted)) + (if prior != "" then {PRIOR_HEADER} else {})
  {
    LinesOfParagraphs(SerialisedAll(evicted));
    EmptyKey();
    if prior != "" {
      LinesAcrossBlank(PRIOR_HEADER + "\n" + prior, Join("\n\n", SerialisedAll(evicted)));
      KeyLinesJoined(PRIOR_HEADER, '\n', prior);
      HeaderLine();
    }
  }

  lemma HeaderLine()
    ensures KeyLines(PRIOR_HEADER) == {PRIOR_HEADER}
  {
    PrintableIsOneLine(PRIOR_HEADER);
    assert PRIOR_HEADER[0] == '[' && PRIOR_HEADER[|PRIOR_HEADER| - 1] == ']';
    UnpaddedLine(PRIOR_HEADER);
  }

  lemma PrintableIsOneLine(s: string)
    requires forall i :: 0 <= i < |s| ==> ' ' <= s[i] <= '~'
    ensures OneLine(s)
  {
  }

  lemma UnpaddedLine(s: string)
    requires OneLine(s) && s != "" && !IsSpace(s[0]) && !IsSpace(s[|s| - 1])
    ensures KeyLines(s) == {s}
  {
    KeyLinesOneLine(s);
  }

  lemma {:induction false} LinesOfBoth(a: seq<string>, b: seq<string>)
    ensures LinesOfAll(a + b) == LinesOfAll(a) + LinesOfAll(b)
  {
    if b == [] {
      assert a + b == a;
    } else {
      LinesOfBoth(a, b[..|b| - 1]);
      assert (a + b)[..|a + b| - 1] == a + b[..|b| - 1];
    }
  }

  /** The lines that a note standing for `ms` has to hold: those of the serialised messages,
      except that a first message taken for a memory message counts for the note in it. */
  function GoneLines(ms: seq<Message>, imitated: bool): set<string> {
    if imitated && ms != [] && LooksLikeMemory(ms[0])
    then KeyLines(NoteIn(ms[0])) + LinesOfAll(SerialisedAll(ms[1..]))
    else LinesOfAll(SerialisedAll(ms))
  }

  lemma GoneLinesGrow(ms: seq<Message>, more: seq<Message>, imitated: bool)
    requires imitated ==> ms != []
    ensures GoneLines(ms + more, imitated) == GoneLines(ms, imitated) + LinesOfAll(SerialisedAll(more))
  {
    if imitated && LooksLikeMemory(ms[0]) {
      assert (ms + more)[1..] == ms[1..] + more;
      assert SerialisedAll(ms[1..] + more) == SerialisedAll(ms[1..]) + SerialisedAll(more);
      LinesOfBoth(SerialisedAll(ms[1..]), SerialisedAll(more));
    } else {
      assert SerialisedAll(ms + more) == SerialisedAll(ms) + SerialisedAll(more);
      LinesOfBoth(SerialisedAll(ms), SerialisedAll(more));
    }
  }

  /** Exactly those lines, and at most the header of an earlier note besides. */
  ghost predicate IsNoteFor(note: string, ms: seq<Message>, imitated: bool) {
    GoneLines(ms, imitated) <= KeyLines(note) <= GoneLines(ms, imitated) + {PRIOR_HEADER}
  }

  /** The fallback note over an earlier note (or an imitation of one) and further messages. */
  lemma NextNote(prior: string, ms: seq<Message>, evicted: seq<Message>, imitated: bool, n: string)
    requires IsNoteFor(prior, ms, imitated) && (imitated ==> ms != [])
    requires KeyLines(n) == KeyLines(ConsolidationInput(prior, evicted))
    ensures IsNoteFor(n, ms + evicted, imitated)
  {
    InputLines(prior, evicted);
    GoneLinesGrow(ms, evicted, imitated);
  }

  lemma FirstNote(ms: seq<Message>)
    ensures IsNoteFor("", [], false)
    ensures |ms| == 1 && LooksLikeMemory(ms[0]) ==> IsNoteFor(NoteIn(ms[0]), ms, true)
  {
    EmptyKey();
    if |ms| == 1 && LooksLikeMemory(ms[0]) {
      assert SerialisedAll(ms[1..]) == [];
    }
  }

  /** No line of a message is lost, as long as its first message was not taken for a memory
      message: each is still a stripped line of the note. */
  lemma EveryLineSurvives(note: string, ms: seq<Message>, i: nat)
    requires IsNoteFor(note, ms, false) && i < |ms|
    ensures KeyLines(Serialised(ms[i])) <= KeyLines(note)
  {
    LineInAll(SerialisedAll(ms), i);
  }

  lemma {:induction false} LineInAll(texts: seq<string>, i: nat)
    requires i < |texts|
    ensures KeyLines(texts[i]) <= LinesOfAll(texts)
  {
    if i < |texts| - 1 {
      LineInAll(texts[..|texts| - 1], i);
    }
  }

  // -- a first message that imitates the memory prefix ---------------------------

  const LABEL := "[system]: "

  /** The first line of the message as it is serialised, stripped. */
  function LabelledLine(m: Message): string {
    var s := Serialised(m);
    Strip(s[..FindLineEnd(s, 0)])
  }

  /** Where the first line of such a message ends: not before the end of the prefix. */
  lemma LabelledHead(m: Message)
    requires LooksLikeMemory(m)
    ensures var s, h := Serialised(m), LABEL + MEMORY_PREFIX;
            && h <= s && OneLine(h) && |h| <= FindLineEnd(s, 0)
            && NoteIn(m) == if |h| + 1 <= |s| then s[|h| + 1..] else ""
  {
    var s, h := Serialised(m), LABEL + MEMORY_PREFIX;
    HeadOf(m.content.s, s);
    PrintableIsOneLine(LABEL);
    PrintableIsOneLine(MEMORY_PREFIX);
    NoEarlyEnd(s, h);
  }

  lemma HeadOf(content: string, s: string)
    requires MEMORY_PREFIX <= content && s == "[" + "system" + "]: " + content
    ensures var h := LABEL + MEMORY_PREFIX;
            && h <= s && |s| - |h| == |content| - |MEMORY_PREFIX|
            && (|h| + 1 <= |s| ==> s[|h| + 1..] == content[|MEMORY_PREFIX| + 1..])
  {
    assert s == LABEL + content;
  }

  lemma NoEarlyEnd(s: string, h: string)
    requires h <= s && OneLine(h)
    ensures |h| <= FindLineEnd(s, 0)
  {
    var i := FindLineEnd(s, 0);
    assert forall k :: 0 <= k < |h| ==> s[k] == h[k] && h[k] in h;
  }

  lemma {:induction false} StripRightKeeps(s: string, n: nat)
    requires n < |s| && !IsSpace(s[n])
    ensures n < |StripRight(s)| && StripRight(s) <= s
  {
    if IsSpace(s[|s| - 1]) {
      StripRightKeeps(s[..|s| - 1], n);
    }
  }

  /** That line is never blank, and never the header of a prior note. */
  lemma LabelledLineShows(m: Message)
    requires LooksLikeMemory(m)
    ensures var s := Serialised(m);
            KeyOf(s[..FindLineEnd(s, 0)]) == {LabelledLine(m)} && LabelledLine(m) != PRIOR_HEADER
  {
    LabelledHead(m);
    var line := Serialised(m)[..FindLineEnd(Serialised(m), 0)];
    assert line[0] == LABEL[0] == '[' && line[1] == LABEL[1] == 's';
    StripRightKeeps(line, 1);
    assert PRIOR_HEADER[1] == 'P';
  }

  /** All lines of such a message but its first are in the note it is taken to carry. */
  lemma ImitationLines(m: Message)
    requires LooksLikeMemory(m)
    ensures LabelledLine(m) in KeyLines(Serialised(m))
    ensures KeyLines(Serialised(m)) <= KeyLines(NoteIn(m)) + {LabelledLine(m)}
  {
    var s, n := Serialised(m), |LABEL + MEMORY_PREFIX|;
    var i := FindLineEnd(s, 0);
    LabelledHead(m);
    LabelledLineShows(m);
    PrefixIsOneLine(s, i);
    KeyLinesOneLine(s[..i]);
    if i == |s| {
      assert s[..i] == s;
    } else {
      RestAfterFirstLine(s, n, i);
    }
  }

  /** The lines after the first are those of any part of the text that starts after `n`
      characters of the first or right behind it. */
  lemma RestAfterFirstLine(s: string, n: nat, i: nat)
    requires n <= i < |s| && IsBreak(s[i])
    ensures KeyLines(s) == KeyLines(s[..i]) + KeyLines(s[i + 1..])
    ensures KeyLines(s[i + 1..]) <= KeyLines(s[n + 1..])
  {
    LinesSplit(s, i);
    if n < i {
      SameTail(s, n + 1, i - n);
      TailLines(s[n + 1..], i - n - 1, s[i + 1..]);
    }
  }

  lemma TailLines(s: string, i: nat, tail: string)
    requires i < |s| && IsBreak(s[i]) && tail == s[i + 1..]
    ensures KeyLines(tail) <= KeyLines(s)
  {
    LinesSplit(s, i);
  }

  lemma LinesSplit(s: string, i: nat)
    requires i < |s| && IsBreak(s[i])
    ensures KeyLines(s) == KeyLines(s[..i]) + KeyLines(s[i + 1..])
  {
    assert s == s[..i] + [s[i]] + s[i + 1..];
    KeyLinesJoined(s[..i], s[i], s[i + 1..]);
  }

  lemma SameTail(s: string, a: nat, b: nat)
    requires a + b <= |s|
    ensures s[a..][b..] == s[a + b..]
  {
  }

  /** A message taken for a memory message, whatever follows the prefix in it, keeps all its
      lines in the note it is taken to carry if and only if its first line as serialised
      stands there again. */
  lemma ImitationExact(m: Message)
    requires LooksLikeMemory(m)
    ensures KeyLines(Serialised(m)) <= KeyLines(NoteIn(m)) <==> LabelledLine(m) in KeyLines(NoteIn(m))
  {
    ImitationLines(m);
  }

  /** Each message a note stands for, when the first was taken for a memory message. */
  lemma LinesBehindImitation(note: string, ms: seq<Message>, i: nat)
    requires IsNoteFor(note, ms, true) && i < |ms| && LooksLikeMemory(ms[0])
    requires i > 0 || LabelledLine(ms[0]) in GoneLines(ms, true)
    ensures KeyLines(Serialised(ms[i])) <= KeyLines(note)
  {
    if i > 0 {
      BehindFirst(ms, i);
    } else {
      FirstStandsElsewhere(ms);
    }
    Within(KeyLines(Serialised(ms[i])), GoneLines(ms, true), KeyLines(note));
  }

  lemma Within(a: set<string>, b: set<string>, c: set<string>)
    requires a <= b <= c
    ensures a <= c
  {
  }

  lemma BehindFirst(ms: seq<Message>, i: nat)
    requires 0 < i < |ms| && LooksLikeMemory(ms[0])
    ensures KeyLines(Serialised(ms[i])) <= GoneLines(ms, true)
  {
    LineOfRest(ms[1..], i - 1);
    Within(KeyLines(Serialised(ms[i])), LinesOfAll(SerialisedAll(ms[1..])), GoneLines(ms, true));
  }

  lemma LineOfRest(ms: seq<Message>, i: nat)
    requires i < |ms|
    ensures KeyLines(Serialised(ms[i])) <= LinesOfAll(SerialisedAll(ms))
  {
    LineInAll(SerialisedAll(ms), i);
  }

  lemma FirstStandsElsewhere(ms: seq<Message>)
    requires ms != [] && LooksLikeMemory(ms[0]) && LabelledLine(ms[0]) in GoneLines(ms, true)
    ensures KeyLines(Serialised(ms[0])) <= GoneLines(ms, true)
  {
    ImitationLines(ms[0]);
    Within(KeyLines(Serialised(ms[0])), KeyLines(NoteIn(ms[0])) + {LabelledLine(ms[0])}, GoneLines(ms, true));
  }

  /** ... and its own first line is there only if it stands elsewhere. */
  lemma FirstLineElsewhere(note: string, ms: seq<Message>)
    requires IsNoteFor(note, ms, true) && ms != [] && LooksLikeMemory(ms[0])
    requires KeyLines(Serialised(ms[0])) <= KeyLines(note)
    ensures LabelledLine(ms[0]) in GoneLines(ms, true)
  {
    ImitationLines(ms[0]);
    LabelledLineShows(ms[0]);
  }

  ghost predicate NothingLost(note: string, ms: seq<Message>) {
    forall i :: 0 <= i < |ms| ==> KeyLines(Serialised(ms[i])) <= KeyLines(note)
  }

  /** Over all the messages a note stands for: no line is missing if and only if none was
      taken for a memory message, or the first line of the one that was stands elsewhere. */
  lemma NothingLostExactly(note: string, ms: seq<Message>, imitated: bool)
    requires IsNoteFor(note, ms, imitated) && (imitated ==> ms != [] && LooksLikeMemory(ms[0]))
    ensures NothingLost(note, ms) <==> (imitated ==> LabelledLine(ms[0]) in GoneLines(ms, true))
  {
    if imitated && NothingLost(note, ms) {
      FirstLineElsewhere(note, ms);
    }
    if imitated ==> LabelledLine(ms[0]) in GoneLines(ms, true) {
      forall i | 0 <= i < |ms|
        ensures KeyLines(Serialised(ms[i])) <= KeyLines(note)
      {
        if imitated {
          LinesBehindImitation(note, ms, i);
        } else {
          EveryLineSurvives(note, ms, i);
        }
      }
    }
  }

  /** One such message that does lose its line, and the character after the prefix with it. */
  lemma ImitationLosesItsLine(m: Message, c: char)
    requires m == Message(Some("system"), Plain(MEMORY_PREFIX + [c])) && !IsSpace(c)
    ensures GoneLines([m], true) == {} && KeyLines(Serialised(m)) != {}
  {
    var s := m.content.s;
    assert s[..|MEMORY_PREFIX|] == MEMORY_PREFIX && s[|MEMORY_PREFIX| + 1..] == "";
    assert SerialisedAll([m][1..]) == [];
    EmptyKey();
    ImitationLines(m);
  }

  /** The window is the raw history, or one memory message and a suffix of it; and the note
      has exactly the lines of the messages it stands for. */
  ghost predicate Fits(raw: seq<Message>, working: seq<Message>, note: Option<string>, gone: nat, imitated: bool,
                       verbatim: bool)
  {
    && gone <= |raw|
    && (note.None? ==> gone == 0 && working == raw)
    && (note.Some? ==> working == [Memory(note.value)] + raw[gone..])
    && (imitated ==> note.Some? && gone >= 1 && LooksLikeMemory(raw[0]))
    && (verbatim && note.Some? ==> IsNoteFor(note.value, raw[..gone], imitated))
  }

  lemma EvictedFits(raw: seq<Message>, start: nat, cut: nat, taken: bool, verbatim: bool, n: string)
    requires start + cut <= |raw|
    requires taken ==> start >= 1 && LooksLikeMemory(raw[0])
    requires verbatim ==> IsNoteFor(n, raw[..start] + raw[start..][..cut], taken)
    ensures Fits(raw, [Memory(n)] + raw[start..][cut..], Some(n), start + cut, taken, verbatim)
  {
    assert raw[..start] + raw[start..][..cut] == raw[..start + cut];
    assert raw[start..][cut..] == raw[start + cut..];
  }

  /** The note: the provider's answer, or the fallback over the same input. */
  method Consolidate(prior: string, evicted: seq<Message>, answer: Option<string>) returns (note: string)
    ensures answer.Some? ==> note == answer.value
    ensures answer.None? ==> KeyLines(note) == KeyLines(ConsolidationInput(prior, evicted))
  {
    var texts := MessagesToText(evicted);
    var input := if prior != "" then PRIOR_HEADER + "\n" + prior + "\n\n" + texts else texts;
    if answer.Some? {
      return answer.value;
    }
    note := VerbatimFallback(input);
    FallbackLosesNothing(input);
  }

  /** The note for the messages the prior note stands for and those evicted now. */
  method NoteOver(prior: string, evicted: seq<Message>, answer: Option<string>,
                  ghost ms: seq<Message>, ghost taken: bool, ghost faithful: bool) returns (note: string)
    requires faithful ==> IsNoteFor(prior, ms, taken)
    requires taken ==> ms != []
    ensures answer.Some? ==> note == answer.value
    ensures faithful && answer.None? ==> IsNoteFor(note, ms + evicted, taken)
  {
    note := Consolidate(prior, evicted, answer);
    if faithful && answer.None? {
      NextNote(prior, ms, evicted, taken, note);
    }
  }

  /** The new window: one memory message, and what is kept of the messages behind the head. */
  method NewWindow(prior: string, rest: seq<Message>, cut: nat, answer: Option<string>,
                   ghost raw: seq<Message>, ghost start: nat, ghost taken: bool, ghost faithful: bool)
    returns (window: seq<Message>, ghost note: string)
    requires start <= |raw| && rest == raw[start..] && cut <= |rest|
    requires taken ==> start >= 1 && LooksLikeMemory(raw[0])
    requires faithful ==> IsNoteFor(prior, raw[..start], taken)
    ensures Fits(raw, window, Some(note), start + cut, taken, faithful && answer.None?)
  {
    var n := NoteOver(prior, rest[..cut], answer, raw[..start], taken, faithful);
    EvictedFits(raw, start, cut, taken, faithful && answer.None?, n);
    window, note := [Memory(n)] + rest[cut..], n;
  }

  /** A window that fits a history fits no longer one. */
  lemma WindowTooShort(begun: seq<Message>, raw: seq<Message>, working: seq<Message>, note: Option<string>, gone: nat,
                       imitated: bool, verbatim: bool)
    requires begun <= raw && Fits(begun, working, note, gone, imitated, verbatim) && note.Some?
    ensures Fits(raw, working, note, gone, imitated, verbatim) <==> raw == begun
  {
  }

  class SleepConsolidatingContext {
    const keepRecent: int
    const enabled: bool
    var raw: seq<Message>
    var working: seq<Message>
    /** How many of the raw messages the note stands for, once there is one. */
    ghost var note: Option<string>
    ghost var gone: nat
    /** The first raw message was taken for a memory message. */
    ghost var imitated: bool
    /** No provider has answered since the buffers were last set. */
    ghost var verbatim: bool

    ghost predicate Valid()
      reads this
    {
      Fits(raw, working, note, gone, imitated, verbatim)
    }

    /** How many of the raw messages stand behind the head of the window: those the note
        stands for, or a first message that looks like a note. */
    ghost function Head(): nat
      reads this
    {
      if note.None? && raw != [] && LooksLikeMemory(raw[0]) then 1 else gone
    }

    constructor (keepRecent: int, enabled: bool)
      ensures Valid() && raw == [] && working == [] && note.None? && gone == 0
      ensures this.keepRecent == keepRecent && this.enabled == enabled && verbatim
    {
      this.keepRecent, this.enabled := keepRecent, enabled;
      raw, working, note, gone, imitated, verbatim := [], [], None, 0, false, true;
    }

    /** `over` is the answer of the token estimate. */
    method AddMessage(m: Message, over: bool, answer: Option<string>)
      requires Valid()
      modifies this
      ensures Valid() && raw == old(raw) + [m]
      ensures old(gone) <= gone
      ensures !(enabled && over) ==> working == old(working) + [m] && note == old(note) && gone == old(gone)
      ensures enabled && over && keepRecent >= 1 ==>
                |raw| - gone <= keepRecent + (if note.None? && LooksLikeMemory(raw[0]) then 1 else 0)
      ensures old(verbatim) && answer.None? ==> verbatim
      ensures keepRecent == 0 && !LooksLikeMemory(raw[0]) ==> gone == old(gone)
      ensures note.Some? ==> imitated == if old(note).Some? then old(imitated) else LooksLikeMemory(raw[0])
    {
      ghost var before := raw[gone..];
      assert (raw + [m])[gone..] == before + [m] && (raw + [m])[..gone] == raw[..gone];
      raw := raw + [m];
      working := working + [m];
      if enabled && over {
        Compact(answer);
      }
    }

    method SetMessages(ms: seq<Message>)
      modifies this
      ensures Valid() && raw == ms && working == ms && verbatim
    {
      raw, working, note, gone, imitated, verbatim := ms, ms, None, 0, false, true;
    }

    method Clear()
      modifies this
      ensures Valid() && raw == [] && working == [] && verbatim
    {
      raw, working, note, gone, imitated, verbatim := [], [], None, 0, false, true;
    }

    /** One pass; `answer` is the provider's note, None when there is no provider or it
        failed. It does nothing while no more than `keepRecent` messages stand in the window.
        Else, with a positive `keepRecent`, it leaves exactly that many; with zero it evicts
        nothing, ever; with a negative one it evicts as many as that says. */
    method Compact(answer: Option<string>)
      requires Valid()
      modifies this`working, this`note, this`gone, this`imitated, this`verbatim
      ensures Valid() && old(gone) <= gone
      ensures old(verbatim) && answer.None? ==> verbatim
      ensures |raw| - old(Head()) <= keepRecent ==> working == old(working) && note == old(note) && gone == old(gone)
      ensures |raw| - old(Head()) > keepRecent ==> note.Some? && gone == Head()
      ensures |raw| - old(Head()) > keepRecent >= 1 ==> |raw| - gone == keepRecent
      ensures |raw| - old(Head()) > keepRecent == 0 ==> gone == old(Head())
      ensures |raw| - old(Head()) > 0 > keepRecent ==>
                gone == old(Head()) + if -keepRecent < |raw| - old(Head()) then -keepRecent else |raw| - old(Head())
      ensures note.Some? ==>
                imitated == if old(note).Some? then old(imitated) else raw != [] && LooksLikeMemory(raw[0])
    {
      var prior, rest, start, taken := ReadHead();
      if |rest| <= keepRecent {
        return;
      }
      Resume(prior, rest, Cut(|rest|, keepRecent), answer, raw, start, taken, verbatim);
    }

    /** The rest of a pass, after the points where it is suspended: it replaces the window by
        what follows from the window it began with. `begun` is the raw history then; since
        then messages may have been added. The window still fits the history if and only if
        none was: an added message is neither in the window nor in the note. */
    method Resume(prior: string, rest: seq<Message>, cut: nat, answer: Option<string>,
                  ghost begun: seq<Message>, ghost start: nat, ghost taken: bool, ghost faithful: bool)
      requires begun <= raw
      requires start <= |begun| && rest == begun[start..] && cut <= |rest|
      requires taken ==> start >= 1 && LooksLikeMemory(begun[0])
      requires faithful ==> IsNoteFor(prior, begun[..start], taken)
      modifies this`working, this`note, this`gone, this`imitated, this`verbatim
      ensures Fits(begun, working, note, gone, imitated, verbatim)
      ensures Valid() <==> raw == begun
      ensures |raw| == gone + (|working| - 1) + (|raw| - |begun|)
      ensures note.Some? && gone == start + cut && imitated == taken
      ensures verbatim == (faithful && answer.None?)
    {
      ghost var n;
      working, n := NewWindow(prior, rest, cut, answer, begun, start, taken, faithful);
      note, gone, imitated, verbatim := Some(n), start + cut, taken, faithful && answer.None?;
      WindowTooShort(begun, raw, working, note, gone, imitated, verbatim);
    }

    /** The prior note, if the window starts with one, and the messages behind it. */
    method ReadHead() returns (prior: string, rest: seq<Message>, ghost start: nat, ghost taken: bool)
      requires Valid()
      ensures start <= |raw| && rest == raw[start..]
      ensures taken ==> start >= 1 && LooksLikeMemory(raw[0])
      ensures if taken && !imitated then note.None? && start == 1 else start == gone && taken == imitated
      ensures note.None? ==> (taken <==> raw != [] && LooksLikeMemory(raw[0]))
      ensures verbatim ==> IsNoteFor(prior, raw[..start], taken)
    {
      prior, rest, start, taken := "", working, gone, imitated;
      if working != [] && LooksLikeMemory(working[0]) {
        prior, rest := NoteIn(working[0]), working[1..];
        if note.None? {
          start, taken := 1, true;
        }
      }
      HeadFound(prior, rest, start, taken);
    }

    /** What the look at the head of the window finds: the note so far, or an imitation of
        one, or nothing; and behind it a suffix of the raw history. */
    lemma HeadFound(prior: string, rest: seq<Message>, start: nat, taken: bool)
      requires Valid()
      requires working != [] && LooksLikeMemory(working[0]) ==> prior == NoteIn(working[0]) && rest == working[1..]
      requires !(working != [] && LooksLikeMemory(working[0])) ==> prior == "" && rest == working
      requires working != [] && LooksLikeMemory(working[0]) && note.None? ==> start == 1 && taken
      requires !(working != [] && LooksLikeMemory(working[0]) && note.None?) ==> start == gone && taken == imitated
      ensures start <= |raw| && rest == raw[start..]
      ensures taken ==> start >= 1 && LooksLikeMemory(raw[0])
      ensures verbatim ==> IsNoteFor(prior, raw[..start], taken)
    {
      if note.Some? {
        NoteRoundTrip(note.value);
      } else {
        FirstNote(raw[..start]);
        assert raw[0..] == raw && raw[..0] == [];
      }
    }
  }

  /** Over a whole conversation, compacted whenever the estimate says so and always by the
      fallback: the window is the conversation, or a memory message and a suffix of it; and
      no stripped non-blank line of what went is missing from the note if and only if the
      first message does not look like memory, or its first line stands elsewhere in what
      went. */
  method AnyConversation(keepRecent: int, enabled: bool, ms: seq<Message>, over: seq<bool>)
    returns (working: seq<Message>, ghost note: Option<string>, ghost gone: nat)
    requires |over| == |ms|
    ensures gone <= |ms|
    ensures working == if note.Some? then [Memory(note.value)] + ms[gone..] else ms
    ensures note.Some? ==> ms != []
    ensures note.Some? ==>
              (NothingLost(note.value, ms[..gone]) <==>
               (LooksLikeMemory(ms[0]) ==> LabelledLine(ms[0]) in GoneLines(ms[..gone], true)))
    ensures keepRecent == 0 && (ms == [] || !LooksLikeMemory(ms[0])) ==> gone == 0
  {
    var context := new SleepConsolidatingContext(keepRecent, enabled);
    AddAll(context, ms, over);
    working, note, gone := context.working, context.note, context.gone;
    if note.Some? {
      NothingLostExactly(note.value, ms[..gone], context.imitated);
    }
  }

  method AddAll(context: SleepConsolidatingContext, ms: seq<Message>, over: seq<bool>)
    requires |over| == |ms| && context.Valid() && context.verbatim && context.raw == []
    requires context.gone == 0 && context.note.None?
    modifies context
    ensures context.Valid() && context.verbatim && context.raw == ms
    ensures context.note.Some? ==> ms != [] && (context.imitated <==> LooksLikeMemory(ms[0]))
    ensures context.keepRecent == 0 && (ms == [] || !LooksLikeMemory(ms[0])) ==> context.gone == 0
  {
    for i := 0 to |ms|
      invariant context.Valid() && context.verbatim
      invariant context.raw == ms[..i]
      invariant context.note.Some? ==> i > 0 && (context.imitated <==> LooksLikeMemory(ms[0]))
      invariant context.keepRecent == 0 && (ms == [] || !LooksLikeMemory(ms[0])) ==> context.gone == 0
    {
      assert ms[..i + 1] == ms[..i] + [ms[i]] && ms[..i + 1][0] == ms[0];
      context.AddMessage(ms[i], over[i], None);
    }
    assert ms[..|ms|] == ms;
  }
}
