/** Lines of text: `str.splitlines`, and the stripped non-blank lines a text holds. */
module Lines {
  import opened Text

  predicate IsBreak(c: char) {
    c in {'\n', '\r', '\U{0b}', '\U{0c}', '\U{1c}', '\U{1d}', '\U{1e}', '\U{85}', '\U{2028}', '\U{2029}'}
  }

  /** The first line break from `from` on; the length of the text when there is none. */
  function FindLineEnd(s: string, from: nat): (i: nat)
    requires from <= |s|
    ensures from <= i <= |s|
    ensures i < |s| ==> IsBreak(s[i])
    ensures forall j :: from <= j < i ==> !IsBreak(s[j])
    decreases |s| - from
  {
    if from == |s| || IsBreak(s[from]) then from else FindLineEnd(s, from + 1)
  }

  /** The break at `i`, with `\r\n` taken as one. */
  function AfterBreak(s: string, i: nat): (j: nat)
    requires i < |s|
    ensures i < j <= |s|
  {
    if s[i] == '\r' && i + 1 < |s| && s[i + 1] == '\n' then i + 2 else i + 1
  }

  function SplitLines(s: string): seq<string>
    decreases |s|
  {
    if s == "" then []
    else
      var i := FindLineEnd(s, 0);
      if i == |s| then [s] else [s[..i]] + SplitLines(s[AfterBreak(s, i)..])
  }

  predicate OneLine(s: string) {
    forall c :: c in s ==> !IsBreak(c)
  }

  function Keys(lines: seq<string>): set<string> {
    set l | l in lines && Strip(l) != "" :: Strip(l)
  }

  /** The stripped non-blank lines of a text. */
  function KeyLines(s: string): set<string> {
    Keys(SplitLines(s))
  }

  function KeyOf(line: string): set<string> {
    if Strip(line) != "" then {Strip(line)} else {}
  }

  lemma KeysCons(line: string, lines: seq<string>)
    ensures Keys([line] + lines) == KeyOf(line) + Keys(lines)
  {
    assert forall l :: l in [line] + lines <==> l == line || l in lines;
  }

  lemma KeysSnoc(lines: seq<string>, line: string)
    ensures Keys(lines + [line]) == Keys(lines) + KeyOf(line)
  {
    assert forall l :: l in lines + [line] <==> l in lines || l == line;
  }

  lemma EmptyKey()
    ensures KeyOf("") == {} && KeyLines("") == {}
  {
  }

  /** One line end and what follows. */
  lemma KeyLinesFirst(s: string, i: nat)
    requires i < |s| && i == FindLineEnd(s, 0)
    ensures KeyLines(s) == KeyOf(s[..i]) + KeyLines(s[AfterBreak(s, i)..])
  {
    KeysCons(s[..i], SplitLines(s[AfterBreak(s, i)..]));
  }

  lemma KeyLinesOneLine(s: string)
    requires OneLine(s)
    ensures KeyLines(s) == KeyOf(s) && (s != "" ==> SplitLines(s) == [s])
  {
    if s != "" {
      assert forall j :: 0 <= j < |s| ==> s[j] in s;
      assert FindLineEnd(s, 0) == |s|;
      KeysCons(s, []);
      assert [s] + [] == [s];
    }
  }

  lemma {:induction false} LineEndAt(s: string, from: nat, i: nat)
    requires from <= i < |s| && IsBreak(s[i]) && forall j :: from <= j < i ==> !IsBreak(s[j])
    ensures FindLineEnd(s, from) == i
    decreases i - from
  {
    if from < i {
      LineEndAt(s, from + 1, i);
    }
  }

  /** A text that starts with a newline has the lines of the rest. */
  lemma LeadingNewline(s: string)
    requires s != "" && s[0] == '\n'
    ensures KeyLines(s) == KeyLines(s[1..])
  {
    KeyLinesFirst(s, 0);
    assert s[..0] == "";
    EmptyKey();
  }

  lemma FirstLineEnd(a: string, b: char, c: string)
    requires IsBreak(b)
    ensures FindLineEnd(a + [b] + c, 0) == FindLineEnd(a, 0)
  {
    var s := a + [b] + c;
    assert forall j :: 0 <= j < |a| ==> s[j] == a[j];
    assert s[|a|] == b;
    LineEndAt(s, 0, FindLineEnd(a, 0));
  }

  lemma RestBehindJoin(a: string, b: char, c: string)
    ensures var s := a + [b] + c;
            var rest := s[AfterBreak(s, |a|)..];
            s[..|a|] == a && (rest == c || (c != "" && c[0] == '\n' && rest == c[1..]))
  {
    var s := a + [b] + c;
    var k := AfterBreak(s, |a|);
    if k == |a| + 2 {
      assert s[|a| + 1] == c[0] && s[k..] == c[1..];
    } else {
      assert s[k..] == c;
    }
  }

  lemma RestBeforeJoin(a: string, b: char, c: string, i: nat)
    requires i < |a|
    ensures var s := a + [b] + c;
            var k := AfterBreak(s, i);
            && s[..i] == a[..i]
            && ((AfterBreak(a, i) == |a| && s[k..] == c)
                || (k == AfterBreak(a, i) && s[k..] == a[k..] + [b] + c))
  {
    var s := a + [b] + c;
    assert s[i] == a[i] && s[i + 1] == if i + 1 < |a| then a[i + 1] else b;
    assert s[..i] == a[..i];
  }

  /** The break ends the first line. */
  lemma KeyLinesJoinedAtOnce(a: string, b: char, c: string)
    requires IsBreak(b) && FindLineEnd(a, 0) == |a|
    ensures KeyLines(a + [b] + c) == KeyLines(a) + KeyLines(c)
  {
    var s := a + [b] + c;
    FirstLineEnd(a, b, c);
    KeyLinesFirst(s, |a|);
    RestBehindJoin(a, b, c);
    NoBreakIsOneLine(a);
    KeyLinesOneLine(a);
    if s[AfterBreak(s, |a|)..] != c {
      LeadingNewline(c);
    }
  }

  /** A line break between two texts keeps the lines of both apart, whatever surrounds it. */
  lemma {:induction false} KeyLinesJoined(a: string, b: char, c: string)
    requires IsBreak(b)
    ensures KeyLines(a + [b] + c) == KeyLines(a) + KeyLines(c)
    decreases |a|
  {
    var i := FindLineEnd(a, 0);
    if i == |a| {
      KeyLinesJoinedAtOnce(a, b, c);
    } else {
      FirstLineEnd(a, b, c);
      KeyLinesFirst(a + [b] + c, i);
      KeyLinesFirst(a, i);
      RestBeforeJoin(a, b, c, i);
      var k := AfterBreak(a, i);
      if (a + [b] + c)[AfterBreak(a + [b] + c, i)..] == a[k..] + [b] + c {
        KeyLinesJoined(a[k..], b, c);
      } else {
        EmptyKey();
      }
    }
  }

  lemma NoBreakIsOneLine(s: string)
    requires FindLineEnd(s, 0) == |s|
    ensures OneLine(s)
  {
    forall c | c in s
      ensures !IsBreak(c)
    {
      var j :| 0 <= j < |s| && s[j] == c;
    }
  }

  /** A line break as `str.splitlines` takes them. */
  predicate IsSeparator(sep: string) {
    sep == "\r\n" || (|sep| == 1 && IsBreak(sep[0]))
  }

  /** Splitting gives back the lines that were joined, whichever line break joins them. */
  lemma {:induction false} SplitLinesOfJoin(sep: string, lines: seq<string>)
    requires IsSeparator(sep) && (lines != [] ==> lines[|lines| - 1] != "")
    requires forall i :: 0 <= i < |lines| ==> OneLine(lines[i])
    ensures SplitLines(Join(sep, lines)) == lines
  {
    if |lines| == 1 {
      KeyLinesOneLine(lines[0]);
    } else if |lines| > 1 {
      var first, rest := lines[0], lines[1..];
      SplitLinesOfJoin(sep, rest);
      assert lines == [first] + rest;
      JoinCons(sep, first, rest);
      JoinStarts(sep, rest);
      SplitFirst(first, sep, Join(sep, rest));
    }
  }

  lemma JoinStarts(sep: string, lines: seq<string>)
    requires IsSeparator(sep) && lines != [] && lines[|lines| - 1] != "" && OneLine(lines[0])
    ensures Join(sep, lines) != "" && (sep == "\r" ==> Join(sep, lines)[0] != '\n')
  {
    if |lines| > 1 {
      assert lines == [lines[0]] + lines[1..];
      JoinCons(sep, lines[0], lines[1..]);
    }
    assert lines[0] != "" ==> lines[0][0] in lines[0];
  }

  lemma SplitFirst(first: string, sep: string, rest: string)
    requires OneLine(first) && IsSeparator(sep) && (sep == "\r" ==> rest != "" && rest[0] != '\n')
    ensures SplitLines(first + sep + rest) == [first] + SplitLines(rest)
  {
    var s := first + sep + rest;
    var n := |first|;
    assert forall j :: 0 <= j < n ==> s[j] == first[j] && first[j] in first;
    assert s[n] == sep[0] && (|sep| == 2 ==> s[n + 1] == '\n');
    LineEndAt(s, 0, n);
    assert s[..n] == first;
    assert AfterBreak(s, n) == n + |sep|;
    assert s[n + |sep|..] == rest;
  }

  lemma {:induction false} SplitLinesAreLines(s: string)
    ensures forall l :: l in SplitLines(s) ==> OneLine(l)
    decreases |s|
  {
    if s != "" {
      var i := FindLineEnd(s, 0);
      if i == |s| {
        NoBreakIsOneLine(s);
      } else {
        SplitLinesAreLines(s[AfterBreak(s, i)..]);
        PrefixIsOneLine(s, i);
      }
    }
  }

  lemma PrefixIsOneLine(s: string, i: nat)
    requires i <= |s| && forall j :: 0 <= j < i ==> !IsBreak(s[j])
    ensures OneLine(s[..i])
  {
    forall c | c in s[..i]
      ensures !IsBreak(c)
    {
      var j :| 0 <= j < i && s[..i][j] == c;
      assert s[j] == c;
    }
  }

  /** Joining lines with newlines gives a text with just those lines. */
  lemma {:induction false} KeyLinesOfJoin(lines: seq<string>)
    requires forall l :: l in lines ==> OneLine(l)
    ensures KeyLines(Join("\n", lines)) == Keys(lines)
  {
    if lines == [] {
      EmptyKey();
    } else {
      var front, last := lines[..|lines| - 1], lines[|lines| - 1];
      assert lines == front + [last];
      assert last in lines && forall l :: l in front ==> l in lines;
      KeyLinesOfJoin(front);
      KeysSnoc(front, last);
      KeyLinesOneLine(last);
      if front != [] {
        KeyLinesJoined(Join("\n", front), '\n', last);
      }
    }
  }
}
