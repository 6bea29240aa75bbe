/** Strings as sequences of characters: white space, stripping and joining. */
module Text {
  /** What Python's `str.strip` and `str.isspace` take for white space. */
  predicate IsSpace(c: char) {
    c in {' ', '\t', '\n', '\r', '\U{0b}', '\U{0c}', '\U{1c}', '\U{1d}', '\U{1e}', '\U{1f}', '\U{85}', '\U{a0}',
          '\U{1680}', '\U{2028}', '\U{2029}', '\U{202f}', '\U{205f}', '\U{3000}'}
    || '\U{2000}' <= c <= '\U{200a}'
  }

  predicate Blank(s: string) {
    forall c :: c in s ==> IsSpace(c)
  }

  function StripLeft(s: string): string {
    if s != "" && IsSpace(s[0]) then StripLeft(s[1..]) else s
  }

  function StripRight(s: string): string {
    if s != "" && IsSpace(s[|s| - 1]) then StripRight(s[..|s| - 1]) else s
  }

  function Strip(s: string): string {
    StripRight(StripLeft(s))
  }

  lemma {:induction false} StripLeftBlank(s: string)
    ensures StripLeft(s) == "" <==> Blank(s)
    ensures StripLeft(s) != "" ==> !IsSpace(StripLeft(s)[0])
  {
    if s != "" && IsSpace(s[0]) {
      StripLeftBlank(s[1..]);
      assert s == [s[0]] + s[1..];
    }
  }

  lemma {:induction false} StripRightKeepsHead(s: string)
    requires s != "" && !IsSpace(s[0])
    ensures StripRight(s) != "" && StripRight(s)[0] == s[0]
  {
    if IsSpace(s[|s| - 1]) {
      StripRightKeepsHead(s[..|s| - 1]);
    }
  }

  lemma StripBlank(s: string)
    ensures Strip(s) == "" <==> Blank(s)
  {
    StripLeftBlank(s);
    if StripLeft(s) != "" {
      StripRightKeepsHead(StripLeft(s));
    }
  }

  /** Stripping takes white space off both ends, all of it, and nothing else. */
  lemma {:induction false} StripExact(s: string) returns (a: string, b: string)
    ensures s == a + Strip(s) + b && Blank(a) && Blank(b)
    ensures Strip(s) != "" ==> !IsSpace(Strip(s)[0]) && !IsSpace(Strip(s)[|Strip(s)| - 1])
  {
    var t := StripLeft(s);
    a := LeftStripped(s);
    b := RightStripped(t);
    StripLeftBlank(s);
    if t != "" {
      StripRightKeepsHead(t);
    }
    assert a + (Strip(s) + b) == a + Strip(s) + b;
  }

  lemma {:induction false} LeftStripped(s: string) returns (a: string)
    ensures s == a + StripLeft(s) && Blank(a)
  {
    a := "";
    if s != "" && IsSpace(s[0]) {
      a := LeftStripped(s[1..]);
      a := [s[0]] + a;
    }
  }

  lemma {:induction false} RightStripped(s: string) returns (b: string)
    ensures s == StripRight(s) + b && Blank(b)
    ensures StripRight(s) != "" ==> !IsSpace(StripRight(s)[|StripRight(s)| - 1])
  {
    b := "";
    if s != "" && IsSpace(s[|s| - 1]) {
      b := RightStripped(s[..|s| - 1]);
      b := b + [s[|s| - 1]];
    }
  }

  // ---------------------------------------------------------------------------
  // The characters that are not white space
  // ---------------------------------------------------------------------------

  function Visible(s: string): string {
    if s == "" then ""
    else
      var rest := Visible(s[..|s| - 1]);
      if IsSpace(s[|s| - 1]) then rest else rest + [s[|s| - 1]]
  }

  lemma {:induction false} VisibleJoined(a: string, b: string)
    ensures Visible(a + b) == Visible(a) + Visible(b)
  {
    if b == "" {
      assert a + b == a;
    } else {
      VisibleJoined(a, b[..|b| - 1]);
      assert (a + b)[..|a + b| - 1] == a + b[..|b| - 1];
    }
  }

  lemma {:induction false} BlankIsInvisible(s: string)
    ensures Visible(s) == "" <==> Blank(s)
  {
    if s != "" {
      BlankIsInvisible(s[..|s| - 1]);
      assert s == s[..|s| - 1] + [s[|s| - 1]];
    }
  }

  /** The pieces with `sep` between them. */
  function Join(sep: string, pieces: seq<string>): string {
    if pieces == [] then ""
    else if |pieces| == 1 then pieces[0]
    else Join(sep, pieces[..|pieces| - 1]) + sep + pieces[|pieces| - 1]
  }

  lemma JoinSnoc(sep: string, pieces: seq<string>, s: string)
    requires pieces != []
    ensures Join(sep, pieces + [s]) == Join(sep, pieces) + sep + s
  {
    assert (pieces + [s])[..|pieces|] == pieces;
  }

  lemma {:induction false} JoinCons(sep: string, s: string, pieces: seq<string>)
    requires pieces != []
    ensures Join(sep, [s] + pieces) == s + sep + Join(sep, pieces)
  {
    var front, last := pieces[..|pieces| - 1], pieces[|pieces| - 1];
    assert ([s] + pieces)[..|pieces|] == [s] + front;
    if front == [] {
      assert [s] + front == [s];
    } else {
      JoinCons(sep, s, front);
      Associates(s + sep, Join(sep, front), sep, last);
    }
  }

  /** Where one of the pieces stands in the joined text. */
  lemma {:induction false} JoinAround(sep: string, p: seq<string>, t: string, q: seq<string>)
    ensures Join(sep, p + [t] + q) ==
            (if p == [] then "" else Join(sep, p) + sep) + t + (if q == [] then "" else sep + Join(sep, q))
  {
    if q == [] {
      assert p + [t] + q == p + [t];
      if p != [] {
        JoinSnoc(sep, p, t);
      } else {
        assert p + [t] == [t];
      }
    } else {
      var front, last := q[..|q| - 1], q[|q| - 1];
      JoinAround(sep, p, t, front);
      JoinSnoc(sep, p + [t] + front, last);
      assert p + [t] + q == p + [t] + front + [last];
      if front == [] {
        assert q == [last];
      } else {
        JoinSnoc(sep, front, last);
        assert q == front + [last];
        Associates((if p == [] then "" else Join(sep, p) + sep) + t + sep, Join(sep, front), sep, last);
      }
      Behind((if p == [] then "" else Join(sep, p) + sep) + t, sep, front, last);
    }
  }

  lemma Behind(a: string, sep: string, front: seq<string>, last: string)
    ensures var q := front + [last];
            a + (if front == [] then "" else sep + Join(sep, front)) + sep + last == a + (sep + Join(sep, q))
  {
    if front == [] {
      assert front + [last] == [last];
    } else {
      JoinSnoc(sep, front, last);
    }
    assert a + sep + last == a + (sep + last);
    assert a + (sep + Join(sep, front)) + sep + last == a + (sep + (Join(sep, front) + sep + last));
  }

  lemma Associates(a: string, b: string, c: string, d: string)
    ensures a + b + c + d == a + (b + c + d)
  {
  }
}
