/** Hybrid search: a cosine pre-cut to three times the wanted number, a re-rank with a
    lexical share, and the lexical union while drawers wait for their vectors. Scores are
    reals; a row's cosine is given. */
module Ranking {
  import opened EventLog

  type RefId = nat

  /** A matrix row or a scored hit. Several rows may share a ref. */
  datatype Item = Item(ref: RefId, score: real)

  // ---------------------------------------------------------------------------
  // Sorting by descending score, then ascending ref
  // ---------------------------------------------------------------------------

  predicate Before(a: Item, b: Item) {
    a.score > b.score || (a.score == b.score && a.ref <= b.ref)
  }

  ghost predicate Ordered(s: seq<Item>) {
    forall i, j :: 0 <= i < j < |s| ==> Before(s[i], s[j])
  }

  function Insert(s: seq<Item>, x: Item): (r: seq<Item>)
    ensures |r| == |s| + 1
  {
    if s == [] || Before(s[|s| - 1], x) then s + [x]
    else Insert(s[..|s| - 1], x) + [s[|s| - 1]]
  }

  /** `sorted(...)` with the key (-score, ref). */
  function Sorted(s: seq<Item>): (r: seq<Item>)
    ensures |r| == |s|
  {
    if s == [] then [] else Insert(Sorted(s[..|s| - 1]), s[|s| - 1])
  }

  lemma {:induction false} InsertAdds(s: seq<Item>, x: Item)
    ensures multiset(Insert(s, x)) == multiset(s) + multiset{x}
  {
    if s != [] && !Before(s[|s| - 1], x) {
      InsertAdds(s[..|s| - 1], x);
      assert s == s[..|s| - 1] + [s[|s| - 1]];
    }
  }

  lemma {:induction false} InsertOrdered(s: seq<Item>, x: Item)
    requires Ordered(s)
    ensures Ordered(Insert(s, x))
  {
    if s != [] && !Before(s[|s| - 1], x) {
      var front, last := s[..|s| - 1], s[|s| - 1];
      InsertOrdered(front, x);
      forall i | 0 <= i < |Insert(front, x)|
        ensures Before(Insert(front, x)[i], last)
      {
        InsertAt(front, x, i);
      }
    }
  }

  lemma {:induction false} InsertAt(s: seq<Item>, x: Item, i: nat)
    requires i <= |s|
    ensures Insert(s, x)[i] == x || exists j :: 0 <= j < |s| && Insert(s, x)[i] == s[j]
  {
    if s != [] && !Before(s[|s| - 1], x) && i < |s| {
      InsertAt(s[..|s| - 1], x, i);
    }
  }

  /** The result is ordered and a permutation of the input. */
  lemma {:induction false} SortedOrders(s: seq<Item>)
    ensures Ordered(Sorted(s)) && multiset(Sorted(s)) == multiset(s)
  {
    if s != [] {
      SortedOrders(s[..|s| - 1]);
      InsertOrdered(Sorted(s[..|s| - 1]), s[|s| - 1]);
      InsertAdds(Sorted(s[..|s| - 1]), s[|s| - 1]);
      assert s == s[..|s| - 1] + [s[|s| - 1]];
    }
  }

  lemma Cancel(m: multiset<Item>, n: multiset<Item>, x: Item)
    requires m + multiset{x} == n + multiset{x}
    ensures m == n
  {
    assert m == m + multiset{x} - multiset{x};
    assert n == n + multiset{x} - multiset{x};
  }

  lemma MiddleOut(p: seq<Item>, x: Item, q: seq<Item>)
    ensures multiset(p + [x] + q) == multiset(p + q) + multiset{x}
  {
  }

  lemma DropLast(a: seq<Item>, b: seq<Item>)
    requires multiset(a) == multiset(b) && a != [] && b != [] && a[|a| - 1] == b[|b| - 1]
    ensures multiset(a[..|a| - 1]) == multiset(b[..|b| - 1])
  {
    assert a == a[..|a| - 1] + [a[|a| - 1]] && b == b[..|b| - 1] + [b[|b| - 1]];
    Cancel(multiset(a[..|a| - 1]), multiset(b[..|b| - 1]), a[|a| - 1]);
  }

  lemma SameLength(a: seq<Item>, b: seq<Item>)
    requires multiset(a) == multiset(b)
    ensures |a| == |b|
  {
    assert |a| == |multiset(a)| && |b| == |multiset(b)|;
  }

  /** The order is total, so a permutation has one ordered arrangement only. */
  lemma {:induction false} OrderedUnique(a: seq<Item>, b: seq<Item>)
    requires Ordered(a) && Ordered(b) && multiset(a) == multiset(b)
    ensures a == b
  {
    SameLength(a, b);
    if a != [] {
      LastIsLeast(a, b);
      LastIsLeast(b, a);
      DropLast(a, b);
      OrderedUnique(a[..|a| - 1], b[..|b| - 1]);
      assert a == a[..|a| - 1] + [a[|a| - 1]] && b == b[..|b| - 1] + [b[|b| - 1]];
    }
  }

  lemma LastIsLeast(a: seq<Item>, b: seq<Item>)
    requires a != [] && |a| == |b| && Ordered(b) && multiset(a) == multiset(b)
    ensures Before(a[|a| - 1], b[|b| - 1])
  {
    assert a[|a| - 1] in multiset(b);
    var i :| 0 <= i < |b| && b[i] == a[|a| - 1];
  }

  /** The last item of a sequence, found in a permutation of it: what is left of both still
      matches. */
  lemma TakeOut(a: seq<Item>, b: seq<Item>) returns (p: seq<Item>, q: seq<Item>)
    requires multiset(a) == multiset(b) && a != []
    ensures b == p + [a[|a| - 1]] + q && multiset(a[..|a| - 1]) == multiset(p + q)
  {
    var x := a[|a| - 1];
    assert x in multiset(b);
    var i :| 0 <= i < |b| && b[i] == x;
    p, q := b[..i], b[i + 1..];
    assert b == p + [x] + q;
    RestMatches(a, p, q);
  }

  lemma RestMatches(a: seq<Item>, p: seq<Item>, q: seq<Item>)
    requires a != [] && multiset(a) == multiset(p + [a[|a| - 1]] + q)
    ensures multiset(a[..|a| - 1]) == multiset(p + q)
  {
    MiddleOut(p, a[|a| - 1], q);
    assert a == a[..|a| - 1] + [a[|a| - 1]];
    Cancel(multiset(a[..|a| - 1]), multiset(p + q), a[|a| - 1]);
  }

  function Take<T>(s: seq<T>, k: int): seq<T> {
    if k <= 0 then [] else if k < |s| then s[..k] else s
  }

  // ---------------------------------------------------------------------------
  // The lexical share
  // ---------------------------------------------------------------------------

  /** Over the token sets of a query and a text. */
  function LexicalScore(query: set<string>, text: set<string>): (r: real)
    ensures 0.0 <= r <= 1.0
    ensures r == 1.0 <==> query != {} && query <= text
    ensures r == 0.0 <==> query !! text
  {
    if query == {} then 0.0
    else
      OverlapSize(query, text);
      |query * text| as real / |query| as real
  }

  /** Each token of the query counts the same. */
  lemma TokensCountAlike(query: set<string>, text: set<string>, token: string)
    requires token in query && token !in text
    ensures LexicalScore(query, text + {token}) == LexicalScore(query, text) + 1.0 / |query| as real
  {
    assert query * (text + {token}) == query * text + {token};
  }

  lemma OverlapSize(query: set<string>, text: set<string>)
    ensures |query * text| <= |query|
    ensures |query * text| == |query| <==> query <= text
    ensures |query * text| == 0 <==> query !! text
  {
    var both, rest := query * text, query - text;
    assert query == both + rest && both !! rest;
    assert |query| == |both| + |rest|;
    if query <= text {
      assert both == query;
    } else {
      var x :| x in query && x !in text;
      assert x in rest;
    }
  }

  /** What each drawer's content scores; never outside the unit interval. */
  ghost predicate Lexical(lex: RefId -> real) {
    forall r :: 0.0 <= lex(r) <= 1.0
  }

  function Hybrid(x: Item, lex: RefId -> real): Item {
    Item(x.ref, 0.85 * x.score + 0.15 * lex(x.ref))
  }

  function Hybrids(rows: seq<Item>, lex: RefId -> real): (r: seq<Item>)
    ensures |r| == |rows|
  {
    if rows == [] then [] else Hybrids(rows[..|rows| - 1], lex) + [Hybrid(rows[|rows| - 1], lex)]
  }

  lemma {:induction false} HybridsJoined(a: seq<Item>, b: seq<Item>, lex: RefId -> real)
    ensures Hybrids(a + b, lex) == Hybrids(a, lex) + Hybrids(b, lex)
  {
    if b == [] {
      assert a + b == a;
    } else {
      HybridsJoined(a, b[..|b| - 1], lex);
      assert (a + b)[..|a + b| - 1] == a + b[..|b| - 1];
    }
  }

  lemma {:induction false} HybridAt(rows: seq<Item>, lex: RefId -> real, i: nat)
    requires i < |rows|
    ensures Hybrids(rows, lex)[i] == Hybrid(rows[i], lex)
  {
    if i < |rows| - 1 {
      HybridAt(rows[..|rows| - 1], lex, i);
    }
  }

  lemma HybridsAround(p: seq<Item>, x: Item, q: seq<Item>, lex: RefId -> real)
    ensures Hybrids(p + [x] + q, lex) == Hybrids(p, lex) + [Hybrid(x, lex)] + Hybrids(q, lex)
    ensures Hybrids(p + q, lex) == Hybrids(p, lex) + Hybrids(q, lex)
  {
    HybridsJoined(p + [x], q, lex);
    HybridsJoined(p, [x], lex);
    HybridsJoined(p, q, lex);
    assert [x][..0] == [];
  }

  lemma HybridsMiddle(p: seq<Item>, x: Item, q: seq<Item>, lex: RefId -> real)
    ensures multiset(Hybrids(p + [x] + q, lex)) == multiset(Hybrids(p + q, lex)) + multiset{Hybrid(x, lex)}
  {
    HybridsAround(p, x, q, lex);
    MiddleOut(Hybrids(p, lex), Hybrid(x, lex), Hybrids(q, lex));
  }

  lemma {:induction false} HybridsPermuted(a: seq<Item>, b: seq<Item>, lex: RefId -> real)
    requires multiset(a) == multiset(b)
    ensures multiset(Hybrids(a, lex)) == multiset(Hybrids(b, lex))
    decreases |a|
  {
    SameLength(a, b);
    if a != [] {
      var p, q := TakeOut(a, b);
      HybridsPermuted(a[..|a| - 1], p + q, lex);
      HybridsMiddle(p, a[|a| - 1], q, lex);
    }
  }

  // ---------------------------------------------------------------------------
  // Search
  // ---------------------------------------------------------------------------

  function CutSize(k: int): int {
    if 3 * k > 1 then 3 * k else 1
  }

  /** `_fast_vector_query` over the in-scope rows. */
  function Candidates(rows: seq<Item>, k: int): seq<Item> {
    Take(Sorted(rows), CutSize(k))
  }

  function InScope(rows: seq<Item>, scope: Option<set<RefId>>): seq<Item> {
    if rows == [] then []
    else
      var rest := InScope(rows[..|rows| - 1], scope);
      if scope.None? || rows[|rows| - 1].ref in scope.value then rest + [rows[|rows| - 1]] else rest
  }

  /** The rows kept are those in scope, each as often as it was there. */
  lemma {:induction false} InScopeExact(rows: seq<Item>, scope: Option<set<RefId>>, x: Item)
    ensures multiset(InScope(rows, scope))[x] ==
            if scope.None? || x.ref in scope.value then multiset(rows)[x] else 0
    ensures x in InScope(rows, scope) <==> x in rows && (scope.None? || x.ref in scope.value)
  {
    if rows != [] {
      InScopeExact(rows[..|rows| - 1], scope, x);
      assert rows == rows[..|rows| - 1] + [rows[|rows| - 1]];
    }
  }

  function Refs(s: seq<Item>): set<RefId> {
    set x | x in s :: x.ref
  }

  /** The listed drawers not scored yet, each once, by their lexical score alone. */
  function Union(scored: seq<Item>, listing: seq<RefId>, lex: RefId -> real): seq<Item> {
    if listing == [] then scored
    else
      var rest := Union(scored, listing[..|listing| - 1], lex);
      var r := listing[|listing| - 1];
      if r in Refs(rest) then rest else rest + [Item(r, lex(r))]
  }

  /** `pending`: some drawer still carries the needs_embedding marker. */
  function Scored(rows: seq<Item>, k: int, lex: RefId -> real, pending: bool, listing: seq<RefId>): seq<Item> {
    var scored := Hybrids(Candidates(rows, k), lex);
    if pending then Union(scored, listing, lex) else scored
  }

  function Results(rows: seq<Item>, k: int, lex: RefId -> real, pending: bool, listing: seq<RefId>): seq<Item> {
    Take(Sorted(Scored(rows, k, lex, pending, listing)), k)
  }

  /** Every listed drawer by its lexical score alone. */
  function ByWords(listing: seq<RefId>, lex: RefId -> real): seq<Item> {
    seq(|listing|, i requires 0 <= i < |listing| => Item(listing[i], lex(listing[i])))
  }

  /** What a hit can be: a row in scope with both shares of its score, or, while drawers are
      pending or there is no vector, a listed drawer by its words alone. */
  ghost predicate Honest(x: Item, matrix: Option<seq<Item>>, scope: Option<set<RefId>>, lex: RefId -> real,
                         pending: bool, listing: seq<RefId>)
  {
    || (matrix.Some? && exists row :: && row in matrix.value && (scope.None? || row.ref in scope.value)
                                      && x == Item(row.ref, 0.85 * row.score + 0.15 * lex(row.ref)))
    || ((matrix.None? || pending) && x.ref in listing && x.score == lex(x.ref))
  }

  /** The search as it runs; None for the vector means the embedder is not ready. */
  method Search(matrix: Option<seq<Item>>, scope: Option<set<RefId>>, k: int, lex: RefId -> real, pending: bool,
                listing: seq<RefId>) returns (results: seq<Item>)
    ensures matrix.Some? ==> results == Results(InScope(matrix.value, scope), k, lex, pending, listing)
    ensures matrix.None? ==> results == Take(Sorted(ByWords(listing, lex)), k)
    ensures |results| <= (if k < 0 then 0 else k) && Ordered(results)
    ensures forall x :: x in results ==> Honest(x, matrix, scope, lex, pending, listing)
  {
    var scored: seq<Item> := [];
    if matrix.Some? {
      var rows: seq<Item> := [];
      for i := 0 to |matrix.value|
        invariant rows == InScope(matrix.value[..i], scope)
      {
        assert matrix.value[..i + 1][..i] == matrix.value[..i];
        if scope.None? || matrix.value[i].ref in scope.value {
          rows := rows + [matrix.value[i]];
        }
      }
      assert matrix.value[..|matrix.value|] == matrix.value;
      var candidates := Take(Sorted(rows), CutSize(k));
      var seen: set<RefId> := {};
      for i := 0 to |candidates|
        invariant scored == Hybrids(candidates[..i], lex) && seen == Refs(scored)
      {
        assert candidates[..i + 1][..i] == candidates[..i];
        scored := scored + [Hybrid(candidates[i], lex)];
        seen := seen + {candidates[i].ref};
      }
      assert candidates[..|candidates|] == candidates;
      if pending {
        scored := AddListed(scored, seen, listing, lex);
      }
    } else {
      for i := 0 to |listing|
        invariant scored == ByWords(listing[..i], lex)
      {
        scored := scored + [Item(listing[i], lex(listing[i]))];
      }
      assert listing[..|listing|] == listing;
    }
    results := Take(Sorted(scored), k);
    HitsAreSound(matrix, scope, k, lex, pending, listing, results);
  }

  lemma HitsAreSound(matrix: Option<seq<Item>>, scope: Option<set<RefId>>, k: int, lex: RefId -> real,
                     pending: bool, listing: seq<RefId>, results: seq<Item>)
    requires matrix.Some? ==> results == Results(InScope(matrix.value, scope), k, lex, pending, listing)
    requires matrix.None? ==> results == Take(Sorted(ByWords(listing, lex)), k)
    ensures |results| <= (if k < 0 then 0 else k) && Ordered(results)
    ensures forall x :: x in results ==> Honest(x, matrix, scope, lex, pending, listing)
  {
    if matrix.Some? {
      HitsAreOrdered(Scored(InScope(matrix.value, scope), k, lex, pending, listing), k);
    } else {
      HitsAreOrdered(ByWords(listing, lex), k);
    }
    forall x | x in results
      ensures Honest(x, matrix, scope, lex, pending, listing)
    {
      HitIsHonest(matrix, scope, k, lex, pending, listing, x);
    }
  }

  lemma HitsAreOrdered(scored: seq<Item>, k: int)
    ensures Ordered(Take(Sorted(scored), k))
    ensures forall x :: x in Take(Sorted(scored), k) ==> x in scored
  {
    SortedOrders(scored);
    forall x | x in Take(Sorted(scored), k)
      ensures x in scored
    {
      assert x in Sorted(scored);
      assert x in multiset(Sorted(scored));
    }
  }

  lemma HitIsHonest(matrix: Option<seq<Item>>, scope: Option<set<RefId>>, k: int, lex: RefId -> real, pending: bool,
                    listing: seq<RefId>, x: Item)
    requires matrix.Some? ==> x in Results(InScope(matrix.value, scope), k, lex, pending, listing)
    requires matrix.None? ==> x in Take(Sorted(ByWords(listing, lex)), k)
    ensures Honest(x, matrix, scope, lex, pending, listing)
  {
    if matrix.Some? {
      var rows := InScope(matrix.value, scope);
      HitsAreOrdered(Scored(rows, k, lex, pending, listing), k);
      var vectors, all := Hybrids(Candidates(rows, k), lex), Scored(rows, k, lex, pending, listing);
      UnionAdds(vectors, listing, lex);
      var i :| 0 <= i < |all| && all[i] == x;
      assert pending && i >= |vectors| ==> AddedOnce(all, i, listing, lex);
      if x in Hybrids(Candidates(rows, k), lex) {
        CandidateIsRow(matrix.value, scope, k, lex, x);
      }
    } else {
      HitsAreOrdered(ByWords(listing, lex), k);
      var i :| 0 <= i < |listing| && ByWords(listing, lex)[i] == x;
    }
  }

  lemma CandidateIsRow(rows: seq<Item>, scope: Option<set<RefId>>, k: int, lex: RefId -> real, x: Item)
    requires x in Hybrids(Candidates(InScope(rows, scope), k), lex)
    ensures exists row :: && row in rows && (scope.None? || row.ref in scope.value)
                          && x == Item(row.ref, 0.85 * row.score + 0.15 * lex(row.ref))
  {
    var kept := Candidates(InScope(rows, scope), k);
    var i :| 0 <= i < |kept| && Hybrids(kept, lex)[i] == x;
    HybridAt(kept, lex, i);
    HitsAreOrdered(InScope(rows, scope), CutSize(k));
    assert kept[i] in kept;
    InScopeExact(rows, scope, kept[i]);
  }

  method AddListed(start: seq<Item>, seenAtStart: set<RefId>, listing: seq<RefId>, lex: RefId -> real)
    returns (scored: seq<Item>)
    requires seenAtStart == Refs(start)
    ensures scored == Union(start, listing, lex)
  {
    scored := start;
    var seen := seenAtStart;
    for i := 0 to |listing|
      invariant scored == Union(start, listing[..i], lex) && seen == Refs(scored)
    {
      assert listing[..i + 1][..i] == listing[..i];
      if listing[i] in seen {
        continue;
      }
      scored := scored + [Item(listing[i], lex(listing[i]))];
      seen := seen + {listing[i]};
    }
    assert listing[..|listing|] == listing;
  }

  // ---------------------------------------------------------------------------
  // Counting the hits above a threshold
  // ---------------------------------------------------------------------------

  function AtLeast(s: seq<Item>, t: real): nat {
    if s == [] then 0 else AtLeast(s[..|s| - 1], t) + if s[|s| - 1].score >= t then 1 else 0
  }

  lemma {:induction false} AtLeastJoined(a: seq<Item>, b: seq<Item>, t: real)
    ensures AtLeast(a + b, t) == AtLeast(a, t) + AtLeast(b, t)
  {
    if b == [] {
      assert a + b == a;
    } else {
      AtLeastJoined(a, b[..|b| - 1], t);
      assert (a + b)[..|a + b| - 1] == a + b[..|b| - 1];
    }
  }

  lemma AtLeastAround(p: seq<Item>, x: Item, q: seq<Item>, t: real)
    ensures AtLeast(p + [x] + q, t) == AtLeast(p + q, t) + if x.score >= t then 1 else 0
  {
    AtLeastJoined(p + [x], q, t);
    AtLeastJoined(p, [x], t);
    AtLeastJoined(p, q, t);
    assert [x][..0] == [];
  }

  lemma {:induction false} AtLeastPermuted(a: seq<Item>, b: seq<Item>, t: real)
    requires multiset(a) == multiset(b)
    ensures AtLeast(a, t) == AtLeast(b, t)
    decreases |a|
  {
    SameLength(a, b);
    if a != [] {
      var p, q := TakeOut(a, b);
      AtLeastPermuted(a[..|a| - 1], p + q, t);
      AtLeastAround(p, a[|a| - 1], q, t);
    }
  }

  lemma {:induction false} AtLeastAll(s: seq<Item>, t: real)
    ensures AtLeast(s, t) <= |s|
    ensures (forall x :: x in s ==> x.score >= t) ==> AtLeast(s, t) == |s|
    ensures (forall x :: x in s ==> x.score < t) ==> AtLeast(s, t) == 0
  {
    if s != [] {
      AtLeastAll(s[..|s| - 1], t);
      assert s[|s| - 1] in s && forall x :: x in s[..|s| - 1] ==> x in s;
    }
  }

  lemma {:induction false} AtLeastLower(s: seq<Item>, t: real, u: real)
    requires u <= t
    ensures AtLeast(s, t) <= AtLeast(s, u)
  {
    if s != [] {
      AtLeastLower(s[..|s| - 1], t, u);
    }
  }

  lemma {:induction false} SomeAtLeast(s: seq<Item>, t: real) returns (j: nat)
    requires AtLeast(s, t) > 0
    ensures j < |s| && s[j].score >= t
  {
    if s[|s| - 1].score >= t {
      j := |s| - 1;
    } else {
      j := SomeAtLeast(s[..|s| - 1], t);
    }
  }

  /** Of an ordered sequence the first k hold as many of the high scores as k allows. */
  lemma TopKeeps(s: seq<Item>, k: nat, t: real)
    requires Ordered(s)
    ensures AtLeast(Take(s, k), t) >= if AtLeast(s, t) <= k then AtLeast(s, t) else k
  {
    AtLeastAll(s, t);
    if 0 < k < |s| {
      var head, tail := s[..k], s[k..];
      assert s == head + tail;
      AtLeastJoined(head, tail, t);
      if AtLeast(tail, t) > 0 {
        var j := SomeAtLeast(tail, t);
        HeadAbove(s, k, k + j, t);
      }
    }
  }

  lemma HeadAbove(s: seq<Item>, k: nat, j: nat, t: real)
    requires Ordered(s) && k <= j < |s| && s[j].score >= t
    ensures AtLeast(s[..k], t) == k
  {
    forall x | x in s[..k]
      ensures x.score >= t
    {
      var i :| 0 <= i < k && s[i] == x;
      assert Before(s[i], s[j]);
    }
    AtLeastAll(s[..k], t);
  }

  // ---------------------------------------------------------------------------
  // The rank bound
  // ---------------------------------------------------------------------------

  /** A row cut off by cosine is beaten, up to the lexical share, by every row that was not. */
  lemma CutRowIsBeaten(kept: Item, cut: Item, lex: RefId -> real, t: real)
    requires Lexical(lex) && Before(kept, cut) && Hybrid(cut, lex).score >= t
    ensures Hybrid(kept, lex).score >= t - 0.15
  {
    assert 0.0 <= lex(kept.ref) && lex(cut.ref) <= 1.0;
  }

  /** When some row past the cut scores at least `t`, all rows within it score at least
      `t - 0.15`. */
  lemma AllKeptAreClose(order: seq<Item>, m: nat, j: nat, lex: RefId -> real, t: real)
    requires Lexical(lex) && Ordered(order) && m <= j < |order| && Hybrid(order[j], lex).score >= t
    ensures AtLeast(Hybrids(order[..m], lex), t - 0.15) == m
  {
    var kept := Hybrids(order[..m], lex);
    forall x | x in kept
      ensures x.score >= t - 0.15
    {
      var i :| 0 <= i < m && kept[i] == x;
      HybridAt(order[..m], lex, i);
      CutRowIsBeaten(order[i], order[j], lex, t);
    }
    AtLeastAll(kept, t - 0.15);
  }

  /** Of the rows scoring at least `t`, up to k of them, the pre-cut leaves as many rows that
      score at least `t - 0.15`. */
  lemma CutBound(rows: seq<Item>, k: nat, lex: RefId -> real, t: real)
    requires Lexical(lex)
    ensures var n := AtLeast(Hybrids(rows, lex), t);
            AtLeast(Hybrids(Candidates(rows, k), lex), t - 0.15) >= if n <= k then n else k
  {
    SortedOrders(rows);
    HybridsPermuted(Sorted(rows), rows, lex);
    AtLeastPermuted(Hybrids(Sorted(rows), lex), Hybrids(rows, lex), t);
    OrderedCutBound(Sorted(rows), k, lex, t);
  }

  lemma OrderedCutBound(order: seq<Item>, k: nat, lex: RefId -> real, t: real)
    requires Lexical(lex) && Ordered(order)
    ensures var n := AtLeast(Hybrids(order, lex), t);
            AtLeast(Hybrids(Take(order, CutSize(k)), lex), t - 0.15) >= if n <= k then n else k
  {
    var m := CutSize(k);
    if |order| <= m {
      assert Take(order, m) == order;
      AtLeastLower(Hybrids(order, lex), t, t - 0.15);
    } else {
      KeptCutBound(order, m, lex, t);
    }
  }

  lemma KeptCutBound(order: seq<Item>, m: nat, lex: RefId -> real, t: real)
    requires Lexical(lex) && Ordered(order) && m < |order|
    ensures var n, kept := AtLeast(Hybrids(order, lex), t), AtLeast(Hybrids(order[..m], lex), t - 0.15);
            kept >= n || kept == m
  {
    var kept, cut := order[..m], order[m..];
    assert order == kept + cut;
    HybridsJoined(kept, cut, lex);
    AtLeastJoined(Hybrids(kept, lex), Hybrids(cut, lex), t);
    AtLeastLower(Hybrids(kept, lex), t, t - 0.15);
    if AtLeast(Hybrids(cut, lex), t) > 0 {
      var j := SomeAtLeast(Hybrids(cut, lex), t);
      HybridAt(cut, lex, j);
      AllKeptAreClose(order, m, m + j, lex, t);
    }
  }

  /** The i-th item is a listed drawer not scored before, by its words alone. */
  ghost predicate AddedOnce(all: seq<Item>, i: nat, listing: seq<RefId>, lex: RefId -> real)
    requires i < |all|
  {
    all[i].ref in listing && all[i].ref !in Refs(all[..i]) && all[i].score == lex(all[i].ref)
  }

  lemma StaysAdded(rest: seq<Item>, all: seq<Item>, i: nat, front: seq<RefId>, listing: seq<RefId>, lex: RefId -> real)
    requires i < |rest| && rest <= all && front <= listing && AddedOnce(rest, i, front, lex)
    ensures AddedOnce(all, i, listing, lex)
  {
    assert all[..i] == rest[..i];
    var n :| 0 <= n < |front| && front[n] == rest[i].ref;
    assert listing[n] == all[i].ref;
  }

  /** The union adds the listed drawers that were not scored, each once and by its words
      alone, behind what was scored. */
  lemma {:induction false} UnionAdds(scored: seq<Item>, listing: seq<RefId>, lex: RefId -> real)
    ensures var all := Union(scored, listing, lex);
            && scored <= all
            && (forall i :: |scored| <= i < |all| ==> AddedOnce(all, i, listing, lex))
            && (forall r :: r in listing ==> r in Refs(all))
  {
    if listing != [] {
      var front, last := listing[..|listing| - 1], listing[|listing| - 1];
      UnionAdds(scored, front, lex);
      UnionNext(scored, Union(scored, front, lex), front, last, lex);
      assert listing == front + [last];
    }
  }

  lemma UnionNext(scored: seq<Item>, rest: seq<Item>, front: seq<RefId>, last: RefId, lex: RefId -> real)
    requires scored <= rest && forall i :: |scored| <= i < |rest| ==> AddedOnce(rest, i, front, lex)
    requires forall r :: r in front ==> r in Refs(rest)
    ensures var all, listing := if last in Refs(rest) then rest else rest + [Item(last, lex(last))], front + [last];
            && scored <= all
            && (forall i :: |scored| <= i < |all| ==> AddedOnce(all, i, listing, lex))
            && (forall r :: r in listing ==> r in Refs(all))
  {
    var all := if last in Refs(rest) then rest else rest + [Item(last, lex(last))];
    forall i | |scored| <= i < |all|
      ensures AddedOnce(all, i, front + [last], lex)
    {
      if i < |rest| {
        StaysAdded(rest, all, i, front, front + [last], lex);
      } else {
        assert all[..i] == rest;
        assert (front + [last])[|front|] == last;
      }
    }
    RefsGrow(rest, all);
    if last !in Refs(rest) {
      assert all[|rest|] in all;
    }
  }

  lemma RefsGrow(a: seq<Item>, b: seq<Item>)
    requires a <= b
    ensures Refs(a) <= Refs(b)
  {
    forall r | r in Refs(a)
      ensures r in Refs(b)
    {
      var x :| x in a && x.ref == r;
      assert x in b;
    }
  }

  /** While drawers wait for their vectors, every listed drawer competes, once: by its row if
      the vector search found one, else by its words. */
  lemma ListedAreScored(rows: seq<Item>, k: int, lex: RefId -> real, listing: seq<RefId>, r: RefId)
    requires r in listing
    ensures var vectors, all := Hybrids(Candidates(rows, k), lex), Scored(rows, k, lex, true, listing);
            && vectors <= all
            && if r in Refs(vectors) then r !in Refs(all[|vectors|..])
               else exists i :: |vectors| <= i < |all| && all[i] == Item(r, lex(r))
  {
    var vectors, all := Hybrids(Candidates(rows, k), lex), Scored(rows, k, lex, true, listing);
    UnionAdds(vectors, listing, lex);
    if r in Refs(vectors) {
      forall i | |vectors| <= i < |all|
        ensures all[i].ref != r
      {
        assert vectors <= all[..i] && AddedOnce(all, i, listing, lex);
        RefsGrow(vectors, all[..i]);
      }
    } else {
      var x :| x in all && x.ref == r;
      var i :| 0 <= i < |all| && all[i] == x;
      HeadRef(vectors, all, i);
      assert i >= |vectors| ==> AddedOnce(all, i, listing, lex);
    }
  }

  lemma HeadRef(a: seq<Item>, b: seq<Item>, i: nat)
    requires a <= b && i < |b|
    ensures i < |a| ==> b[i].ref in Refs(a)
  {
    if i < |a| {
      assert a[i] in a;
    }
  }

  /** The rank bound. However many rows score at least `t`, the search returns as many hits
      (up to k) that score at least `t - 0.15`: its j-th hit is at most 0.15 below the j-th
      best row, whatever the pre-cut dropped and whatever the union added. */
  lemma RankBound(rows: seq<Item>, k: nat, lex: RefId -> real, pending: bool, listing: seq<RefId>, t: real)
    requires Lexical(lex)
    ensures var n := AtLeast(Hybrids(rows, lex), t);
            AtLeast(Results(rows, k, lex, pending, listing), t - 0.15) >= if n <= k then n else k
  {
    CutBound(rows, k, lex, t);
    UnionAdds(Hybrids(Candidates(rows, k), lex), listing, lex);
    TopOfMore(Hybrids(Candidates(rows, k), lex), Scored(rows, k, lex, pending, listing), k, t - 0.15);
  }

  /** Ranking more items never lowers the number of high scores among the first k. */
  lemma TopOfMore(some: seq<Item>, all: seq<Item>, k: nat, t: real)
    requires some <= all
    ensures AtLeast(Take(Sorted(all), k), t) >= if AtLeast(some, t) <= k then AtLeast(some, t) else k
  {
    assert all == some + all[|some|..];
    AtLeastJoined(some, all[|some|..], t);
    SortedOrders(all);
    AtLeastPermuted(Sorted(all), all, t);
    TopKeeps(Sorted(all), k, t);
  }

  /** With at most 3k rows nothing is lost: the search is the exhaustive hybrid search. */
  lemma NoLossWithinCut(rows: seq<Item>, k: int, lex: RefId -> real, listing: seq<RefId>)
    requires |rows| <= 3 * k || |rows| <= 1
    ensures Results(rows, k, lex, false, listing) == Take(Sorted(Hybrids(rows, lex)), k)
  {
    var order := Sorted(rows);
    assert Candidates(rows, k) == order;
    SortedOrders(rows);
    HybridsPermuted(order, rows, lex);
    SortedOrders(Hybrids(order, lex));
    SortedOrders(Hybrids(rows, lex));
    OrderedUnique(Sorted(Hybrids(order, lex)), Sorted(Hybrids(rows, lex)));
  }

  /** Rows of one cosine, just above 0.5. */
  function Near(n: nat, eps: real): (r: seq<Item>)
    ensures |r| == n
  {
    seq(n, i requires 0 <= i < n => Item(i + 1, 0.5 + eps))
  }

  lemma NearHybrids(n: nat, eps: real, lex: RefId -> real)
    requires forall r :: r > 0 ==> lex(r) == 0.0
    ensures Ordered(Hybrids(Near(n, eps), lex))
    ensures forall i :: 0 <= i < n ==> Hybrids(Near(n, eps), lex)[i] == Item(i + 1, 0.85 * (0.5 + eps))
  {
    forall i | 0 <= i < n
      ensures Hybrids(Near(n, eps), lex)[i] == Item(i + 1, 0.85 * (0.5 + eps))
    {
      HybridAt(Near(n, eps), lex, i);
    }
  }

  lemma NearAreKept(k: nat, eps: real)
    requires k >= 1 && eps > 0.0
    ensures Candidates(Near(3 * k, eps) + [Item(0, 0.5)], k) == Near(3 * k, eps)
  {
    SortsItself(Near(3 * k, eps) + [Item(0, 0.5)]);
  }

  lemma NearestFirst(k: nat, eps: real, lex: RefId -> real)
    requires k >= 1 && eps > 0.0 && forall r :: r > 0 ==> lex(r) == 0.0
    ensures var hits := Results(Near(3 * k, eps) + [Item(0, 0.5)], k, lex, false, []);
            hits != [] && hits[0].score == 0.85 * (0.5 + eps)
  {
    NearAreKept(k, eps);
    NearHybrids(3 * k, eps, lex);
    SortsItself(Hybrids(Near(3 * k, eps), lex));
  }

  /** The row is among those searched, and the best hit is short of it by that much. */
  ghost predicate ShortBy(rows: seq<Item>, k: nat, lex: RefId -> real, row: Item, short: real) {
    var hits := Results(rows, k, lex, false, []);
    row in rows && hits != [] && hits[0].score == Hybrid(row, lex).score - short
  }

  /** The bound cannot be improved, and the cut is no wider than that, whatever k: the best hit
      can be short of the one row past the first 3k by anything below 0.15. */
  lemma BoundIsTight(k: nat, short: real, lex: RefId -> real)
    requires k >= 1 && 0.0 < short < 0.15 && lex(0) == 1.0 && forall r :: r > 0 ==> lex(r) == 0.0
    ensures exists rows: seq<Item>, row: Item :: |rows| == 3 * k + 1 && ShortBy(rows, k, lex, row, short)
  {
    var eps := (0.15 - short) / 0.85;
    var rows := Near(3 * k, eps) + [Item(0, 0.5)];
    NearestFirst(k, eps, lex);
    assert rows[3 * k] == Item(0, 0.5);
    assert 0.85 * (0.5 + eps) == 0.425 + 0.15 - short;
    assert |rows| == 3 * k + 1 && ShortBy(rows, k, lex, Item(0, 0.5), short);
  }

  lemma {:induction false} SortsItself(s: seq<Item>)
    requires Ordered(s)
    ensures Sorted(s) == s
  {
    SortedOrders(s);
    OrderedUnique(Sorted(s), s);
  }
}
