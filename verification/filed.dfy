/** What filing a drawer does to the views built over the log: the valid facts, the order
    that the incremental matrix relies on, and the embedding matrix itself. */
module Filed {
  import opened EventLog
  import opened SearchFolds
  import opened Batches
  import Facts

  // ---------------------------------------------------------------------------
  // Appending in general
  // ---------------------------------------------------------------------------

  lemma AppendedWellNumbered(k: Kernel, events: seq<Event>)
    requires WellNumbered(k)
    ensures WellNumbered(Appended(k, events))
  {
    AppendedTail(k, events);
    var k' := Appended(k, events);
    forall i | 0 <= i < |k'.log|
      ensures k'.log[i] == if i < |k.log| then k.log[i] else Entry(k.next + i - |k.log|, events[i - |k.log|])
    {
      if i >= |k.log| {
        assert k'.log[|k.log| + (i - |k.log|)] == Entry(k.next + (i - |k.log|), events[i - |k.log|]);
      }
    }
  }

  // ---------------------------------------------------------------------------
  // Edges and the cells at their ends
  // ---------------------------------------------------------------------------

  /** The cell with this content address. */
  function CellOf(r: Ref): Event {
    CellWrite(r.payload, r.interpreters)
  }

  /** Each edge leads from and to cells that are among `written`, or are written ahead of it. */
  ghost predicate Anchored(written: seq<Event>, events: seq<Event>)
    decreases |events|
  {
    events == [] ||
    ((events[0].Relationship? ==> CellOf(events[0].from) in written && CellOf(events[0].to) in written)
     && Anchored(written + [events[0]], events[1..]))
  }

  lemma {:induction false} AnchoredJoined(written: seq<Event>, a: seq<Event>, b: seq<Event>)
    requires Anchored(written, a) && Anchored(written + a, b)
    ensures Anchored(written, a + b)
    decreases |a|
  {
    if a == [] {
      assert a + b == b && written + a == written;
    } else {
      assert written + [a[0]] + a[1..] == written + a;
      AnchoredJoined(written + [a[0]], a[1..], b);
      assert (a + b)[1..] == a[1..] + b;
    }
  }

  /** Cut off anywhere, what is there is anchored still. */
  lemma {:induction false} AnchoredPrefix(written: seq<Event>, events: seq<Event>, n: nat)
    requires Anchored(written, events) && n <= |events|
    ensures Anchored(written, events[..n])
    decreases n
  {
    if n > 0 {
      AnchoredPrefix(written + [events[0]], events[1..], n - 1);
      assert events[..n][1..] == events[1..][..n - 1];
    }
  }

  lemma CellThenEdge(written: seq<Event>, payload: Bytes, edge: Event)
    requires edge.Relationship?
    requires CellOf(edge.from) in written + [CellWrite(payload, [])]
    requires CellOf(edge.to) in written + [CellWrite(payload, [])]
    ensures Anchored(written, [CellWrite(payload, []), edge])
  {
    assert [CellWrite(payload, []), edge][1..] == [edge];
    assert Anchored(written + [CellWrite(payload, [])] + [edge], [edge][1..]);
  }

  lemma FactAnchored(written: seq<Event>, subject: Ref, rel: string, value: Option<Bytes>)
    requires CellOf(subject) in written
    ensures Anchored(written, FactEvents(subject, rel, value))
  {
    if value.Some? {
      CellThenEdge(written, value.value, Relationship(subject, Hash(value.value, []), rel));
    }
  }

  lemma EmbeddingAnchored(written: seq<Event>, target: Ref, vector: Option<seq<Float>>)
    requires CellOf(target) in written
    ensures Anchored(written, EmbeddingEvents(target, vector))
  {
    if vector.Some? {
      var raw := Pack(vector.value);
      CellThenEdge(written, raw, Relationship(Hash(raw, []), target, EMBEDDING_OF));
    }
  }

  /** Every edge of a filed drawer leads between cells written ahead of it, so its content, wing
      and room, its facts and its vector can all be read back; cut off anywhere, too. */
  lemma FiledIsAnchored(d: Drawer, n: nat)
    requires n <= |FileEvents(d)|
    ensures Anchored([], FileEvents(d)[..n])
    ensures n > 0 ==> CellOf(Hash(d.content, [])) == FileEvents(d)[0]
  {
    var ref := Hash(d.content, []);
    var a := [CellWrite(d.content, [])];
    var b := a + PairEvents(ref, WING + d.wing, SCOPED_TO);
    var c := b + PairEvents(ref, ROOM + d.room, SCOPED_TO);
    var e := c + FactEvents(ref, HAS_SOURCE, Source(d));
    var f := e + FactEvents(ref, HAS_CATEGORY, d.category);
    var g := f + FactEvents(ref, HAS_IMPORTANCE, d.importance);
    assert Anchored([] + [a[0]], a[1..]);
    assert [] + a == a && [] + b == b && [] + c == c && [] + e == e && [] + f == f && [] + g == g;
    assert a[0] in a && a[0] in b && a[0] in c && a[0] in e && a[0] in f && a[0] in g;
    CellThenEdge(a, WING + d.wing, Relationship(ref, Hash(WING + d.wing, []), SCOPED_TO));
    AnchoredJoined([], a, PairEvents(ref, WING + d.wing, SCOPED_TO));
    CellThenEdge(b, ROOM + d.room, Relationship(ref, Hash(ROOM + d.room, []), SCOPED_TO));
    AnchoredJoined([], b, PairEvents(ref, ROOM + d.room, SCOPED_TO));
    FactAnchored(c, ref, HAS_SOURCE, Source(d));
    AnchoredJoined([], c, FactEvents(ref, HAS_SOURCE, Source(d)));
    FactAnchored(e, ref, HAS_CATEGORY, d.category);
    AnchoredJoined([], e, FactEvents(ref, HAS_CATEGORY, d.category));
    FactAnchored(f, ref, HAS_IMPORTANCE, d.importance);
    AnchoredJoined([], f, FactEvents(ref, HAS_IMPORTANCE, d.importance));
    EmbeddingAnchored(g, ref, d.embedding);
    AnchoredJoined([], g, EmbeddingEvents(ref, d.embedding));
    AnchoredPrefix([], FileEvents(d), n);
  }

  // ---------------------------------------------------------------------------
  // Facts
  // ---------------------------------------------------------------------------

  function ApplyAll(facts: set<Facts.Fact>, events: seq<Event>): set<Facts.Fact> {
    if events == [] then facts else Facts.Apply(ApplyAll(facts, events[..|events| - 1]), events[|events| - 1])
  }

  lemma {:induction false} ValidAppended(k: Kernel, events: seq<Event>)
    ensures Facts.Valid(Appended(k, events).log) == ApplyAll(Facts.Valid(k.log), events)
  {
    if events != [] {
      var before := Appended(k, events[..|events| - 1]);
      ValidAppended(k, events[..|events| - 1]);
      Facts.ValidSnoc(before.log, Entry(before.next, events[|events| - 1]));
    }
  }

  lemma {:induction false} ApplyAllJoined(facts: set<Facts.Fact>, a: seq<Event>, b: seq<Event>)
    ensures ApplyAll(facts, a + b) == ApplyAll(ApplyAll(facts, a), b)
  {
    if b == [] {
      assert a + b == a;
    } else {
      ApplyAllJoined(facts, a, b[..|b| - 1]);
      assert (a + b)[..|a + b| - 1] == a + b[..|b| - 1];
    }
  }

  predicate Asserting(rel: string) {
    !(Facts.INVALIDATE_PREFIX <= rel)
  }

  lemma NamesAreAsserting()
    ensures Asserting(SCOPED_TO) && Asserting(EMBEDDING_OF)
    ensures Asserting(HAS_SOURCE) && Asserting(HAS_CATEGORY) && Asserting(HAS_IMPORTANCE)
  {
    assert Facts.INVALIDATE_PREFIX[0] == '_';
    assert SCOPED_TO[0] == 's' && EMBEDDING_OF[0] == 'e';
    assert HAS_SOURCE[0] == 'h' && HAS_CATEGORY[0] == 'h' && HAS_IMPORTANCE[0] == 'h';
  }

  /** The facts that filing `d` states, scope and embedding edges among them. */
  function FiledFacts(d: Drawer): set<Facts.Fact> {
    var ref := Hash(d.content, []);
    {Facts.Fact(ref, SCOPED_TO, Hash(WING + d.wing, [])), Facts.Fact(ref, SCOPED_TO, Hash(ROOM + d.room, []))}
    + OptionalFact(ref, HAS_SOURCE, if d.source == [] then None else Some(d.source))
    + OptionalFact(ref, HAS_CATEGORY, d.category)
    + OptionalFact(ref, HAS_IMPORTANCE, d.importance)
    + (if d.embedding.Some? then {Facts.Fact(Hash(Pack(d.embedding.value), []), EMBEDDING_OF, ref)} else {})
  }

  function OptionalFact(subject: Ref, predicate_: string, value: Option<Bytes>): set<Facts.Fact> {
    if value.Some? then {Facts.Fact(subject, predicate_, Hash(value.value, []))} else {}
  }

  lemma PairFacts(facts: set<Facts.Fact>, cell: Event, f: Facts.Fact)
    requires cell.CellWrite? && Asserting(f.predicate_)
    ensures ApplyAll(facts, [cell, Facts.Assertion(f)]) == facts + {f}
  {
    Facts.AboutRoundTrip(f);
    var events := [cell, Facts.Assertion(f)];
    assert events[..1] == [cell] && [cell][..0] == [];
    assert ApplyAll(facts, [cell]) == Facts.Apply(ApplyAll(facts, []), cell) == facts;
    assert ApplyAll(facts, events) == Facts.Apply(facts, events[1]);
  }

  lemma OptionalFacts(facts: set<Facts.Fact>, subject: Ref, predicate_: string, value: Option<Bytes>)
    requires Asserting(predicate_)
    ensures ApplyAll(facts, FactEvents(subject, predicate_, value)) == facts + OptionalFact(subject, predicate_, value)
  {
    if value.Some? {
      PairFacts(facts, CellWrite(value.value, []), Facts.Fact(subject, predicate_, Hash(value.value, [])));
    }
  }

  lemma EmbeddingFacts(facts: set<Facts.Fact>, target: Ref, vector: Option<seq<Float>>)
    ensures ApplyAll(facts, EmbeddingEvents(target, vector)) ==
            facts + (if vector.Some? then {Facts.Fact(Hash(Pack(vector.value), []), EMBEDDING_OF, target)} else {})
  {
    NamesAreAsserting();
    if vector.Some? {
      var raw := Pack(vector.value);
      PairFacts(facts, CellWrite(raw, []), Facts.Fact(Hash(raw, []), EMBEDDING_OF, target));
    }
  }

  /** The events for wing and room, and the facts they state. */
  lemma ScopesState(facts: set<Facts.Fact>, cell: Event, ref: Ref, wing: Bytes, room: Bytes)
    requires cell.CellWrite?
    ensures ApplyAll(facts, [cell] + PairEvents(ref, wing, SCOPED_TO) + PairEvents(ref, room, SCOPED_TO)) ==
            facts + {Facts.Fact(ref, SCOPED_TO, Hash(wing, [])), Facts.Fact(ref, SCOPED_TO, Hash(room, []))}
  {
    NamesAreAsserting();
    assert [cell][..0] == [];
    ApplyAllJoined(facts, [cell], PairEvents(ref, wing, SCOPED_TO));
    PairFacts(facts, CellWrite(wing, []), Facts.Fact(ref, SCOPED_TO, Hash(wing, [])));
    var s := [cell] + PairEvents(ref, wing, SCOPED_TO);
    ApplyAllJoined(facts, s, PairEvents(ref, room, SCOPED_TO));
    PairFacts(ApplyAll(facts, s), CellWrite(room, []), Facts.Fact(ref, SCOPED_TO, Hash(room, [])));
  }

  /** Filing states exactly the drawer's own facts; every other fact stays as it was, and
      one that had been invalidated comes back. */
  lemma FilingStates(k: Kernel, d: Drawer)
    ensures Facts.Valid(Appended(k, FileEvents(d)).log) == Facts.Valid(k.log) + FiledFacts(d)
  {
    NamesAreAsserting();
    ValidAppended(k, FileEvents(d));
    var ref := Hash(d.content, []);
    var f0 := Facts.Valid(k.log);
    var s2 := [CellWrite(d.content, [])] + PairEvents(ref, WING + d.wing, SCOPED_TO)
              + PairEvents(ref, ROOM + d.room, SCOPED_TO);
    var s3 := s2 + FactEvents(ref, HAS_SOURCE, Source(d));
    var s4 := s3 + FactEvents(ref, HAS_CATEGORY, d.category);
    var s5 := s4 + FactEvents(ref, HAS_IMPORTANCE, d.importance);
    ScopesState(f0, CellWrite(d.content, []), ref, WING + d.wing, ROOM + d.room);
    ApplyAllJoined(f0, s2, FactEvents(ref, HAS_SOURCE, Source(d)));
    OptionalFacts(ApplyAll(f0, s2), ref, HAS_SOURCE, Source(d));
    ApplyAllJoined(f0, s3, FactEvents(ref, HAS_CATEGORY, d.category));
    OptionalFacts(ApplyAll(f0, s3), ref, HAS_CATEGORY, d.category);
    ApplyAllJoined(f0, s4, FactEvents(ref, HAS_IMPORTANCE, d.importance));
    OptionalFacts(ApplyAll(f0, s4), ref, HAS_IMPORTANCE, d.importance);
    ApplyAllJoined(f0, s5, EmbeddingEvents(ref, d.embedding));
    EmbeddingFacts(ApplyAll(f0, s5), ref, d.embedding);
  }

  /** No event takes a fact away. */
  ghost predicate OnlyAsserts(events: seq<Event>) {
    forall i :: 0 <= i < |events| ==> !Facts.Invalidates(events[i])
  }

  lemma {:induction false} AssertsOnlyAdd(facts: set<Facts.Fact>, events: seq<Event>, left: nat)
    requires OnlyAsserts(events)
    ensures facts <= ApplyAll(facts, Cut(events, left)) <= ApplyAll(facts, events)
    decreases |events|
  {
    if events != [] {
      AssertsOnlyAdd(facts, events[..|events| - 1], left);
      if left < |events| {
        assert Cut(events, left) == Cut(events[..|events| - 1], left);
      }
    }
  }

  /** A filing cut off by a crash states some of the drawer's facts and no other, and takes
      none away. */
  lemma CutFilingStates(k: Kernel, d: Drawer, left: nat)
    ensures var now := Facts.Valid(Appended(k, Cut(FileEvents(d), left)).log);
            Facts.Valid(k.log) <= now <= Facts.Valid(k.log) + FiledFacts(d)
  {
    NamesAreAsserting();
    FilingStates(k, d);
    ValidAppended(k, FileEvents(d));
    ValidAppended(k, Cut(FileEvents(d), left));
    FileRelations(d);
    AssertsOnlyAdd(Facts.Valid(k.log), FileEvents(d), left);
  }

  lemma FileRelations(d: Drawer)
    ensures forall ev :: ev in FileEvents(d) && ev.Relationship? ==>
              ev.rel in {SCOPED_TO, HAS_SOURCE, HAS_CATEGORY, HAS_IMPORTANCE, EMBEDDING_OF}
  {
  }

  // ---------------------------------------------------------------------------
  // Cells precede their edges
  // ---------------------------------------------------------------------------

  /** Each embedding edge comes after the write of its cell, within these events alone. */
  ghost predicate CellsFirst(events: seq<Event>) {
    forall i :: 0 <= i < |events| && IsEmbedding(events[i]) ==>
      exists j :: 0 <= j < i && CellRef(events[j]) == Some(events[i].from)
  }

  lemma HeadCellFirst(log: Log, more: Log, i: nat)
    requires CellsPrecedeEdges(log) && log <= more && i < |log| && IsEmbedding(more[i].ev)
    ensures Defined(more[..i], more[i].ev.from)
  {
    assert more[i] == log[i] && more[..i] == log[..i];
  }

  lemma TailCellFirst(k: Kernel, events: seq<Event>, i: nat)
    requires CellsFirst(events) && i < |events| && IsEmbedding(events[i])
    requires |Appended(k, events).log| == |k.log| + |events|
    ensures Defined(Appended(k, events).log[..|k.log| + i], events[i].from)
    ensures Appended(k, events).log[|k.log| + i].ev == events[i]
  {
    AppendedTail(k, events);
    var n, log := |k.log|, Appended(k, events).log;
    var j :| 0 <= j < i && CellRef(events[j]) == Some(events[i].from);
    assert log[n + j] == Entry(k.next + j, events[j]) && log[n + i] == Entry(k.next + i, events[i]);
    assert log[..n + i][n + j] == log[n + j];
  }

  lemma CellsFirstKept(k: Kernel, events: seq<Event>)
    requires CellsPrecedeEdges(k.log) && CellsFirst(events)
    ensures CellsPrecedeEdges(Appended(k, events).log)
  {
    var log := Appended(k, events).log;
    forall i | 0 <= i < |log| && IsEmbedding(log[i].ev)
      ensures Defined(log[..i], log[i].ev.from)
    {
      CellFirstAt(k, events, i);
    }
  }

  lemma CellFirstAt(k: Kernel, events: seq<Event>, i: nat)
    requires CellsPrecedeEdges(k.log) && CellsFirst(events)
    requires i < |Appended(k, events).log| && IsEmbedding(Appended(k, events).log[i].ev)
    ensures Defined(Appended(k, events).log[..i], Appended(k, events).log[i].ev.from)
  {
    AppendedTail(k, events);
    if i < |k.log| {
      HeadCellFirst(k.log, Appended(k, events).log, i);
    } else {
      var m := i - |k.log|;
      assert Appended(k, events).log[|k.log| + m].ev == events[m];
      TailCellFirst(k, events, m);
    }
  }

  lemma CellsFirstJoined(a: seq<Event>, b: seq<Event>)
    requires CellsFirst(a) && CellsFirst(b)
    ensures CellsFirst(a + b)
  {
    forall i | 0 <= i < |a + b| && IsEmbedding((a + b)[i])
      ensures exists j :: 0 <= j < i && CellRef((a + b)[j]) == Some((a + b)[i].from)
    {
      if i < |a| {
        var j :| 0 <= j < i && CellRef(a[j]) == Some(a[i].from);
        assert (a + b)[j] == a[j];
      } else {
        var j :| 0 <= j < i - |a| && CellRef(b[j]) == Some(b[i - |a|].from);
        assert (a + b)[|a| + j] == b[j];
      }
    }
  }

  lemma CellsFirstCut(events: seq<Event>, left: nat)
    requires CellsFirst(events)
    ensures CellsFirst(Cut(events, left))
  {
    forall i | 0 <= i < |Cut(events, left)| && IsEmbedding(Cut(events, left)[i])
      ensures exists j :: 0 <= j < i && CellRef(Cut(events, left)[j]) == Some(Cut(events, left)[i].from)
    {
      var j :| 0 <= j < i && CellRef(events[j]) == Some(events[i].from);
      assert Cut(events, left)[j] == events[j];
    }
  }

  /** `file` writes the packed vector before pointing from it, so it never breaks the
      condition the incremental matrix needs, wherever a crash cuts it off. */
  lemma FilingKeepsOrder(k: Kernel, d: Drawer, left: nat)
    requires CellsPrecedeEdges(k.log)
    ensures CellsPrecedeEdges(Appended(k, Cut(FileEvents(d), left)).log)
  {
    FileCellsFirst(d);
    CellsFirstCut(FileEvents(d), left);
    CellsFirstKept(k, Cut(FileEvents(d), left));
  }

  lemma FileCellsFirst(d: Drawer)
    ensures CellsFirst(FileEvents(d))
  {
    var ref := Hash(d.content, []);
    var s0 := [CellWrite(d.content, [])];
    var s1 := s0 + PairEvents(ref, WING + d.wing, SCOPED_TO);
    var s2 := s1 + PairEvents(ref, ROOM + d.room, SCOPED_TO);
    var s3 := s2 + FactEvents(ref, HAS_SOURCE, Source(d));
    var s4 := s3 + FactEvents(ref, HAS_CATEGORY, d.category);
    var s5 := s4 + FactEvents(ref, HAS_IMPORTANCE, d.importance);
    NotEmbeddings();
    CellsFirstJoined(s0, PairEvents(ref, WING + d.wing, SCOPED_TO));
    CellsFirstJoined(s1, PairEvents(ref, ROOM + d.room, SCOPED_TO));
    CellsFirstJoined(s2, FactEvents(ref, HAS_SOURCE, Source(d)));
    CellsFirstJoined(s3, FactEvents(ref, HAS_CATEGORY, d.category));
    CellsFirstJoined(s4, FactEvents(ref, HAS_IMPORTANCE, d.importance));
    EmbeddingCellFirst(ref, d.embedding);
    CellsFirstJoined(s5, EmbeddingEvents(ref, d.embedding));
  }

  lemma NotEmbeddings()
    ensures SCOPED_TO != EMBEDDING_OF
    ensures HAS_SOURCE != EMBEDDING_OF && HAS_CATEGORY != EMBEDDING_OF && HAS_IMPORTANCE != EMBEDDING_OF
  {
    assert SCOPED_TO[0] == 's' && EMBEDDING_OF[0] == 'e';
    assert HAS_SOURCE[0] == 'h' && HAS_CATEGORY[0] == 'h' && HAS_IMPORTANCE[0] == 'h';
  }

  lemma EmbeddingCellFirst(target: Ref, vector: Option<seq<Float>>)
    ensures CellsFirst(EmbeddingEvents(target, vector))
  {
    if vector.Some? {
      var events := EmbeddingEvents(target, vector);
      assert CellRef(events[0]) == Some(events[1].from);
    }
  }

  // ---------------------------------------------------------------------------
  // The matrix row
  // ---------------------------------------------------------------------------

  function EdgesIn(events: seq<Event>): seq<(Ref, Ref)> {
    if events == [] then []
    else
      var rest := EdgesIn(events[..|events| - 1]);
      var ev := events[|events| - 1];
      if IsEmbedding(ev) then rest + [(ev.from, ev.to)] else rest
  }

  lemma {:induction false} EdgesAppended(k: Kernel, events: seq<Event>)
    ensures EmbeddingEdges(Appended(k, events).log) == EmbeddingEdges(k.log) + EdgesIn(events)
  {
    if events != [] {
      var before, last := Appended(k, events[..|events| - 1]), events[|events| - 1];
      EdgesAppended(k, events[..|events| - 1]);
      assert (before.log + [Entry(before.next, last)])[..|before.log|] == before.log;
    }
  }

  lemma {:induction false} EdgesJoined(a: seq<Event>, b: seq<Event>)
    ensures EdgesIn(a + b) == EdgesIn(a) + EdgesIn(b)
  {
    if b == [] {
      assert a + b == a;
    } else {
      EdgesJoined(a, b[..|b| - 1]);
      assert (a + b)[..|a + b| - 1] == a + b[..|b| - 1];
    }
  }

  lemma NoEdgesInPair(a: Event, b: Event)
    requires !IsEmbedding(a) && !IsEmbedding(b)
    ensures EdgesIn([a]) == [] && EdgesIn([a, b]) == []
  {
    assert [a][..0] == [] && [a, b][..1] == [a];
  }

  lemma FilingEdges(d: Drawer)
    ensures EdgesIn(FileEvents(d)) ==
            if d.embedding.Some? then [(Hash(Pack(d.embedding.value), []), Hash(d.content, []))] else []
  {
    var ref := Hash(d.content, []);
    var s0 := [CellWrite(d.content, [])];
    var scope1, scope2 := PairEvents(ref, WING + d.wing, SCOPED_TO), PairEvents(ref, ROOM + d.room, SCOPED_TO);
    var f1, f2, f3 := FactEvents(ref, HAS_SOURCE, Source(d)), FactEvents(ref, HAS_CATEGORY, d.category),
                      FactEvents(ref, HAS_IMPORTANCE, d.importance);
    NotEmbeddings();
    NoEdgesInPair(s0[0], s0[0]);
    NoEdgesInPair(scope1[0], scope1[1]);
    NoEdgesInPair(scope2[0], scope2[1]);
    NoEdgesInFact(ref, HAS_SOURCE, Source(d));
    NoEdgesInFact(ref, HAS_CATEGORY, d.category);
    NoEdgesInFact(ref, HAS_IMPORTANCE, d.importance);
    EdgesJoined(s0, scope1);
    EdgesJoined(s0 + scope1, scope2);
    EdgesJoined(s0 + scope1 + scope2, f1);
    EdgesJoined(s0 + scope1 + scope2 + f1, f2);
    EdgesJoined(s0 + scope1 + scope2 + f1 + f2, f3);
    EdgesJoined(s0 + scope1 + scope2 + f1 + f2 + f3, EmbeddingEvents(ref, d.embedding));
    if d.embedding.Some? {
      var events := EmbeddingEvents(ref, d.embedding);
      assert events[..1] == [events[0]];
      NoEdgesInPair(events[0], events[0]);
    }
  }

  lemma NoEdgesInFact(subject: Ref, predicate_: string, value: Option<Bytes>)
    requires predicate_ != EMBEDDING_OF
    ensures EdgesIn(FactEvents(subject, predicate_, value)) == []
  {
    if value.Some? {
      var events := FactEvents(subject, predicate_, value);
      NoEdgesInPair(events[0], events[1]);
    }
  }

  /** In a log where cells precede their edges, appending resolves no edge afresh. */
  lemma NothingResolvedAfresh(log: Log, more: Log)
    requires CellsPrecedeEdges(log) && log <= more
    ensures Resolved(EmbeddingEdges(log), more) == Resolved(EmbeddingEdges(log), log)
  {
    assert more[..|log|] == log && more[..|more|] == more;
    ResolvedLater(EmbeddingEdges(log), more, |log|, |more|);
    forall e | e in EmbeddingEdges(log)
      ensures Defined(log, e.0)
    {
      EdgeIsInLog(log, e);
      var i :| 0 <= i < |log| && IsEmbedding(log[i].ev) && (log[i].ev.from, log[i].ev.to) == e;
      assert log[..|log|] == log;
      DefinedGrows(log, i, |log|, e.0);
    }
  }

  /** The items that filing adds to those the matrix is built from. */
  function FiledItems(d: Drawer): seq<(Ref, Bytes)> {
    if d.embedding.Some? then [(Hash(d.content, []), Pack(d.embedding.value))] else []
  }

  lemma FiledResolved(k: Kernel, d: Drawer)
    requires CellsPrecedeEdges(k.log)
    ensures var log := Appended(k, FileEvents(d)).log;
            Resolved(EmbeddingEdges(log), log) == Resolved(EmbeddingEdges(k.log), k.log) + FiledItems(d)
  {
    var events := FileEvents(d);
    var log := Appended(k, events).log;
    AppendedTail(k, events);
    EdgesAppended(k, events);
    FilingEdges(d);
    NothingResolvedAfresh(k.log, log);
    ResolvedAppend(EmbeddingEdges(k.log), EdgesIn(events), log);
    if d.embedding.Some? {
      FiledCellDefined(k, d);
      SingleEdge(EdgesIn(events)[0], log);
    }
  }

  /** End to end: the vector given to `file` comes back, unpacked, as the matrix row that
      a rebuild adds for the drawer; without a vector the matrix does not change. */
  lemma FiledVectorIsARow(k: Kernel, d: Drawer)
    requires CellsPrecedeEdges(k.log)
    ensures var before, after := Rebuild(k.log), Rebuild(Appended(k, FileEvents(d)).log);
            && (d.embedding.None? || !before.Matrix? ==> after == before)
            && (d.embedding.Some? && before.Matrix? ==>
                  after == if before.rows != [] && |before.rows[0]| != |d.embedding.value| then MixedDimensions
                           else Matrix(before.refs + [Hash(d.content, [])], before.rows + [d.embedding.value]))
  {
    FiledResolved(k, d);
    AddRowsAppend(EMPTY_MATRIX, Resolved(EmbeddingEdges(k.log), k.log), FiledItems(d));
    if d.embedding.Some? {
      var raw := Pack(d.embedding.value);
      PackRoundTrip(d.embedding.value);
      OneRow(Rebuild(k.log), Hash(d.content, []), raw);
    }
  }

  lemma OneRow(m: Outcome, target: Ref, raw: Bytes)
    ensures AddRows(m, [(target, raw)]) == AddRow(m, target, raw)
  {
    assert [(target, raw)][..0] == [];
  }

  lemma FiledCellDefined(k: Kernel, d: Drawer)
    requires d.embedding.Some?
    ensures Defined(Appended(k, FileEvents(d)).log, Hash(Pack(d.embedding.value), []))
  {
    var events := FileEvents(d);
    AppendedTail(k, events);
    var i := |events| - 2;
    assert events[i] == CellWrite(Pack(d.embedding.value), []);
    assert Appended(k, events).log[|k.log| + i] == Entry(k.next + i, events[i]);
  }
}
