/** The `needs_embedding` marker: how a drawer filed without a vector is found again. The
    daemon's `remember` marks it, the catch-up sweep embeds it and takes the marker away.
    Threads interleave at every append; the write lock only groups some of them. */
module Sweep {
  import opened EventLog
  import opened SearchFolds
  import opened Batches
  import opened Filed
  import Facts

  const NEEDS_EMBEDDING := "needs_embedding"
  const TRUE_BYTES: Bytes := [0x74, 0x72, 0x75, 0x65]

  predicate IsMarker(f: Facts.Fact) {
    f.predicate_ == NEEDS_EMBEDDING
  }

  function Marker(ref: Ref): Facts.Fact {
    Facts.Fact(ref, NEEDS_EMBEDDING, Hash(TRUE_BYTES, []))
  }

  ghost predicate Embedded(log: Log, ref: Ref) {
    exists e :: e in EmbeddingEdges(log) && e.1 == ref
  }

  /** ... by this vector: an edge to it from the cell that packs the vector. */
  ghost predicate EmbeddedAs(log: Log, ref: Ref, vector: seq<Float>) {
    (Hash(Pack(vector), []), ref) in EmbeddingEdges(log)
  }

  ghost predicate Marked(log: Log, ref: Ref) {
    exists f :: f in Facts.Valid(log) && IsMarker(f) && f.subject == ref
  }

  /** Vector search finds the drawer, or a sweep will. */
  ghost predicate Reachable(log: Log, ref: Ref) {
    Embedded(log, ref) || Marked(log, ref)
  }

  // ---------------------------------------------------------------------------
  // What appends do to it
  // ---------------------------------------------------------------------------

  /** None of these events takes a marker away. */
  ghost predicate KeepsMarkers(events: seq<Event>) {
    forall ev :: ev in events && Facts.Invalidates(ev) ==> !IsMarker(Facts.About(ev))
  }

  /** None of them takes a marker of this drawer away. */
  ghost predicate KeepsMarkersOf(events: seq<Event>, ref: Ref) {
    forall ev :: ev in events && Facts.Invalidates(ev) && IsMarker(Facts.About(ev)) ==> Facts.About(ev).subject != ref
  }

  lemma {:induction false} MarkersKept(facts: set<Facts.Fact>, events: seq<Event>, f: Facts.Fact)
    requires KeepsMarkersOf(events, f.subject) && IsMarker(f) && f in facts
    ensures f in ApplyAll(facts, events)
  {
    if events != [] {
      assert forall ev :: ev in events[..|events| - 1] ==> ev in events;
      MarkersKept(facts, events[..|events| - 1], f);
      assert events[|events| - 1] in events;
    }
  }

  lemma EmbeddedStays(k: Kernel, events: seq<Event>, ref: Ref)
    requires Embedded(k.log, ref)
    ensures Embedded(Appended(k, events).log, ref)
  {
    EdgesAppended(k, events);
    var e :| e in EmbeddingEdges(k.log) && e.1 == ref;
    assert e in EmbeddingEdges(Appended(k, events).log);
  }

  lemma EmbeddedAsStays(k: Kernel, events: seq<Event>, ref: Ref, vector: seq<Float>)
    requires EmbeddedAs(k.log, ref, vector)
    ensures EmbeddedAs(Appended(k, events).log, ref, vector)
  {
    EdgesAppended(k, events);
  }

  /** Only taking a marker away can make a drawer unreachable. */
  lemma ReachableStays(k: Kernel, events: seq<Event>, ref: Ref)
    requires KeepsMarkersOf(events, ref) && Reachable(k.log, ref)
    ensures Reachable(Appended(k, events).log, ref)
  {
    if Embedded(k.log, ref) {
      EmbeddedStays(k, events, ref);
    } else {
      var f :| f in Facts.Valid(k.log) && IsMarker(f) && f.subject == ref;
      ValidAppended(k, events);
      MarkersKept(Facts.Valid(k.log), events, f);
    }
  }

  lemma MarkerAsserts()
    ensures Asserting(NEEDS_EMBEDDING)
  {
    assert Facts.INVALIDATE_PREFIX[0] == '_' && NEEDS_EMBEDDING[0] == 'n';
  }

  /** Filing, marking and embedding keep every marker. */
  lemma FilingKeepsMarkers(d: Drawer)
    ensures KeepsMarkers(FileEvents(d))
  {
    FileRelations(d);
    NamesAreAsserting();
  }

  function MarkEvents(ref: Ref): seq<Event> {
    [CellWrite(TRUE_BYTES, []), Facts.Assertion(Marker(ref))]
  }

  lemma MarkAnchored(ref: Ref, written: seq<Event>)
    requires CellOf(ref) in written
    ensures Anchored(written, MarkEvents(ref))
  {
    CellThenEdge(written, TRUE_BYTES, Facts.Assertion(Marker(ref)));
  }

  lemma MarkingMarks(k: Kernel, ref: Ref)
    ensures KeepsMarkers(MarkEvents(ref))
    ensures Marked(Appended(k, MarkEvents(ref)).log, ref)
  {
    MarkerAsserts();
    ValidAppended(k, MarkEvents(ref));
    PairFacts(Facts.Valid(k.log), CellWrite(TRUE_BYTES, []), Marker(ref));
    assert Marker(ref) in Facts.Valid(Appended(k, MarkEvents(ref)).log);
  }

  lemma EmbeddingEmbeds(k: Kernel, ref: Ref, vector: seq<Float>)
    ensures KeepsMarkers(EmbeddingEvents(ref, Some(vector)))
    ensures EmbeddedAs(Appended(k, EmbeddingEvents(ref, Some(vector))).log, ref, vector)
    ensures EdgesIn(EmbeddingEvents(ref, Some(vector))) == [(Hash(Pack(vector), []), ref)]
  {
    NamesAreAsserting();
    var events := EmbeddingEvents(ref, Some(vector));
    EdgesAppended(k, events);
    assert events[..1] == [events[0]];
    NoEdgesInPair(events[0], events[0]);
  }

  lemma FilingEmbeds(k: Kernel, d: Drawer)
    requires d.embedding.Some?
    ensures Embedded(Appended(k, FileEvents(d)).log, Hash(d.content, []))
  {
    EdgesAppended(k, FileEvents(d));
    FilingEdges(d);
    var e := (Hash(Pack(d.embedding.value), []), Hash(d.content, []));
    assert e in EmbeddingEdges(Appended(k, FileEvents(d)).log);
  }

  /** Exactly when taking a marker away costs a drawer: if it is not embedded and has no
      other marker. */
  lemma UnmarkingExact(k: Kernel, f: Facts.Fact, ref: Ref)
    requires IsMarker(f)
    ensures Reachable(Appended(k, [Facts.Invalidation(f)]).log, ref) <==>
            Embedded(k.log, ref) || exists m :: m in Facts.Valid(k.log) && IsMarker(m) && m.subject == ref && m != f
  {
    var events := [Facts.Invalidation(f)];
    var after := Appended(k, events).log;
    MarkerAsserts();
    Facts.AboutRoundTrip(f);
    ValidAppended(k, events);
    EdgesAppended(k, events);
    NotEmbeddingInvalidation(f);
    assert events[..0] == [];
    assert Facts.Valid(after) == Facts.Valid(k.log) - {f};
    assert EmbeddingEdges(after) == EmbeddingEdges(k.log);
  }

  lemma NotEmbeddingInvalidation(f: Facts.Fact)
    ensures !IsEmbedding(Facts.Invalidation(f)) && EdgesIn([Facts.Invalidation(f)]) == []
  {
    assert (Facts.INVALIDATE_PREFIX + f.predicate_)[0] == '_' && EMBEDDING_OF[0] == 'e';
    NoEdgesInPair(Facts.Invalidation(f), Facts.Invalidation(f));
  }

  /** Taking one marker away leaves every other drawer as it was, and its own drawer
      reachable once that is embedded. */
  lemma UnmarkingEmbedded(k: Kernel, f: Facts.Fact, ref: Ref)
    requires IsMarker(f) && Embedded(k.log, f.subject) && Reachable(k.log, ref)
    ensures Reachable(Appended(k, [Facts.Invalidation(f)]).log, ref)
  {
    UnmarkingExact(k, f, ref);
  }

  // ---------------------------------------------------------------------------
  // The sweep on its own
  // ---------------------------------------------------------------------------

  /** How one pending drawer fares. */
  datatype Attempt =
    | NoVector                          // its content or its embedding failed
    | NotAdded                          // the lock was taken, `add_embedding` failed
    | NotUnmarked(vector: seq<Float>)   // added, but `invalidate_fact` failed
    | Done(vector: seq<Float>)

  function AttemptEvents(f: Facts.Fact, a: Attempt): seq<Event> {
    match a
    case NotUnmarked(v) => EmbeddingEvents(f.subject, Some(v))
    case Done(v) => EmbeddingEvents(f.subject, Some(v)) + [Facts.Invalidation(f)]
    case _ => []
  }

  function SweepEvents(pending: seq<Facts.Fact>, attempts: seq<Attempt>): seq<Event>
    requires |pending| == |attempts|
  {
    if pending == [] then []
    else
      var n := |pending| - 1;
      SweepEvents(pending[..n], attempts[..n]) + AttemptEvents(pending[n], attempts[n])
  }

  function DoneCount(attempts: seq<Attempt>): nat {
    if attempts == [] then 0
    else DoneCount(attempts[..|attempts| - 1]) + if attempts[|attempts| - 1].Done? then 1 else 0
  }

  /** Where the drawers' cells and the values of their markers are in the log, every edge of a
      sweep leads between cells written ahead of it: each vector it adds can be read. */
  lemma {:induction false} SweepAnchored(written: seq<Event>, pending: seq<Facts.Fact>, attempts: seq<Attempt>)
    requires |pending| == |attempts|
    requires forall f :: f in pending ==> CellOf(f.subject) in written && CellOf(f.object_) in written
    ensures Anchored(written, SweepEvents(pending, attempts))
    decreases |pending|
  {
    if pending != [] {
      var n := |pending| - 1;
      SweepAnchored(written, pending[..n], attempts[..n]);
      var so := written + SweepEvents(pending[..n], attempts[..n]);
      AttemptAnchored(so, pending[n], attempts[n]);
      AnchoredJoined(written, SweepEvents(pending[..n], attempts[..n]), AttemptEvents(pending[n], attempts[n]));
    }
  }

  lemma AttemptAnchored(written: seq<Event>, f: Facts.Fact, a: Attempt)
    requires CellOf(f.subject) in written && CellOf(f.object_) in written
    ensures Anchored(written, AttemptEvents(f, a))
  {
    if a.Done? || a.NotUnmarked? {
      EmbeddingAnchored(written, f.subject, Some(a.vector));
      if a.Done? {
        var added := written + EmbeddingEvents(f.subject, Some(a.vector));
        assert Anchored(added + [Facts.Invalidation(f)], [Facts.Invalidation(f)][1..]);
        AnchoredJoined(written, EmbeddingEvents(f.subject, Some(a.vector)), [Facts.Invalidation(f)]);
      }
    }
  }

  function DoneAt(attempts: seq<Attempt>): set<nat> {
    set i: nat | i < |attempts| && attempts[i].Done?
  }

  lemma {:induction false} DoneCountExact(attempts: seq<Attempt>)
    ensures DoneCount(attempts) == |DoneAt(attempts)|
  {
    if attempts != [] {
      var n := |attempts| - 1;
      DoneCountExact(attempts[..n]);
      assert DoneAt(attempts) == DoneAt(attempts[..n]) + if attempts[n].Done? then {n} else {};
    }
  }

  /** `pending` is what `query_facts(predicate="needs_embedding")` answers: None when the
      query failed. */
  method SweepNeedsEmbedding(store: Store, pending: Option<seq<Facts.Fact>>, attempts: seq<Attempt>)
    returns (swept: nat, failed: nat)
    requires pending.Some? ==> |attempts| == |pending.value|
    modifies store
    ensures pending.None? ==> swept == failed == 0 && store.State() == old(store.State())
    ensures pending.Some? ==>
              && swept == DoneCount(attempts) && swept + failed == |pending.value|
              && store.State() == Appended(old(store.State()), SweepEvents(pending.value, attempts))
  {
    swept, failed := 0, 0;
    if pending.None? {
      return;
    }
    ghost var start := store.State();
    for i := 0 to |attempts|
      invariant swept == DoneCount(attempts[..i]) && swept + failed == i
      invariant store.State() == Appended(start, SweepEvents(pending.value[..i], attempts[..i]))
    {
      assert pending.value[..i + 1][..i] == pending.value[..i] && attempts[..i + 1][..i] == attempts[..i];
      AppendedAppended(start, SweepEvents(pending.value[..i], attempts[..i]),
                       AttemptEvents(pending.value[i], attempts[i]));
      var ok := SweepOne(store, pending.value[i], attempts[i]);
      if ok {
        swept := swept + 1;
      } else {
        failed := failed + 1;
      }
    }
    assert pending.value[..|attempts|] == pending.value && attempts[..|attempts|] == attempts;
  }

  /** One pending drawer; an exception at any point is caught and counted. */
  method SweepOne(store: Store, f: Facts.Fact, a: Attempt) returns (ok: bool)
    modifies store
    ensures ok == a.Done?
    ensures store.State() == Appended(old(store.State()), AttemptEvents(f, a))
  {
    if a.NoVector? || a.NotAdded? {
      return false;
    }
    ghost var start := store.State();
    var _ := AddEmbedding(store, f.subject, Some(a.vector), 2);
    if a.NotUnmarked? {
      return false;
    }
    store.Append(Facts.Invalidation(f));
    AppendedAppended(start, EmbeddingEvents(f.subject, Some(a.vector)), [Facts.Invalidation(f)]);
    ok := true;
  }

  ghost predicate AllMarkers(pending: seq<Facts.Fact>, facts: set<Facts.Fact>) {
    && (forall f :: f in pending <==> f in facts && IsMarker(f))
    && Distinct(pending)
  }

  /** The marker's own attempt finished. */
  ghost predicate Taken(pending: seq<Facts.Fact>, attempts: seq<Attempt>, f: Facts.Fact)
    requires |pending| == |attempts|
  {
    exists i :: 0 <= i < |pending| && pending[i] == f && attempts[i].Done?
  }

  ghost predicate Distinct(pending: seq<Facts.Fact>) {
    forall i, j :: 0 <= i < j < |pending| ==> pending[i] != pending[j]
  }

  /** A marker survives a sweep exactly when its own attempt did not finish. */
  lemma {:induction false} SweepTakesMarkers(k: Kernel, pending: seq<Facts.Fact>, attempts: seq<Attempt>, f: Facts.Fact)
    requires |pending| == |attempts| && Distinct(pending) && IsMarker(f)
    requires forall m :: m in pending ==> IsMarker(m)
    ensures f in Facts.Valid(Appended(k, SweepEvents(pending, attempts)).log) <==>
            f in Facts.Valid(k.log) && !Taken(pending, attempts, f)
  {
    if pending != [] {
      var n := |pending| - 1;
      var before := Appended(k, SweepEvents(pending[..n], attempts[..n]));
      assert forall m :: m in pending[..n] ==> m in pending;
      SweepTakesMarkers(k, pending[..n], attempts[..n], f);
      AppendedAppended(k, SweepEvents(pending[..n], attempts[..n]), AttemptEvents(pending[n], attempts[n]));
      assert pending[n] in pending;
      AttemptOutcome(before, pending[n], attempts[n]);
      var after := Appended(before, AttemptEvents(pending[n], attempts[n])).log;
      MarkerFate(before.log, k.log, after, pending, attempts, f);
    }
  }

  /** Every drawer whose attempt finished is embedded afterwards, by the vector of that
      attempt. */
  lemma {:induction false} SweepEmbeds(k: Kernel, pending: seq<Facts.Fact>, attempts: seq<Attempt>, i: nat)
    requires |pending| == |attempts| && i < |pending| && attempts[i].Done?
    requires forall m :: m in pending ==> IsMarker(m)
    ensures EmbeddedAs(Appended(k, SweepEvents(pending, attempts)).log, pending[i].subject, attempts[i].vector)
    decreases |pending|
  {
    var n := |pending| - 1;
    var before := Appended(k, SweepEvents(pending[..n], attempts[..n]));
    AppendedAppended(k, SweepEvents(pending[..n], attempts[..n]), AttemptEvents(pending[n], attempts[n]));
    if i < n {
      assert forall m :: m in pending[..n] ==> m in pending;
      SweepEmbeds(k, pending[..n], attempts[..n], i);
      EmbeddedAsStays(before, AttemptEvents(pending[n], attempts[n]), pending[i].subject, attempts[i].vector);
    } else {
      assert pending[n] in pending;
      AttemptOutcome(before, pending[n], attempts[n]);
    }
  }

  lemma MarkerFate(before: Log, start: Log, after: Log, pending: seq<Facts.Fact>, attempts: seq<Attempt>, f: Facts.Fact)
    requires 0 < |pending| == |attempts|
    requires f in Facts.Valid(before) <==>
             f in Facts.Valid(start) && !Taken(pending[..|pending| - 1], attempts[..|pending| - 1], f)
    requires f in Facts.Valid(after) <==>
             f in Facts.Valid(before) && !(f == pending[|pending| - 1] && attempts[|pending| - 1].Done?)
    ensures f in Facts.Valid(after) <==>
            f in Facts.Valid(start) && !Taken(pending, attempts, f)
  {
    var n := |pending| - 1;
    if i :| 0 <= i < |pending| && pending[i] == f && attempts[i].Done? {
      if i < n {
        assert pending[..n][i] == f && attempts[..n][i].Done?;
      }
    }
    if i :| 0 <= i < n && pending[..n][i] == f && attempts[..n][i].Done? {
      assert pending[i] == f && attempts[i].Done?;
    }
  }

  /** The facts an attempt adds; it takes away the marker only when it finishes. */
  function AttemptFacts(f: Facts.Fact, a: Attempt): set<Facts.Fact> {
    if a.Done? || a.NotUnmarked? then {Facts.Fact(Hash(Pack(a.vector), []), EMBEDDING_OF, f.subject)} else {}
  }

  lemma AttemptStates(facts: set<Facts.Fact>, f: Facts.Fact, a: Attempt)
    requires IsMarker(f)
    ensures ApplyAll(facts, AttemptEvents(f, a)) == facts + AttemptFacts(f, a) - (if a.Done? then {f} else {})
  {
    if a.Done? || a.NotUnmarked? {
      EmbeddingFacts(facts, f.subject, Some(a.vector));
    }
    if a.Done? {
      MarkerAsserts();
      Facts.AboutRoundTrip(f);
      ApplyAllJoined(facts, EmbeddingEvents(f.subject, Some(a.vector)), [Facts.Invalidation(f)]);
      assert [Facts.Invalidation(f)][..0] == [];
    }
  }

  lemma AttemptOutcome(k: Kernel, f: Facts.Fact, a: Attempt)
    requires IsMarker(f)
    ensures var after := Appended(k, AttemptEvents(f, a)).log;
            && (forall m :: IsMarker(m) ==>
                  (m in Facts.Valid(after) <==> m in Facts.Valid(k.log) && !(m == f && a.Done?)))
            && (a.Done? ==> EmbeddedAs(after, f.subject, a.vector))
  {
    ValidAppended(k, AttemptEvents(f, a));
    AttemptStates(Facts.Valid(k.log), f, a);
    assert NEEDS_EMBEDDING[0] != EMBEDDING_OF[0];
    if a.Done? {
      var added := EmbeddingEvents(f.subject, Some(a.vector));
      EmbeddingEmbeds(k, f.subject, a.vector);
      AppendedAppended(k, added, [Facts.Invalidation(f)]);
      EmbeddedAsStays(Appended(k, added), [Facts.Invalidation(f)], f.subject, a.vector);
    }
  }

  /** A sweep of every marker in which nothing fails leaves no marker, and every drawer that
      was pending embedded by the vector computed for it: the next query answers nothing. */
  lemma CleanSweepConverges(k: Kernel, pending: seq<Facts.Fact>, attempts: seq<Attempt>)
    requires |pending| == |attempts| == DoneCount(attempts)
    requires AllMarkers(pending, Facts.Valid(k.log))
    ensures var after := Appended(k, SweepEvents(pending, attempts)).log;
            && (forall f :: f in Facts.Valid(after) ==> !IsMarker(f))
            && (forall i :: 0 <= i < |pending| ==>
                  attempts[i].Done? && EmbeddedAs(after, pending[i].subject, attempts[i].vector))
            && (forall ref :: Marked(k.log, ref) ==> Embedded(after, ref))
  {
    AllDone(attempts);
    var after := Appended(k, SweepEvents(pending, attempts)).log;
    forall i | 0 <= i < |pending|
      ensures EmbeddedAs(after, pending[i].subject, attempts[i].vector)
    {
      SweepEmbeds(k, pending, attempts, i);
    }
    forall f | IsMarker(f) && f in Facts.Valid(k.log)
      ensures f !in Facts.Valid(after) && Embedded(after, f.subject)
    {
      assert f in pending;
      var i :| 0 <= i < |pending| && pending[i] == f;
      assert EmbeddedAs(after, f.subject, attempts[i].vector);
      SweepTakesMarkers(k, pending, attempts, f);
    }
    forall f | IsMarker(f) && f !in Facts.Valid(k.log)
      ensures f !in Facts.Valid(after)
    {
      SweepTakesMarkers(k, pending, attempts, f);
    }
  }

  // ---------------------------------------------------------------------------
  // The rows a sweep adds
  // ---------------------------------------------------------------------------

  /** The drawers a sweep gave a vector, in order, with the vector. */
  function Given(pending: seq<Facts.Fact>, attempts: seq<Attempt>): seq<(Ref, seq<Float>)>
    requires |pending| == |attempts|
  {
    if pending == [] then []
    else
      var n := |pending| - 1;
      Given(pending[..n], attempts[..n]) + GivenBy(pending[n], attempts[n])
  }

  function Packed(given: seq<(Ref, seq<Float>)>): seq<(Ref, Bytes)> {
    seq(|given|, i requires 0 <= i < |given| => (given[i].0, Pack(given[i].1)))
  }

  /** What a rebuild would make rows of grows by these items. */
  ghost predicate RowsGrow(before: Log, after: Log, items: seq<(Ref, Bytes)>) {
    && CellsPrecedeEdges(after)
    && Resolved(EmbeddingEdges(after), after) == Resolved(EmbeddingEdges(before), before) + items
  }

  lemma RowsGrowTwice(a: Log, b: Log, c: Log, first: seq<(Ref, Bytes)>, then_: seq<(Ref, Bytes)>)
    requires RowsGrow(a, b, first) && RowsGrow(b, c, then_)
    ensures RowsGrow(a, c, first + then_)
  {
    var r := Resolved(EmbeddingEdges(a), a);
    assert r + first + then_ == r + (first + then_);
  }

  lemma PackedJoined(a: seq<(Ref, seq<Float>)>, b: seq<(Ref, seq<Float>)>)
    ensures Packed(a + b) == Packed(a) + Packed(b)
  {
  }

  function GivenBy(f: Facts.Fact, a: Attempt): seq<(Ref, seq<Float>)> {
    if a.Done? || a.NotUnmarked? then [(f.subject, a.vector)] else []
  }

  lemma AttemptRow(k: Kernel, f: Facts.Fact, a: Attempt)
    requires CellsPrecedeEdges(k.log)
    ensures RowsGrow(k.log, Appended(k, AttemptEvents(f, a)).log, Packed(GivenBy(f, a)))
  {
    assert Packed(GivenBy(f, a)) == if a.Done? || a.NotUnmarked? then [(f.subject, Pack(a.vector))] else [];
    if a.Done? || a.NotUnmarked? {
      AddingRow(k, f.subject, a.vector);
      if a.Done? {
        var added := Appended(k, EmbeddingEvents(f.subject, Some(a.vector)));
        AppendedAppended(k, EmbeddingEvents(f.subject, Some(a.vector)), [Facts.Invalidation(f)]);
        InvalidationAddsNoRow(added, f);
        RowsGrowTwice(k.log, added.log, Appended(added, [Facts.Invalidation(f)]).log,
                      [(f.subject, Pack(a.vector))], []);
        assert [(f.subject, Pack(a.vector))] + [] == [(f.subject, Pack(a.vector))];
      }
    }
  }

  lemma AddingRow(k: Kernel, ref: Ref, vector: seq<Float>)
    requires CellsPrecedeEdges(k.log)
    ensures RowsGrow(k.log, Appended(k, EmbeddingEvents(ref, Some(vector))).log, [(ref, Pack(vector))])
  {
    var events := EmbeddingEvents(ref, Some(vector));
    var log := Appended(k, events).log;
    AppendedTail(k, events);
    EmbeddingEmbeds(k, ref, vector);
    EdgesAppended(k, events);
    EmbeddingCellFirst(ref, Some(vector));
    CellsFirstKept(k, events);
    NothingResolvedAfresh(k.log, log);
    ResolvedAppend(EmbeddingEdges(k.log), EdgesIn(events), log);
    assert log[|k.log| + 0] == Entry(k.next, events[0]);
    assert CellRef(log[|k.log|].ev) == Some(Hash(Pack(vector), []));
    SingleEdge((Hash(Pack(vector), []), ref), log);
  }

  lemma InvalidationAddsNoRow(k: Kernel, f: Facts.Fact)
    requires CellsPrecedeEdges(k.log)
    ensures RowsGrow(k.log, Appended(k, [Facts.Invalidation(f)]).log, [])
  {
    var events := [Facts.Invalidation(f)];
    AppendedTail(k, events);
    NotEmbeddingInvalidation(f);
    EdgesAppended(k, events);
    CellsFirstKept(k, events);
    NothingResolvedAfresh(k.log, Appended(k, events).log);
  }

  lemma {:induction false} SweepItems(k: Kernel, pending: seq<Facts.Fact>, attempts: seq<Attempt>)
    requires |pending| == |attempts| && CellsPrecedeEdges(k.log)
    ensures RowsGrow(k.log, Appended(k, SweepEvents(pending, attempts)).log, Packed(Given(pending, attempts)))
  {
    if pending == [] {
      assert Packed([]) == [];
      assert Resolved(EmbeddingEdges(k.log), k.log) + [] == Resolved(EmbeddingEdges(k.log), k.log);
    } else {
      var n := |pending| - 1;
      var before := Appended(k, SweepEvents(pending[..n], attempts[..n]));
      SweepItems(k, pending[..n], attempts[..n]);
      AppendedAppended(k, SweepEvents(pending[..n], attempts[..n]), AttemptEvents(pending[n], attempts[n]));
      AttemptRow(before, pending[n], attempts[n]);
      RowsGrowTwice(k.log, before.log, Appended(before, AttemptEvents(pending[n], attempts[n])).log,
                    Packed(Given(pending[..n], attempts[..n])), Packed(GivenBy(pending[n], attempts[n])));
      PackedJoined(Given(pending[..n], attempts[..n]), GivenBy(pending[n], attempts[n]));
    }
  }

  /** The matrix has grown by these drawers with these vectors, in order. */
  ghost predicate MatrixGrows(before: Outcome, after: Outcome, given: seq<(Ref, seq<Float>)>) {
    && before.Matrix? && after.Matrix?
    && |after.refs| == |after.rows| == |before.rows| + |given|
    && before.refs <= after.refs && before.rows <= after.rows
    && forall i :: 0 <= i < |given| ==>
         after.refs[|before.rows| + i] == given[i].0 && after.rows[|before.rows| + i] == given[i].1
  }

  /** End to end: what a sweep adds to the matrix that a rebuild gives are the drawers that got
      a vector, in order, each with the vector computed for it. */
  lemma SweptVectorsAreRows(k: Kernel, pending: seq<Facts.Fact>, attempts: seq<Attempt>)
    requires |pending| == |attempts| && CellsPrecedeEdges(k.log)
    requires Rebuild(Appended(k, SweepEvents(pending, attempts)).log).Matrix?
    ensures MatrixGrows(Rebuild(k.log), Rebuild(Appended(k, SweepEvents(pending, attempts)).log),
                        Given(pending, attempts))
  {
    SweepItems(k, pending, attempts);
    RowsAreGiven(Resolved(EmbeddingEdges(k.log), k.log), Given(pending, attempts));
  }

  lemma RowsAreGiven(items: seq<(Ref, Bytes)>, given: seq<(Ref, seq<Float>)>)
    requires AddRows(EMPTY_MATRIX, items + Packed(given)).Matrix?
    ensures MatrixGrows(AddRows(EMPTY_MATRIX, items), AddRows(EMPTY_MATRIX, items + Packed(given)), given)
  {
    AddRowsAppend(EMPTY_MATRIX, items, Packed(given));
    MatrixRowPerItem(EMPTY_MATRIX, items);
    GivenAfter(AddRows(EMPTY_MATRIX, items), given);
  }

  lemma {:induction false} GivenAfter(m: Outcome, given: seq<(Ref, seq<Float>)>)
    requires AddRows(m, Packed(given)).Matrix? && (m.Matrix? ==> |m.refs| == |m.rows|)
    ensures MatrixGrows(m, AddRows(m, Packed(given)), given)
  {
    if given != [] {
      var n := |given| - 1;
      assert Packed(given)[..n] == Packed(given[..n]);
      GivenAfter(m, given[..n]);
      PackRoundTrip(given[n].1);
      OneMoreGiven(m, AddRows(m, Packed(given[..n])), AddRows(m, Packed(given)), given);
    }
  }

  lemma OneMoreGiven(m: Outcome, before: Outcome, after: Outcome, given: seq<(Ref, seq<Float>)>)
    requires given != [] && MatrixGrows(m, before, given[..|given| - 1]) && after.Matrix?
    requires after.refs == before.refs + [given[|given| - 1].0] && after.rows == before.rows + [given[|given| - 1].1]
    ensures MatrixGrows(m, after, given)
  {
  }

  lemma {:induction false} AllDone(attempts: seq<Attempt>)
    ensures DoneCount(attempts) <= |attempts|
    ensures DoneCount(attempts) == |attempts| ==> forall i :: 0 <= i < |attempts| ==> attempts[i].Done?
  {
    if attempts != [] {
      AllDone(attempts[..|attempts| - 1]);
    }
  }
}
