/** Reading a slice of the log instead of the log: the per-subject and vector views give
    the whole-log answers. */
module Slices {
  import opened EventLog
  import opened SearchFolds
  import Facts

  /** A lens that folds over the events it is given. */
  function RunLens<S>(step: (S, Event) -> S, start: S, log: Log): S {
    if log == [] then start
    else step(RunLens(step, start, log[..|log| - 1]), log[|log| - 1].ev)
  }

  /** The lens looks at nothing but edges out of `subject`. */
  ghost predicate ReadsOnlySubject<S(!new)>(step: (S, Event) -> S, subject: Ref) {
    forall s: S, ev: Event :: !(ev.Relationship? && ev.from == subject) ==> step(s, ev) == s
  }

  /** Any lens that reads nothing else gives the same answer over the subject's slice. */
  lemma {:induction false} SubjectSliceExact<S(!new)>(step: (S, Event) -> S, start: S, log: Log, subject: Ref)
    requires ReadsOnlySubject(step, subject)
    ensures RunLens(step, start, Slice(log, subject)) == RunLens(step, start, log)
  {
    if log != [] {
      var front, e := log[..|log| - 1], log[|log| - 1];
      SubjectSliceExact(step, start, front, subject);
      if e.ev.Relationship? && e.ev.from == subject {
        assert (Slice(front, subject) + [e])[..|Slice(front, subject)|] == Slice(front, subject);
      }
    }
  }

  // ---------------------------------------------------------------------------
  // The two lenses that are run over subject slices
  // ---------------------------------------------------------------------------

  function FactsOf(facts: set<Facts.Fact>, subject: Ref): set<Facts.Fact> {
    set f | f in facts && f.subject == subject
  }

  /** `TemporalLens.query(subject=...)` over the slice is the query over the log. */
  lemma {:induction false} FactsSliceExact(log: Log, subject: Ref)
    ensures Facts.Valid(Slice(log, subject)) == FactsOf(Facts.Valid(log), subject)
  {
    if log != [] {
      var front, e := log[..|log| - 1], log[|log| - 1];
      FactsSliceExact(front, subject);
      if e.ev.Relationship? && e.ev.from == subject {
        Facts.ValidSnoc(Slice(front, subject), e);
      }
    }
  }

  /** `GraphLens.neighbors`: the targets of the edges out of `subject`, in log order. */
  function Neighbors(log: Log, subject: Ref, rel: Option<string>): seq<Ref> {
    RunLens(
      (found: seq<Ref>, ev: Event) =>
        if ev.Relationship? && ev.from == subject && (rel.None? || ev.rel == rel.value)
        then found + [ev.to] else found,
      [], log)
  }

  ghost predicate LeadsTo(e: Entry, subject: Ref, rel: Option<string>, r: Ref) {
    e.ev.Relationship? && e.ev.from == subject && e.ev.to == r && (rel.None? || e.ev.rel == rel.value)
  }

  lemma {:induction false} NeighborsExact(log: Log, subject: Ref, rel: Option<string>, r: Ref)
    ensures r in Neighbors(log, subject, rel) <==> exists i :: 0 <= i < |log| && LeadsTo(log[i], subject, rel, r)
  {
    if log != [] {
      var front, last := log[..|log| - 1], log[|log| - 1];
      NeighborsExact(front, subject, rel, r);
      var found := Neighbors(front, subject, rel);
      assert Neighbors(log, subject, rel) ==
             if last.ev.Relationship? && last.ev.from == subject && (rel.None? || last.ev.rel == rel.value)
             then found + [last.ev.to] else found;
      if i :| 0 <= i < |front| && LeadsTo(front[i], subject, rel, r) {
        assert LeadsTo(log[i], subject, rel, r);
      }
      if i :| 0 <= i < |log| && LeadsTo(log[i], subject, rel, r) {
        assert i < |front| ==> front[i] == log[i];
      }
    }
  }

  lemma NeighborsSliceExact(log: Log, subject: Ref, rel: Option<string>)
    ensures Neighbors(Slice(log, subject), subject, rel) == Neighbors(log, subject, rel)
  {
    var step := (found: seq<Ref>, ev: Event) =>
        if ev.Relationship? && ev.from == subject && (rel.None? || ev.rel == rel.value)
        then found + [ev.to] else found;
    assert ReadsOnlySubject(step, subject);
    SubjectSliceExact(step, [], log, subject);
    assert Neighbors(log, subject, rel) == RunLens(step, [], log);
    assert Neighbors(Slice(log, subject), subject, rel) == RunLens(step, [], Slice(log, subject));
  }

  // ---------------------------------------------------------------------------
  // The vector view
  // ---------------------------------------------------------------------------

  /** The scope fold: `(cell, scope)` for each `scoped_to` edge, in log order. */
  function ScopeEdges(log: Log): seq<(Ref, Ref)> {
    if log == [] then []
    else
      var rest := ScopeEdges(log[..|log| - 1]);
      var ev := log[|log| - 1].ev;
      if ev.Relationship? && ev.rel == SCOPED_TO then rest + [(ev.from, ev.to)] else rest
  }

  ghost predicate Scopes(e: Entry, cell: Ref, scope: Ref) {
    e.ev == Relationship(cell, scope, SCOPED_TO)
  }

  lemma {:induction false} ScopeEdgesExact(log: Log, cell: Ref, scope: Ref)
    ensures (cell, scope) in ScopeEdges(log) <==> exists i :: 0 <= i < |log| && Scopes(log[i], cell, scope)
  {
    if log != [] {
      var front, last := log[..|log| - 1], log[|log| - 1];
      ScopeEdgesExact(front, cell, scope);
      if i :| 0 <= i < |front| && Scopes(front[i], cell, scope) {
        assert Scopes(log[i], cell, scope);
      }
      if i :| 0 <= i < |log| && Scopes(log[i], cell, scope) {
        assert i < |front| ==> front[i] == log[i];
      }
    }
  }

  /** The view holds nothing else: the edges of the two kinds, and the cells that some
      embedding edge points from. */
  lemma {:induction false} ViewMembers(part: Log, whole: Log, e: Entry)
    ensures e in Kept(part, whole) <==>
            && e in part
            && if e.ev.CellWrite? then PointsFrom(whole, Hash(e.ev.payload, e.ev.interpreters))
               else e.ev.Relationship? && (e.ev.rel == EMBEDDING_OF || e.ev.rel == SCOPED_TO)
  {
    if part != [] {
      ViewMembers(part[..|part| - 1], whole, e);
      assert part == part[..|part| - 1] + [part[|part| - 1]];
    }
  }

  lemma {:induction false} KeptEdges(part: Log, whole: Log)
    ensures EmbeddingEdges(Kept(part, whole)) == EmbeddingEdges(part)
    ensures ScopeEdges(Kept(part, whole)) == ScopeEdges(part)
  {
    if part != [] {
      var front, e := part[..|part| - 1], part[|part| - 1];
      KeptEdges(front, whole);
      if InVectorView(whole, e.ev) {
        assert (Kept(front, whole) + [e])[..|Kept(front, whole)|] == Kept(front, whole);
      }
    }
  }

  /** The view defines a cell exactly when the log does and some embedding edge leaves it. */
  lemma {:induction false} KeptCells(part: Log, whole: Log, r: Ref)
    requires PointsFrom(whole, r)
    ensures Defined(Kept(part, whole), r) <==> Defined(part, r)
  {
    if part != [] {
      var front, e := part[..|part| - 1], part[|part| - 1];
      KeptCells(front, whole, r);
      assert part[..|part|] == part;
      DefinedSnoc(part, |front|);
      if InVectorView(whole, e.ev) {
        var kept := Kept(front, whole) + [e];
        assert kept[..|kept|] == kept && kept[..|kept| - 1] == Kept(front, whole);
        DefinedSnoc(kept, |kept| - 1);
      }
    }
  }

  lemma {:induction false} ResolvedSame(edges: seq<(Ref, Ref)>, a: Log, b: Log)
    requires forall e :: e in edges ==> (Defined(a, e.0) <==> Defined(b, e.0))
    ensures Resolved(edges, a) == Resolved(edges, b)
  {
    if edges != [] {
      ResolvedSame(edges[..|edges| - 1], a, b);
      assert edges[|edges| - 1] in edges;
    }
  }

  /** The embedding join, the matrix and the scope fold over the vector view are those of
      the whole log. */
  lemma VectorViewExact(log: Log)
    ensures Resolved(EmbeddingEdges(VectorView(log)), VectorView(log)) == Resolved(EmbeddingEdges(log), log)
    ensures Rebuild(VectorView(log)) == Rebuild(log)
    ensures ScopeEdges(VectorView(log)) == ScopeEdges(log)
  {
    KeptEdges(log, log);
    forall e | e in EmbeddingEdges(log)
      ensures Defined(VectorView(log), e.0) <==> Defined(log, e.0)
    {
      EdgeIsInLog(log, e);
      assert PointsFrom(log, e.0);
      KeptCells(log, log, e.0);
    }
    ResolvedSame(EmbeddingEdges(log), VectorView(log), log);
  }
}
