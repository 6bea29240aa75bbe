/** The incremental search fold: a memo of cell references and a fold object that extends
    an earlier fold's indexes with the newly appended tail. Every observable of a fold is
    tied to a function of its event list alone, that is, to a rebuild from scratch. */
module SearchFolds {
  import opened EventLog

  const EMBEDDING_OF := "embedding_of"
  const SCOPED_TO := "scoped_to"

  /** One embedding vector: each component is its four little-endian bytes. */
  type Row = seq<Bytes>

  // ---------------------------------------------------------------------------
  // What a rebuild over the whole log gives
  // ---------------------------------------------------------------------------

  function RefsOf(log: Log): seq<Option<Ref>> {
    seq(|log|, i requires 0 <= i < |log| => CellRef(log[i].ev))
  }

  ghost predicate Defined(log: Log, r: Ref) {
    exists i :: 0 <= i < |log| && CellRef(log[i].ev) == Some(r)
  }

  ghost predicate IsPayloadJoin(payloads: map<Ref, Bytes>, log: Log) {
    && (forall r :: r in payloads <==> Defined(log, r))
    && (forall r :: r in payloads ==> payloads[r] == r.payload)
  }

  function Slice(log: Log, subject: Ref): Log {
    if log == [] then []
    else
      var rest := Slice(log[..|log| - 1], subject);
      var e := log[|log| - 1];
      if e.ev.Relationship? && e.ev.from == subject then rest + [e] else rest
  }

  ghost predicate IsSubjectIndex(index: map<Ref, Log>, log: Log) {
    forall r :: if r in index then index[r] == Slice(log, r) else Slice(log, r) == []
  }

  predicate IsEmbedding(ev: Event) {
    ev.Relationship? && ev.rel == EMBEDDING_OF
  }

  function EmbeddingEdges(log: Log): seq<(Ref, Ref)> {
    if log == [] then []
    else
      var rest := EmbeddingEdges(log[..|log| - 1]);
      var ev := log[|log| - 1].ev;
      if IsEmbedding(ev) then rest + [(ev.from, ev.to)] else rest
  }

  ghost predicate PointsFrom(log: Log, r: Ref) {
    exists i :: 0 <= i < |log| && IsEmbedding(log[i].ev) && log[i].ev.from == r
  }

  ghost predicate InVectorView(log: Log, ev: Event) {
    match CellRef(ev)
    case Some(r) => PointsFrom(log, r)
    case None => ev.Relationship? && (ev.rel == EMBEDDING_OF || ev.rel == SCOPED_TO)
  }

  /** The entries of `part` that the vector view of `whole` keeps, in order. */
  ghost function Kept(part: Log, whole: Log): Log {
    if part == [] then []
    else
      var rest := Kept(part[..|part| - 1], whole);
      if InVectorView(whole, part[|part| - 1].ev) then rest + [part[|part| - 1]] else rest
  }

  ghost function VectorView(log: Log): Log {
    Kept(log, log)
  }

  // ---------------------------------------------------------------------------
  // The embedding matrix
  // ---------------------------------------------------------------------------

  datatype Outcome =
    | Matrix(refs: seq<Ref>, rows: seq<Row>)
    | MixedDimensions  // the caller falls back to the lens
    | Malformed        // `struct.unpack` raises: not a whole number of floats

  const EMPTY_MATRIX := Matrix([], [])

  function Unpack(raw: Bytes): (row: Row)
    ensures |row| == |raw| / 4
    ensures |raw| % 4 == 0 ==> forall i :: 0 <= i < |row| ==> row[i] == raw[4 * i..4 * i + 4]
  {
    seq(|raw| / 4, i requires 0 <= i < |raw| / 4 => raw[4 * i..4 * i + 4])
  }

  /** The edges whose embedding cell is in `log`, with that cell's bytes. */
  ghost function Resolved(edges: seq<(Ref, Ref)>, log: Log): seq<(Ref, Bytes)> {
    if edges == [] then []
    else
      var rest := Resolved(edges[..|edges| - 1], log);
      var e := edges[|edges| - 1];
      if Defined(log, e.0) then rest + [(e.1, e.0.payload)] else rest
  }

  function AddRow(m: Outcome, target: Ref, raw: Bytes): Outcome {
    if !m.Matrix? then m
    else if m.rows != [] && |raw| / 4 != |m.rows[0]| then MixedDimensions
    else if |raw| % 4 != 0 then Malformed
    else Matrix(m.refs + [target], m.rows + [Unpack(raw)])
  }

  function AddRows(m: Outcome, items: seq<(Ref, Bytes)>): Outcome {
    if items == [] then m
    else AddRow(AddRows(m, items[..|items| - 1]), items[|items| - 1].0, items[|items| - 1].1)
  }

  ghost function Rebuild(log: Log): Outcome {
    AddRows(EMPTY_MATRIX, Resolved(EmbeddingEdges(log), log))
  }

  /** The points of the log where some earlier fold computed its matrix. */
  ghost predicate IsStops(stops: seq<nat>, log: Log) {
    stops == [] ||
    (IsStops(stops[..|stops| - 1], log) && Last(stops[..|stops| - 1]) <= Last(stops) <= |log|)
  }

  ghost function Last(stops: seq<nat>): nat {
    if stops == [] then 0 else stops[|stops| - 1]
  }

  /** What the extensions accumulate: each stretch of edges is resolved once, against the
      log as it was at the stop that ends the stretch. */
  ghost function Accumulated(log: Log, stops: seq<nat>): seq<(Ref, Bytes)>
    requires IsStops(stops, log)
  {
    if stops == [] then []
    else
      var front := stops[..|stops| - 1];
      var b := Last(stops);
      Accumulated(log, front) + Resolved(EmbeddingEdges(log[Last(front)..b]), log[..b])
  }

  ghost function Incremental(log: Log, stops: seq<nat>): Outcome
    requires IsStops(stops, log)
  {
    AddRows(EMPTY_MATRIX, Accumulated(log, stops))
  }

  /** Some edge found its embedding cell only after the stop that counted the edge. */
  ghost predicate LateCell(log: Log, stops: seq<nat>, n: nat)
    requires IsStops(stops, log) && n <= |log|
    decreases |stops|
  {
    && stops != []
    && var front := stops[..|stops| - 1];
       var b := Last(stops);
       || LateCell(log, front, n)
       || exists e :: e in EmbeddingEdges(log[Last(front)..b]) &&
                      !Defined(log[..b], e.0) && Defined(log[..n], e.0)
  }

  /** Every embedding cell is written before an edge points from it. */
  ghost predicate CellsPrecedeEdges(log: Log) {
    forall i :: 0 <= i < |log| && IsEmbedding(log[i].ev) ==> Defined(log[..i], log[i].ev.from)
  }

  // ---------------------------------------------------------------------------
  // Lemmas on append
  // ---------------------------------------------------------------------------

  lemma {:induction false} EdgesAppend(a: Log, b: Log)
    ensures EmbeddingEdges(a + b) == EmbeddingEdges(a) + EmbeddingEdges(b)
  {
    if b == [] {
      assert a + b == a;
    } else {
      EdgesAppend(a, b[..|b| - 1]);
      assert (a + b)[..|a + b| - 1] == a + b[..|b| - 1];
    }
  }

  lemma {:induction false} ResolvedAppend(a: seq<(Ref, Ref)>, b: seq<(Ref, Ref)>, log: Log)
    ensures Resolved(a + b, log) == Resolved(a, log) + Resolved(b, log)
  {
    if b == [] {
      assert a + b == a;
    } else {
      ResolvedAppend(a, b[..|b| - 1], log);
      assert (a + b)[..|a + b| - 1] == a + b[..|b| - 1];
    }
  }

  lemma {:induction false} AddRowsAppend(m: Outcome, a: seq<(Ref, Bytes)>, b: seq<(Ref, Bytes)>)
    ensures AddRows(m, a + b) == AddRows(AddRows(m, a), b)
  {
    if b == [] {
      assert a + b == a;
    } else {
      AddRowsAppend(m, a, b[..|b| - 1]);
      assert (a + b)[..|a + b| - 1] == a + b[..|b| - 1];
    }
  }

  /** A matrix has exactly one row per item that went into it. */
  lemma {:induction false} MatrixRowPerItem(m: Outcome, items: seq<(Ref, Bytes)>)
    requires m.Matrix? && |m.refs| == |m.rows|
    ensures AddRows(m, items).Matrix? ==>
              && |AddRows(m, items).refs| == |m.refs| + |items|
              && |AddRows(m, items).rows| == |m.rows| + |items|
  {
    if items != [] {
      MatrixRowPerItem(m, items[..|items| - 1]);
    }
  }

  lemma DefinedGrows(log: Log, a: nat, b: nat, r: Ref)
    requires a <= b <= |log| && Defined(log[..a], r)
    ensures Defined(log[..b], r)
  {
    var i :| 0 <= i < a && CellRef(log[..a][i].ev) == Some(r);
    assert log[..b][i] == log[..a][i];
  }

  /** Resolving against a longer log finds at least as much, and the same exactly when no
      edge gains its cell in between. */
  lemma {:induction false} ResolvedLater(edges: seq<(Ref, Ref)>, log: Log, a: nat, b: nat)
    requires a <= b <= |log|
    ensures |Resolved(edges, log[..a])| <= |Resolved(edges, log[..b])|
    ensures (exists e :: e in edges && !Defined(log[..a], e.0) && Defined(log[..b], e.0)) <==>
            |Resolved(edges, log[..a])| < |Resolved(edges, log[..b])|
    ensures |Resolved(edges, log[..a])| == |Resolved(edges, log[..b])| ==>
              Resolved(edges, log[..a]) == Resolved(edges, log[..b])
  {
    if edges != [] {
      var front, e := edges[..|edges| - 1], edges[|edges| - 1];
      assert edges == front + [e];
      ResolvedLater(front, log, a, b);
      if Defined(log[..a], e.0) {
        DefinedGrows(log, a, b, e.0);
      }
    }
  }

  /** The same, along all the stops of a chain of folds. */
  lemma {:induction false} AccumulatedLater(log: Log, stops: seq<nat>, n: nat)
    requires IsStops(stops, log) && Last(stops) <= n <= |log|
    ensures var now := Resolved(EmbeddingEdges(log[..Last(stops)]), log[..n]);
            && |Accumulated(log, stops)| <= |now|
            && (LateCell(log, stops, n) <==> |Accumulated(log, stops)| < |now|)
            && (|Accumulated(log, stops)| == |now| ==> Accumulated(log, stops) == now)
    decreases |stops|
  {
    if stops == [] {
      assert log[..0] == [];
    } else {
      var front, b := stops[..|stops| - 1], Last(stops);
      var a := Last(front);
      AccumulatedLater(log, front, n);
      assert log[..b] == log[..a] + log[a..b];
      EdgesAppend(log[..a], log[a..b]);
      ResolvedAppend(EmbeddingEdges(log[..a]), EmbeddingEdges(log[a..b]), log[..n]);
      ResolvedLater(EmbeddingEdges(log[a..b]), log, b, n);
    }
  }

  /** The incremental matrix against a rebuild, over any chain of folds ending at the
      whole log: without a late cell they are equal, whatever the outcome, and a matrix
      that equals the rebuild had no late cell. */
  lemma IncrementalMatrixExact(log: Log, stops: seq<nat>)
    requires IsStops(stops, log) && Last(stops) == |log|
    ensures !LateCell(log, stops, |log|) ==> Incremental(log, stops) == Rebuild(log)
    ensures Incremental(log, stops).Matrix? ==>
              (Incremental(log, stops) == Rebuild(log) <==> !LateCell(log, stops, |log|))
  {
    assert log[..|log|] == log;
    AccumulatedLater(log, stops, |log|);
    MatrixRowPerItem(EMPTY_MATRIX, Accumulated(log, stops));
    MatrixRowPerItem(EMPTY_MATRIX, Resolved(EmbeddingEdges(log), log));
  }

  /** The restriction is needed: when an edge comes before its cell, a fold that computes
      its matrix in between leaves the row out of every later fold of the chain. */
  lemma LateCellLosesARow(edge: Entry, write: Entry, log: Log, stops: seq<nat>)
    requires IsEmbedding(edge.ev) && CellRef(write.ev) == Some(edge.ev.from)
    requires |edge.ev.from.payload| % 4 == 0
    requires log == [edge, write] && stops == [1, 2]
    ensures IsStops(stops, log) && Last(stops) == |log|
    ensures Incremental(log, stops) == EMPTY_MATRIX
    ensures Rebuild(log) == Matrix([edge.ev.to], [Unpack(edge.ev.from.payload)])
  {
    LateRebuild(edge, write);
    LateIncremental(edge, write);
  }

  lemma LateIncremental(edge: Entry, write: Entry)
    requires IsEmbedding(edge.ev) && write.ev.CellWrite?
    ensures IsStops([1, 2], [edge, write]) && Incremental([edge, write], [1, 2]) == EMPTY_MATRIX
  {
    LateAccumulated(edge, write);
  }

  lemma LateRebuild(edge: Entry, write: Entry)
    requires IsEmbedding(edge.ev) && CellRef(write.ev) == Some(edge.ev.from)
    requires |edge.ev.from.payload| % 4 == 0
    ensures Rebuild([edge, write]) == Matrix([edge.ev.to], [Unpack(edge.ev.from.payload)])
  {
    var log := [edge, write];
    assert EmbeddingEdges(log) == [(edge.ev.from, edge.ev.to)] by {
      SingleEntry(edge);
      SingleEntry(write);
      EdgesAppend([edge], [write]);
      assert log == [edge] + [write];
    }
    assert Defined(log, edge.ev.from) by {
      assert CellRef(log[1].ev) == Some(edge.ev.from);
    }
    RebuildOneEdge(log, (edge.ev.from, edge.ev.to));
  }

  lemma RebuildOneEdge(log: Log, e: (Ref, Ref))
    requires EmbeddingEdges(log) == [e] && Defined(log, e.0) && |e.0.payload| % 4 == 0
    ensures Rebuild(log) == Matrix([e.1], [Unpack(e.0.payload)])
  {
    SingleEdge(e, log);
    var item := (e.1, e.0.payload);
    assert AddRows(EMPTY_MATRIX, [item]) == AddRow(EMPTY_MATRIX, item.0, item.1) by {
      assert [item][..0] == [];
    }
  }

  lemma LateAccumulated(edge: Entry, write: Entry)
    requires IsEmbedding(edge.ev) && write.ev.CellWrite?
    ensures Accumulated([edge, write], [1, 2]) == []
  {
    var log := [edge, write];
    assert log[0..1] == log[..1] == [edge] && log[1..2] == [write];
    SingleEntry(edge);
    SingleEntry(write);
    SingleEdge((edge.ev.from, edge.ev.to), [edge]);
    assert !Defined([edge], edge.ev.from);
    assert [1][..0] == [] && [1, 2][..1] == [1];
    assert IsStops([1], log);
    assert Accumulated(log, [1]) == [];
  }

  lemma SingleEntry(e: Entry)
    ensures EmbeddingEdges([e]) == if IsEmbedding(e.ev) then [(e.ev.from, e.ev.to)] else []
  {
    assert [e][..0] == [];
  }

  lemma SingleEdge(e: (Ref, Ref), log: Log)
    ensures Resolved([e], log) == if Defined(log, e.0) then [(e.1, e.0.payload)] else []
  {
    assert [e][..0] == [];
  }

  ghost predicate Uniform(items: seq<(Ref, Bytes)>) {
    forall i :: 0 <= i < |items| ==> |items[i].1| % 4 == 0 && |items[i].1| / 4 == |items[0].1| / 4
  }

  /** Row by row or at once: there is a matrix exactly when every embedding is a whole
      number of floats and all have the same dimension, and then its rows are the
      embeddings, in order. */
  lemma {:induction false} MatrixIffUniform(items: seq<(Ref, Bytes)>)
    ensures AddRows(EMPTY_MATRIX, items).Matrix? <==> Uniform(items)
    ensures Uniform(items) ==>
              var m := AddRows(EMPTY_MATRIX, items);
              && |m.refs| == |m.rows| == |items|
              && forall i :: 0 <= i < |items| ==> m.refs[i] == items[i].0 && m.rows[i] == Unpack(items[i].1)
  {
    if items != [] {
      var front := items[..|items| - 1];
      MatrixIffUniform(front);
      assert Uniform(items) ==> Uniform(front);
      if AddRows(EMPTY_MATRIX, items).Matrix? {
        forall i | 0 <= i < |items|
          ensures |items[i].1| % 4 == 0 && |items[i].1| / 4 == |items[0].1| / 4
        {
          if i < |front| {
            assert front[i] == items[i] && front[0] == items[0];
          }
        }
      }
    }
  }

  lemma {:induction false} EdgeIsInLog(log: Log, e: (Ref, Ref))
    requires e in EmbeddingEdges(log)
    ensures exists i :: 0 <= i < |log| && IsEmbedding(log[i].ev) && (log[i].ev.from, log[i].ev.to) == e
  {
    var front := log[..|log| - 1];
    if e in EmbeddingEdges(front) {
      EdgeIsInLog(front, e);
      var i :| 0 <= i < |front| && IsEmbedding(front[i].ev) && (front[i].ev.from, front[i].ev.to) == e;
      assert log[i] == front[i];
    } else {
      assert IsEmbedding(log[|log| - 1].ev);
    }
  }

  /** What a rebuild that comes to nothing reports is decided by the first embedding that does
      not fit: another dimension than the rows before it makes the caller fall back, a torn
      last float of the same dimension raises. */
  lemma {:induction false} FirstMisfitDecides(items: seq<(Ref, Bytes)>, i: nat)
    requires i < |items| && Uniform(items[..i]) && !Uniform(items[..i + 1])
    ensures AddRows(EMPTY_MATRIX, items) ==
            if i > 0 && |items[i].1| / 4 != |items[0].1| / 4 then MixedDimensions else Malformed
    decreases |items|
  {
    var front := items[..|items| - 1];
    if i < |front| {
      assert front[..i] == items[..i] && front[..i + 1] == items[..i + 1];
      FirstMisfitDecides(front, i);
    } else {
      assert items[..i] == front && items[..i + 1] == items;
      MatrixIffUniform(front);
      MatrixIffUniform(items);
      assert i > 0 ==> AddRows(EMPTY_MATRIX, front).rows[0] == Unpack(front[0].1) && front[0] == items[0];
    }
  }

  /** Writing the cell before its edge rules late cells out, wherever the stops fall. */
  lemma {:induction false} NoLateCells(log: Log, stops: seq<nat>, n: nat)
    requires CellsPrecedeEdges(log) && IsStops(stops, log) && n <= |log|
    ensures !LateCell(log, stops, n)
    decreases |stops|
  {
    if stops != [] {
      var front, b := stops[..|stops| - 1], Last(stops);
      var a := Last(front);
      NoLateCells(log, front, n);
      forall e | e in EmbeddingEdges(log[a..b])
        ensures Defined(log[..b], e.0)
      {
        EdgeIsInLog(log[a..b], e);
        var i :| 0 <= i < b - a && IsEmbedding(log[a..b][i].ev) && log[a..b][i].ev.from == e.0;
        assert log[a + i] == log[a..b][i];
        DefinedGrows(log, a + i, b, e.0);
      }
    }
  }

  /** What was accumulated by earlier folds depends only on the log they saw. */
  lemma {:induction false} AccumulatedPrefix(log: Log, more: Log, stops: seq<nat>)
    requires IsStops(stops, log) && log <= more
    ensures IsStops(stops, more)
    ensures Accumulated(more, stops) == Accumulated(log, stops)
    decreases |stops|
  {
    if stops != [] {
      var front, b := stops[..|stops| - 1], Last(stops);
      AccumulatedPrefix(log, more, front);
      assert more[..b] == log[..b] && more[Last(front)..b] == log[Last(front)..b];
    }
  }

  /** A matrix carried along a chain of folds: what the folds accumulated, and how many
      edges they counted. */
  ghost predicate IsInheritedMatrix(state: Option<(seq<Ref>, seq<Row>, nat)>, stops: seq<nat>, log: Log) {
    && IsStops(stops, log)
    && match state
       case None => stops == []
       case Some(s) =>
         && stops != []
         && s.2 == |EmbeddingEdges(log[..Last(stops)])|
         && Incremental(log, stops) == Matrix(s.0, s.1)
  }

  lemma InheritedMatrixCarries(state: Option<(seq<Ref>, seq<Row>, nat)>, stops: seq<nat>, log: Log, more: Log)
    requires IsInheritedMatrix(state, stops, log) && log <= more
    ensures IsInheritedMatrix(state, stops, more)
  {
    AccumulatedPrefix(log, more, stops);
    assert more[..Last(stops)] == log[..Last(stops)];
  }

  /** The indexes of a fold over `log`: what a rebuild has, those that are built. */
  ghost predicate IndexesFit(log: Log, refs: seq<Option<Ref>>, payloads: map<Ref, Bytes>,
                             bySubject: Option<map<Ref, Log>>, view: Option<Log>, edges: Option<seq<(Ref, Ref)>>)
  {
    && refs == RefsOf(log)
    && IsPayloadJoin(payloads, log)
    && (bySubject.Some? ==> IsSubjectIndex(bySubject.value, log))
    && (view.Some? ==> view.value == VectorView(log))
    && (edges.Some? ==> edges.value == EmbeddingEdges(log))
  }

  /** The matrix fields of a fold over `log`. */
  ghost predicate MatrixFits(log: Log, state: Option<(seq<Ref>, seq<Row>, nat)>, computed: bool,
                             matrix: Option<(seq<Ref>, seq<Row>)>, stops: seq<nat>)
  {
    && IsInheritedMatrix(state, stops, log)
    && (computed && matrix.Some? ==>
          && Last(stops) == |log|
          && Incremental(log, stops) == Matrix(matrix.value.0, matrix.value.1))
  }

  lemma MatrixSettled(refs: seq<Ref>, rows: seq<Row>, at: seq<nat>, log: Log)
    requires IsStops(at, log) && at != [] && Last(at) == |log|
    requires Incremental(log, at) == Matrix(refs, rows)
    ensures MatrixFits(log, Some((refs, rows, |EmbeddingEdges(log)|)), true, Some((refs, rows)), at)
  {
    assert log[..|log|] == log;
  }

  /** How `vector_matrix` reports an outcome. */
  predicate Answers(outcome: Outcome, result: Option<(seq<Ref>, seq<Row>)>, raised: bool) {
    && raised == outcome.Malformed?
    && result == if outcome.Matrix? then Some((outcome.refs, outcome.rows)) else None
  }

  /** Where every embedding fits the first, the call answers with all of them: one row for
      each, unpacked, next to the ref it embeds. */
  lemma UniformAnswered(items: seq<(Ref, Bytes)>, result: Option<(seq<Ref>, seq<Row>)>, raised: bool)
    requires Uniform(items) && Answers(AddRows(EMPTY_MATRIX, items), result, raised)
    ensures !raised && result.Some? && |result.value.0| == |result.value.1| == |items|
    ensures forall i :: 0 <= i < |items| ==>
              result.value.0[i] == items[i].0 && result.value.1[i] == Unpack(items[i].1)
  {
    MatrixIffUniform(items);
  }

  /** So the call raises exactly for a torn float of the dimension of the rows before it, and
      answers nothing for either misfit. */
  lemma MisfitReported(items: seq<(Ref, Bytes)>, i: nat, result: Option<(seq<Ref>, seq<Row>)>, raised: bool)
    requires i < |items| && Uniform(items[..i]) && !Uniform(items[..i + 1])
    requires Answers(AddRows(EMPTY_MATRIX, items), result, raised)
    ensures result.None? && (raised <==> i == 0 || |items[i].1| / 4 == |items[0].1| / 4)
    ensures raised ==> |items[i].1| % 4 != 0
  {
    FirstMisfitDecides(items, i);
    if |items[i].1| % 4 == 0 && (i == 0 || |items[i].1| / 4 == |items[0].1| / 4) {
      var upTo := items[..i + 1];
      forall j | 0 <= j < |upTo|
        ensures |upTo[j].1| % 4 == 0 && |upTo[j].1| / 4 == |upTo[0].1| / 4
      {
        assert j < i ==> items[..i][j] == items[j] && items[..i][0] == items[0];
      }
    }
  }

  /** The answer over a log to a fold whose ancestors left their matrix at `before`: that of
      the accumulated extensions, and of a rebuild when embedding cells precede their edges. */
  ghost predicate Settles(log: Log, before: seq<nat>, after: seq<nat>, result: Option<(seq<Ref>, seq<Row>)>,
                          raised: bool)
  {
    var at := before + [|log|];
    && IsStops(at, log)
    && Answers(Incremental(log, at), result, raised)
    && after == (if result.Some? then at else before)
    && (CellsPrecedeEdges(log) ==> Answers(Rebuild(log), result, raised))
  }

  lemma Settled(log: Log, before: seq<nat>, at: seq<nat>, after: seq<nat>, result: Option<(seq<Ref>, seq<Row>)>,
                raised: bool)
    requires at == before + [|log|] && IsStops(at, log) && Answers(Incremental(log, at), result, raised)
    requires after == if result.Some? then at else before
    ensures Settles(log, before, after, result, raised)
  {
    assert Last(at) == |log|;
    if CellsPrecedeEdges(log) {
      MatrixEqualsRebuild(log, at, result, raised);
    }
  }

  // ---------------------------------------------------------------------------
  // The two objects
  // ---------------------------------------------------------------------------

  /** `_CellRefCache`: only the tail not seen before is hashed. */
  class RefCache {
    var refs: seq<Option<Ref>>
    var lastPos: Option<nat>
    ghost var seen: Log

    ghost predicate Valid()
      reads this
    {
      && refs == RefsOf(seen)
      && (seen != [] ==> lastPos == Some(seen[|seen| - 1].pos))
    }

    constructor ()
      ensures Valid() && seen == []
    {
      refs, lastPos, seen := [], None, [];
    }

    method RefsFor(events: Log) returns (r: seq<Option<Ref>>)
      requires Valid() && SameKernel(seen, events)
      modifies this
      ensures Valid() && seen == events
      ensures r == RefsOf(events)
    {
      var n := |refs|;
      assert BoundaryMatches(seen, events) <==> seen <= events by {
        BoundaryCheckSound(seen, events);
      }
      if n > |events| || (n > 0 && Some(events[n - 1].pos) != lastPos) {
        refs := [];
        n := 0;
      }
      assert refs == RefsOf(events[..n]);
      if |events| > n {
        refs := HashTail(refs, events, n);
        lastPos := Some(events[|events| - 1].pos);
      }
      assert events[..|events|] == events;
      seen := events;
      r := refs[..|events|];
    }

    static method HashTail(inherited: seq<Option<Ref>>, events: Log, n: nat) returns (r: seq<Option<Ref>>)
      requires n <= |events| && inherited == RefsOf(events[..n])
      ensures r == RefsOf(events)
    {
      r := inherited;
      for i := n to |events|
        invariant r == RefsOf(events[..i])
      {
        r := r + [CellRef(events[i].ev)];
      }
      assert events[..|events|] == events;
    }
  }

  /** `_SearchFold`, over the event list of one `all_events()` pass. */
  class SearchFold {
    var events: Log
    var refs: seq<Option<Ref>>
    var payloads: map<Ref, Bytes>
    var bySubject: Option<map<Ref, Log>>
    var view: Option<Log>
    var edges: Option<seq<(Ref, Ref)>>
    var matrixState: Option<(seq<Ref>, seq<Row>, nat)>
    var matrixComputed: bool
    var matrix: Option<(seq<Ref>, seq<Row>)>
    ghost var stops: seq<nat>  // where this fold's ancestors left their matrix

    ghost predicate IndexesValid()
      reads this`events, this`refs, this`payloads, this`bySubject, this`view, this`edges
    {
      IndexesFit(events, refs, payloads, bySubject, view, edges)
    }

    ghost predicate MatrixValid()
      reads this`events, this`matrixState, this`matrixComputed, this`matrix, this`stops
    {
      MatrixFits(events, matrixState, matrixComputed, matrix, stops)
    }

    ghost predicate Valid()
      reads this
    {
      IndexesValid() && MatrixValid()
    }

    predicate IsPrefixOf(newEvents: Log)
      reads this
      ensures IsPrefixOf(newEvents) <==> BoundaryMatches(events, newEvents)
    {
      var n := |events|;
      n == 0 || (|newEvents| >= n && newEvents[n - 1].pos == events[n - 1].pos)
    }

    /** Builds over `log`; when `prior` is a prefix of it, extends what `prior` has. */
    constructor (log: Log, cache: RefCache?, prior: SearchFold?)
      requires cache != null ==> cache.Valid() && SameKernel(cache.seen, log)
      requires prior != null ==> prior.Valid() && SameKernel(prior.events, log)
      modifies cache
      ensures Valid() && events == log
      ensures cache != null ==> cache.Valid() && cache.seen == log
      ensures var extended := prior != null && prior.events <= log;
              && (bySubject.Some? <==> extended && prior.bySubject.Some?)
              && (edges.Some? <==> extended && prior.edges.Some?)
              && stops == (if extended then prior.stops else [])
      ensures view.None? && !matrixComputed
    {
      var rs;
      if cache != null {
        rs := cache.RefsFor(log);
      } else {
        rs := RefsOf(log);
      }
      var start, ps, index, es, ms;
      ghost var ss;
      start, ps, index, es, ms, ss := Inherit(prior, log);
      ps := ExtendPayloads(ps, log, rs, start);
      events, refs, payloads, bySubject, edges, matrixState := log, rs, ps, index, es, ms;
      view, matrixComputed, matrix, stops := None, false, None, ss;
    }

    /** What a fold over `log` may start from: the indexes of `prior`, already extended
        where `prior` had built them, or nothing. */
    static method Inherit(prior: SearchFold?, log: Log)
      returns (start: nat, payloads: map<Ref, Bytes>, index: Option<map<Ref, Log>>,
               edges: Option<seq<(Ref, Ref)>>, state: Option<(seq<Ref>, seq<Row>, nat)>,
               ghost stops: seq<nat>)
      requires prior != null ==> prior.Valid() && SameKernel(prior.events, log)
      ensures start <= |log| && IsPayloadJoin(payloads, log[..start])
      ensures index.Some? ==> IsSubjectIndex(index.value, log)
      ensures edges.Some? ==> edges.value == EmbeddingEdges(log)
      ensures IsInheritedMatrix(state, stops, log)
      ensures var extended := prior != null && prior.events <= log;
              && (index.Some? <==> extended && prior.bySubject.Some?)
              && (edges.Some? <==> extended && prior.edges.Some?)
              && stops == (if extended then prior.stops else [])
    {
      if prior == null || !prior.IsPrefixOf(log) {
        if prior != null {
          BoundaryCheckSound(prior.events, log);
        }
        return 0, map[], None, None, None, [];
      }
      ContinuesPrior(prior, log);
      start, payloads := |prior.events|, prior.payloads;
      index := ExtendBySubject(prior.bySubject, log, start);
      edges := ExtendEmbeddingEdges(prior.edges, log, start);
      state, stops := prior.matrixState, prior.stops;
    }

    static lemma ContinuesPrior(prior: SearchFold, log: Log)
      requires prior.Valid() && SameKernel(prior.events, log) && prior.IsPrefixOf(log)
      ensures prior.events <= log && log[..|prior.events|] == prior.events
      ensures IsInheritedMatrix(prior.matrixState, prior.stops, log)
    {
      BoundaryCheckSound(prior.events, log);
      InheritedMatrixCarries(prior.matrixState, prior.stops, prior.events, log);
    }

    static method ExtendPayloads(inherited: map<Ref, Bytes>, log: Log, refs: seq<Option<Ref>>, start: nat)
      returns (payloads: map<Ref, Bytes>)
      requires start <= |log| && IsPayloadJoin(inherited, log[..start]) && refs == RefsOf(log)
      ensures IsPayloadJoin(payloads, log)
    {
      payloads := inherited;
      for i := start to |log|
        invariant IsPayloadJoin(payloads, log[..i])
      {
        assert log[..i + 1] == log[..i] + [log[i]];
        if refs[i].Some? {
          payloads := payloads[refs[i].value := log[i].ev.payload];
        }
        DefinedSnoc(log, i);
      }
      assert log[..|log|] == log;
    }

    static method ExtendBySubject(inherited: Option<map<Ref, Log>>, log: Log, start: nat)
      returns (index: Option<map<Ref, Log>>)
      requires start <= |log|
      requires inherited.Some? ==> IsSubjectIndex(inherited.value, log[..start])
      ensures index.Some? <==> inherited.Some?
      ensures index.Some? ==> IsSubjectIndex(index.value, log)
    {
      if inherited.None? {
        return None;
      }
      var entries := inherited.value;
      for i := start to |log|
        invariant IsSubjectIndex(entries, log[..i])
      {
        assert log[..i + 1][..i] == log[..i];
        var ev := log[i].ev;
        if ev.Relationship? {
          entries := entries[ev.from := (if ev.from in entries then entries[ev.from] else []) + [log[i]]];
        }
      }
      assert log[..|log|] == log;
      index := Some(entries);
    }

    static method ExtendEmbeddingEdges(inherited: Option<seq<(Ref, Ref)>>, log: Log, start: nat)
      returns (out: Option<seq<(Ref, Ref)>>)
      requires start <= |log|
      requires inherited.Some? ==> inherited.value == EmbeddingEdges(log[..start])
      ensures out.Some? <==> inherited.Some?
      ensures out.Some? ==> out.value == EmbeddingEdges(log)
    {
      if inherited.None? {
        return None;
      }
      var es := inherited.value;
      for i := start to |log|
        invariant es == EmbeddingEdges(log[..i])
      {
        assert log[..i + 1][..i] == log[..i];
        if IsEmbedding(log[i].ev) {
          es := es + [(log[i].ev.from, log[i].ev.to)];
        }
      }
      assert log[..|log|] == log;
      out := Some(es);
    }

    /** The events `TemporalLens` and `GraphLens` can read for one subject. */
    method ForSubject(subject: Ref) returns (slice: Log)
      requires IndexesValid()
      modifies this`bySubject
      ensures IndexesValid() && slice == Slice(events, subject)
    {
      if bySubject.None? {
        bySubject := ExtendBySubject(Some(map[]), events, 0);
      }
      slice := if subject in bySubject.value then bySubject.value[subject] else [];
    }

    method EmbeddingEdgeList() returns (es: seq<(Ref, Ref)>)
      requires IndexesValid()
      modifies this`edges
      ensures IndexesValid() && edges == Some(es) && es == EmbeddingEdges(events)
    {
      if edges.None? {
        edges := ExtendEmbeddingEdges(Some([]), events, 0);
      }
      es := edges.value;
    }

    /** The events `VectorLens.query` can depend on. */
    method VectorViewEvents() returns (kept: Log)
      requires IndexesValid()
      modifies this`view
      ensures IndexesValid() && kept == VectorView(events)
    {
      if view.None? {
        var sources: set<Ref> := {};
        for i := 0 to |events|
          invariant forall r :: r in sources <==> PointsFrom(events[..i], r)
        {
          assert events[..i + 1] == events[..i] + [events[i]];
          if IsEmbedding(events[i].ev) {
            sources := sources + {events[i].ev.from};
          }
          PointsFromSnoc(events, i);
        }
        assert events[..|events|] == events;
        var keep: Log := [];
        for i := 0 to |events|
          invariant keep == Kept(events[..i], events)
        {
          assert events[..i + 1][..i] == events[..i];
          var ev := events[i].ev;
          if refs[i].Some? {
            if refs[i].value in sources {
              keep := keep + [events[i]];
            }
          } else if ev.Relationship? && (ev.rel == EMBEDDING_OF || ev.rel == SCOPED_TO) {
            keep := keep + [events[i]];
          }
        }
        view := Some(keep);
      }
      kept := view.value;
    }

    /** The cached result, or the inherited matrix extended with the rows of the edges it
        has not counted. `raised` stands for the exception of a malformed embedding. */
    method VectorMatrix() returns (result: Option<(seq<Ref>, seq<Row>)>, raised: bool)
      requires Valid()
      modifies this`edges, this`matrixComputed, this`matrix, this`matrixState, this`stops
      ensures Valid() && matrixComputed && matrix == result
      ensures old(matrixComputed) ==>
                result == old(matrix) && !raised && stops == old(stops)
      ensures !old(matrixComputed) ==> Settles(events, old(stops), stops, result, raised)
    {
      if matrixComputed {
        return matrix, false;
      }
      var es := EmbeddingEdgeList();
      result, raised := ComputeMatrix(es, stops + [|events|]);
    }

    method ComputeMatrix(es: seq<(Ref, Ref)>, ghost at: seq<nat>)
      returns (result: Option<(seq<Ref>, seq<Row>)>, raised: bool)
      requires IsPayloadJoin(payloads, events) && MatrixValid()
      requires es == EmbeddingEdges(events) && at == stops + [|events|]
      modifies this`matrixComputed, this`matrix, this`matrixState, this`stops
      ensures MatrixValid() && matrixComputed && matrix == result
      ensures Settles(events, old(stops), stops, result, raised)
    {
      ghost var before := stops;
      var outcome := MatrixOf(es, at);
      raised := outcome.Malformed?;
      result := StoreMatrix(outcome, |es|, at);
      Settled(events, before, at, stops, result, raised);
    }

    method StoreMatrix(outcome: Outcome, counted: nat, ghost at: seq<nat>)
      returns (result: Option<(seq<Ref>, seq<Row>)>)
      requires MatrixValid() && IsStops(at, events) && at != [] && Last(at) == |events|
      requires outcome == Incremental(events, at) && counted == |EmbeddingEdges(events)|
      modifies this`matrixComputed, this`matrix, this`matrixState, this`stops
      ensures MatrixValid() && matrixComputed && matrix == result
      ensures Answers(outcome, result, outcome.Malformed?) && stops == if result.Some? then at else old(stops)
    {
      matrixState, stops, result := Keep(outcome, counted, at, events, matrixState, stops);
      matrixComputed, matrix := true, result;
    }

    /** What is kept after an outcome: a matrix, or what was kept before. */
    static method Keep(outcome: Outcome, counted: nat, ghost at: seq<nat>, ghost log: Log,
                       before: Option<(seq<Ref>, seq<Row>, nat)>, ghost stopsBefore: seq<nat>)
      returns (state: Option<(seq<Ref>, seq<Row>, nat)>, ghost stops: seq<nat>,
               result: Option<(seq<Ref>, seq<Row>)>)
      requires IsInheritedMatrix(before, stopsBefore, log) && counted == |EmbeddingEdges(log)|
      requires IsStops(at, log) && at != [] && Last(at) == |log| && outcome == Incremental(log, at)
      ensures MatrixFits(log, state, true, result, stops)
      ensures Answers(outcome, result, outcome.Malformed?) && stops == if result.Some? then at else stopsBefore
    {
      if !outcome.Matrix? {
        return before, stopsBefore, None;
      }
      MatrixSettled(outcome.refs, outcome.rows, at, log);
      state, stops, result :=
        Some((outcome.refs, outcome.rows, counted)), at, Some((outcome.refs, outcome.rows));
    }

    /** Extends the inherited matrix with the edges it has not counted. */
    method MatrixOf(es: seq<(Ref, Ref)>, ghost at: seq<nat>) returns (outcome: Outcome)
      requires IsPayloadJoin(payloads, events) && IsInheritedMatrix(matrixState, stops, events)
      requires es == EmbeddingEdges(events) && at == stops + [|events|]
      ensures IsStops(at, events) && outcome == Incremental(events, at)
    {
      var priorRefs: seq<Ref>, priorRows: seq<Row>, counted := [], [], 0;
      if matrixState.Some? && matrixState.value.2 <= |es| {
        priorRefs, priorRows, counted := matrixState.value.0, matrixState.value.1, matrixState.value.2;
      }
      CountedEdges(events, stops);
      outcome := ExtendMatrix(priorRefs, priorRows, es[counted..], payloads, events);
    }

    static method ExtendMatrix(priorRefs: seq<Ref>, priorRows: seq<Row>, newEdges: seq<(Ref, Ref)>,
                               payloads: map<Ref, Bytes>, ghost log: Log)
      returns (outcome: Outcome)
      requires IsPayloadJoin(payloads, log)
      ensures outcome == AddRows(Matrix(priorRefs, priorRows), Resolved(newEdges, log))
    {
      outcome := Matrix(priorRefs, priorRows);
      for i := 0 to |newEdges|
        invariant outcome == AddRows(Matrix(priorRefs, priorRows), Resolved(newEdges[..i], log))
        invariant outcome.Matrix?
      {
        assert newEdges[..i + 1][..i] == newEdges[..i];
        var edge := newEdges[i];
        if edge.0 in payloads {
          outcome := AddRow(outcome, edge.1, payloads[edge.0]);
          if !outcome.Matrix? {
            FailureStays(Matrix(priorRefs, priorRows), newEdges, i + 1, log);
            return;
          }
        }
      }
      assert newEdges[..|newEdges|] == newEdges;
    }
  }

  lemma DefinedSnoc(log: Log, i: nat)
    requires i < |log|
    ensures forall r :: Defined(log[..i + 1], r) <==> Defined(log[..i], r) || CellRef(log[i].ev) == Some(r)
  {
    forall r
      ensures Defined(log[..i + 1], r) <==> Defined(log[..i], r) || CellRef(log[i].ev) == Some(r)
    {
      if Defined(log[..i], r) {
        DefinedGrows(log, i, i + 1, r);
      }
      if CellRef(log[i].ev) == Some(r) {
        assert log[..i + 1][i] == log[i];
      }
      if Defined(log[..i + 1], r) {
        var k :| 0 <= k < i + 1 && CellRef(log[..i + 1][k].ev) == Some(r);
        if k < i {
          assert log[..i][k] == log[..i + 1][k];
        }
      }
    }
  }

  lemma PointsFromSnoc(log: Log, i: nat)
    requires i < |log|
    ensures forall r :: PointsFrom(log[..i + 1], r) <==>
              PointsFrom(log[..i], r) || (IsEmbedding(log[i].ev) && log[i].ev.from == r)
  {
    assert log[..i + 1] == log[..i] + [log[i]];
    forall r | PointsFrom(log[..i], r)
      ensures PointsFrom(log[..i + 1], r)
    {
      var k :| 0 <= k < i && IsEmbedding(log[..i][k].ev) && log[..i][k].ev.from == r;
      assert log[..i + 1][k] == log[..i][k];
    }
    forall r | PointsFrom(log[..i + 1], r)
      ensures PointsFrom(log[..i], r) || (IsEmbedding(log[i].ev) && log[i].ev.from == r)
    {
      var k :| 0 <= k < i + 1 && IsEmbedding(log[..i + 1][k].ev) && log[..i + 1][k].ev.from == r;
      if k < i {
        assert log[..i][k] == log[..i + 1][k];
      }
    }
    if IsEmbedding(log[i].ev) {
      assert log[..i + 1][i] == log[i];
    }
  }

  /** The edges beyond those counted at the last stop are those of the rest of the log. */
  lemma CountedEdges(log: Log, stops: seq<nat>)
    requires IsStops(stops, log)
    ensures var c := |EmbeddingEdges(log[..Last(stops)])|;
            var at := stops + [|log|];
            && c <= |EmbeddingEdges(log)|
            && IsStops(at, log)
            && Incremental(log, at) ==
                 AddRows(Incremental(log, stops), Resolved(EmbeddingEdges(log)[c..], log))
  {
    var a := Last(stops);
    var at := stops + [|log|];
    assert log == log[..a] + log[a..];
    EdgesAppend(log[..a], log[a..]);
    assert EmbeddingEdges(log)[|EmbeddingEdges(log[..a])|..] == EmbeddingEdges(log[a..]);
    assert at[..|at| - 1] == stops && log[a..|log|] == log[a..] && log[..|log|] == log;
    AddRowsAppend(EMPTY_MATRIX, Accumulated(log, stops), Resolved(EmbeddingEdges(log[a..]), log));
  }

  /** Once a row fails, the rows after it do not change the outcome. */
  lemma {:induction false} FailureStays(m: Outcome, edges: seq<(Ref, Ref)>, k: nat, log: Log)
    requires k <= |edges| && !AddRows(m, Resolved(edges[..k], log)).Matrix?
    ensures AddRows(m, Resolved(edges, log)) == AddRows(m, Resolved(edges[..k], log))
    decreases |edges| - k
  {
    if k == |edges| {
      assert edges[..k] == edges;
    } else {
      assert edges[..k + 1][..k] == edges[..k];
      FailureStays(m, edges, k + 1, log);
    }
  }

  // ---------------------------------------------------------------------------
  // Along any run
  // ---------------------------------------------------------------------------

  /** A matrix computed by any chain of folds is the rebuilt one, when every embedding
      cell was written before its edge. */
  lemma MatrixEqualsRebuild(log: Log, stops: seq<nat>, result: Option<(seq<Ref>, seq<Row>)>, raised: bool)
    requires IsStops(stops, log) && Last(stops) == |log| && CellsPrecedeEdges(log)
    ensures Answers(Incremental(log, stops), result, raised) <==> Answers(Rebuild(log), result, raised)
  {
    NoLateCells(log, stops, |log|);
    IncrementalMatrixExact(log, stops);
  }

  /** What a reader asks a fold for, which is what makes it build its lazy parts. */
  datatype Wanted = Wanted(subject: Option<Ref>, view: bool, edges: bool, matrix: bool)

  /** What it is told about the matrix, if it asked. */
  type Answer = Option<(Option<(seq<Ref>, seq<Row>)>, bool)>

  /** A reader builds a fold over the k-th log of a run, from whichever logs of it the memo
      and the retained fold stand for, and asks it for what it wants. */
  method BuildAndForce(ghost ks: seq<Kernel>, ghost seenAt: nat, ghost priorAt: nat, ghost k: nat, log: Log,
                       cache: RefCache, prior: SearchFold?, wanted: Wanted)
    returns (fold: SearchFold, answer: Answer)
    requires Run(ks) && seenAt < |ks| && priorAt < |ks| && k < |ks| && log == ks[k].log
    requires cache.Valid() && cache.seen == ks[seenAt].log
    requires prior != null ==> prior.Valid() && prior.events == ks[priorAt].log
    modifies cache
    ensures cache.Valid() && cache.seen == log
    ensures fresh(fold) && fold.Valid() && fold.events == log
    ensures AnswersRebuild(log, wanted.matrix, answer)
  {
    AnyTwoLogs(ks, seenAt, k);
    AnyTwoLogs(ks, priorAt, k);
    fold := new SearchFold(log, cache, prior);
    answer := Force(fold, wanted);
  }

  method Force(fold: SearchFold, wanted: Wanted) returns (answer: Answer)
    requires fold.Valid() && !fold.matrixComputed
    modifies fold
    ensures fold.Valid() && fold.events == old(fold.events)
    ensures AnswersRebuild(fold.events, wanted.matrix, answer)
  {
    ForceIndexes(fold, wanted);
    answer := None;
    if wanted.matrix {
      var matrix, raised := fold.VectorMatrix();
      answer := Some((matrix, raised));
    }
  }

  method ForceIndexes(fold: SearchFold, wanted: Wanted)
    requires fold.IndexesValid()
    modifies fold`bySubject, fold`view, fold`edges
    ensures fold.IndexesValid()
  {
    if wanted.subject.Some? {
      var _ := fold.ForSubject(wanted.subject.value);
    }
    if wanted.view {
      var _ := fold.VectorViewEvents();
    }
    if wanted.edges {
      var _ := fold.EmbeddingEdgeList();
    }
  }

  lemma AnyTwoLogs(ks: seq<Kernel>, i: nat, j: nat)
    requires Run(ks) && i < |ks| && j < |ks|
    ensures SameKernel(ks[i].log, ks[j].log)
  {
    if i <= j {
      RunRewrites(ks, i, j);
    } else {
      RunRewrites(ks, j, i);
    }
  }

  /** Readers materialise the logs of a run in any order, each extending the longest fold
      kept so far, whatever of its lazy parts that one has built, and each forcing any of
      them: every matrix asked for is the one a rebuild over its own log gives. */
  method FoldsAlongRun(ks: seq<Kernel>, picks: seq<nat>, wanted: seq<Wanted>) returns (answers: seq<Answer>)
    requires Run(ks) && |wanted| == |picks| && forall j :: 0 <= j < |picks| ==> picks[j] < |ks|
    ensures |answers| == |picks| && AllAnswered(ks, picks, wanted, answers)
  {
    var cache := new RefCache();
    var prior: SearchFold? := null;
    ghost var seenAt: nat, priorAt: nat := 0, 0;  // the logs of the run they stand for
    answers := [];
    for j := 0 to |picks|
      invariant |answers| == j && seenAt < |ks| && priorAt < |ks|
      invariant fresh(cache) && cache.Valid() && cache.seen == ks[seenAt].log
      invariant prior != null ==> fresh(prior) && prior.Valid() && prior.events == ks[priorAt].log
      invariant AllAnswered(ks, picks, wanted, answers)
    {
      var log := ks[picks[j]].log;
      var fold, answer := BuildAndForce(ks, seenAt, priorAt, picks[j], log, cache, prior, wanted[j]);
      OneMoreAnswer(ks, picks, wanted, answers, answer);
      answers := answers + [answer];
      seenAt := picks[j];
      if prior == null || |fold.events| >= |prior.events| {
        prior, priorAt := fold, picks[j];
      }
    }
  }

  ghost predicate AnswersRebuild(log: Log, wanted: bool, answer: Answer) {
    && (answer.Some? <==> wanted)
    && (wanted && CellsPrecedeEdges(log) ==> Answers(Rebuild(log), answer.value.0, answer.value.1))
  }

  /** Each answer so far is that of a rebuild over the log it was asked for. */
  ghost predicate AllAnswered(ks: seq<Kernel>, picks: seq<nat>, wanted: seq<Wanted>, answers: seq<Answer>) {
    |answers| <= |picks| == |wanted|
    && forall j :: 0 <= j < |answers| ==>
         picks[j] < |ks| && AnswersRebuild(ks[picks[j]].log, wanted[j].matrix, answers[j])
  }

  lemma OneMoreAnswer(ks: seq<Kernel>, picks: seq<nat>, wanted: seq<Wanted>, answers: seq<Answer>, answer: Answer)
    requires AllAnswered(ks, picks, wanted, answers) && |answers| < |picks| && picks[|answers|] < |ks|
    requires AnswersRebuild(ks[picks[|answers|]].log, wanted[|answers|].matrix, answer)
    ensures AllAnswered(ks, picks, wanted, answers + [answer])
  {
  }
}
