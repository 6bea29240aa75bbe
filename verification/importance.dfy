/** Importance updates and their rollback over assert/invalidate history, against the
    in-memory store that keeps a plain map. An importance is the text of its float. */
module Importance {
  import opened EventLog
  import opened Batches
  import opened Filed
  import Facts

  /** The before/after of one update; `prior` is None when there was no value before. */
  datatype Delta = Delta(subject: Ref, value: Bytes, prior: Option<Bytes>)

  datatype Record = Record(
    interactionId: string,
    provenance: string,
    sourceOutcome: string,
    delta: Delta,
    confidence: real,
    atomic: bool,
    applied: bool)

  datatype Result =
    | Recorded(record: Record)
    | CommitFailed
    | ContractViolated

  function Clamp(confidence: real): real {
    if confidence < 0.0 then 0.0 else if confidence > 1.0 then 1.0 else confidence
  }

  function Apart(a: real, b: real): real {
    if a < b then b - a else a - b
  }

  /** `new_mutation(...).mark_applied()`: the confidence kept is the nearest in the unit
      interval; None is its ValueError. */
  function NewMutation(id: string, provenance: string, sourceOutcome: string, delta: Delta, confidence: real,
                       atomic: bool): (r: Option<Record>)
    ensures r.Some? <==> provenance != "" && sourceOutcome != ""
    ensures r.Some? ==> 0.0 <= r.value.confidence <= 1.0 && r.value.applied
    ensures r.Some? && 0.0 <= confidence <= 1.0 ==> r.value.confidence == confidence
    ensures r.Some? ==>
              forall c: real :: 0.0 <= c <= 1.0 ==> Apart(r.value.confidence, confidence) <= Apart(c, confidence)
    ensures r.Some? ==>
              && r.value.interactionId == id && r.value.provenance == provenance
              && r.value.sourceOutcome == sourceOutcome && r.value.delta == delta && r.value.atomic == atomic
  {
    if provenance == "" || sourceOutcome == "" then None
    else Some(Record(id, provenance, sourceOutcome, delta, Clamp(confidence), atomic, true))
  }

  // ---------------------------------------------------------------------------
  // The events an update and a rollback append
  // ---------------------------------------------------------------------------

  function ImportanceFact(subject: Ref, value: Bytes): Facts.Fact {
    Facts.Fact(subject, HAS_IMPORTANCE, Hash(value, []))
  }

  function UpdateEvents(d: Delta): seq<Event> {
    if d.prior.None? then
      [CellWrite(d.value, []), Facts.Assertion(ImportanceFact(d.subject, d.value))]
    else
      [CellWrite(d.value, []), CellWrite(d.prior.value, []),
       Facts.Invalidation(ImportanceFact(d.subject, d.prior.value)),
       Facts.Assertion(ImportanceFact(d.subject, d.value))]
  }

  function RollbackEvents(d: Delta): seq<Event> {
    var undo := [CellWrite(d.value, []), Facts.Invalidation(ImportanceFact(d.subject, d.value))];
    if d.prior.None? then undo
    else undo + [CellWrite(d.prior.value, []), Facts.Assertion(ImportanceFact(d.subject, d.prior.value))]
  }

  /** Where the drawer's cell is in the log, every edge of an update and of its rollback leads
      to a value written ahead of it: each value a fact of importance names can be read. */
  lemma ChangesAnchored(d: Delta, written: seq<Event>)
    requires CellOf(d.subject) in written
    ensures Anchored(written, UpdateEvents(d)) && Anchored(written, RollbackEvents(d))
  {
    var new_ := CellWrite(d.value, []);
    if d.prior.None? {
      CellThenEdge(written, d.value, Facts.Assertion(ImportanceFact(d.subject, d.value)));
      CellThenEdge(written, d.value, Facts.Invalidation(ImportanceFact(d.subject, d.value)));
    } else {
      var prior := CellWrite(d.prior.value, []);
      var retract := Facts.Invalidation(ImportanceFact(d.subject, d.prior.value));
      var state := Facts.Assertion(ImportanceFact(d.subject, d.value));
      CellThenEdge(written + [new_], d.prior.value, retract);
      EdgeAnchored(written + [new_] + [prior, retract], state);
      AnchoredJoined(written + [new_], [prior, retract], [state]);
      assert [new_, prior, retract, state][1..] == [prior, retract] + [state];
      var undo := [new_, Facts.Invalidation(ImportanceFact(d.subject, d.value))];
      CellThenEdge(written, d.value, undo[1]);
      CellThenEdge(written + undo, d.prior.value, Facts.Assertion(ImportanceFact(d.subject, d.prior.value)));
      AnchoredJoined(written, undo, [prior, Facts.Assertion(ImportanceFact(d.subject, d.prior.value))]);
    }
  }

  lemma EdgeAnchored(written: seq<Event>, edge: Event)
    requires edge.Relationship? && CellOf(edge.from) in written && CellOf(edge.to) in written
    ensures Anchored(written, [edge])
  {
    assert Anchored(written + [edge], [edge][1..]);
  }

  function PriorFact(d: Delta): set<Facts.Fact> {
    if d.prior.Some? then {ImportanceFact(d.subject, d.prior.value)} else {}
  }

  function NewFact(d: Delta): Facts.Fact {
    ImportanceFact(d.subject, d.value)
  }

  // ---------------------------------------------------------------------------
  // The native store
  // ---------------------------------------------------------------------------

  datatype Path = Direct | Gateway | Sequential

  class NativeMemory {
    const store: Store
    var mutations: seq<Record>
    var rolledBack: seq<string>

    constructor (store: Store)
      ensures this.store == store && mutations == [] && rolledBack == []
    {
      this.store := store;
      mutations, rolledBack := [], [];
    }

    /** One batch where the backend offers it, else four separate appends. The contract on
        the record is checked only after the write: a violation raises, and the write stays. */
    method UpdateImportance(path: Path, d: Delta, id: string, provenance: string, sourceOutcome: string,
                            confidence: real, fails: bool) returns (result: Result)
      modifies this, store
      ensures rolledBack == old(rolledBack)
      ensures result.CommitFailed? <==> fails && !path.Sequential?
      ensures store.State() == if result.CommitFailed? then old(store.State())
                               else Appended(old(store.State()), UpdateEvents(d))
      ensures result.ContractViolated? <==> !result.CommitFailed? && (provenance == "" || sourceOutcome == "")
      ensures result.Recorded? ==>
                && NewMutation(id, provenance, sourceOutcome, d, confidence, !path.Sequential?) == Some(result.record)
                && mutations == old(mutations) + [result.record]
      ensures !result.Recorded? ==> mutations == old(mutations)
    {
      var committed := true;
      match path {
        case Direct => committed := UpdateDirect(store, d, fails);
        case Gateway => committed := UpdateGateway(store, d, fails);
        case Sequential => UpdateSequential(store, d, |UpdateEvents(d)|);
      }
      if !committed {
        return CommitFailed;
      }
      var record := NewMutation(id, provenance, sourceOutcome, d, confidence, !path.Sequential?);
      if record.None? {
        return ContractViolated;
      }
      mutations := mutations + [record.value];
      result := Recorded(record.value);
    }

    /** Four separate appends on every backend, cut off after `left` of them by a crash: the
        rollback counts as done only when all are in the log. */
    method Rollback(record: Record, left: nat)
      modifies this, store
      ensures mutations == old(mutations)
      ensures rolledBack == if left < |RollbackEvents(record.delta)| then old(rolledBack)
                            else old(rolledBack) + [record.interactionId]
      ensures store.State() == Appended(old(store.State()), Cut(RollbackEvents(record.delta), left))
    {
      var done := AppendRollback(store, record.delta, left);
      if done {
        rolledBack := rolledBack + [record.interactionId];
      }
    }
  }

  method AppendRollback(store: Store, d: Delta, left: nat) returns (done: bool)
    modifies store
    ensures done == (left >= |RollbackEvents(d)|)
    ensures store.State() == Appended(old(store.State()), Cut(RollbackEvents(d), left))
  {
    ghost var start := store.State();
    var rest := AppendPair(store, d.subject, d.value, Facts.INVALIDATE_PREFIX + HAS_IMPORTANCE, left);
    ghost var undo := PairEvents(d.subject, d.value, Facts.INVALIDATE_PREFIX + HAS_IMPORTANCE);
    done := left >= 2;
    if d.prior.Some? {
      var _ := AppendPair(store, d.subject, d.prior.value, HAS_IMPORTANCE, rest);
      CutJoined(start, undo, PairEvents(d.subject, d.prior.value, HAS_IMPORTANCE), left);
      done := left >= 4;
    }
    assert RollbackEvents(d) == undo + FactEvents(d.subject, HAS_IMPORTANCE, d.prior);
  }

  method UpdateDirect(store: Store, d: Delta, fails: bool) returns (ok: bool)
    modifies store
    ensures ok == !fails
    ensures store.State() == if ok then Appended(old(store.State()), UpdateEvents(d)) else old(store.State())
  {
    var b := new DirectBatch();
    var value := b.WriteCell(d.value, []);
    if d.prior.Some? {
      var prior := b.WriteCell(d.prior.value, []);
      b.Relate(d.subject, prior, Facts.INVALIDATE_PREFIX + HAS_IMPORTANCE);
    }
    b.Relate(d.subject, value, HAS_IMPORTANCE);
    assert b.staged == UpdateEvents(d);
    ok := store.AppendBatch(b.staged, fails);
  }

  method UpdateGateway(store: Store, d: Delta, fails: bool) returns (ok: bool)
    modifies store
    ensures ok == !fails
    ensures store.State() == if ok then Appended(old(store.State()), UpdateEvents(d)) else old(store.State())
  {
    var b := StageUpdate(d);
    var refs := b.Commit(store, fails);
    ok := refs.Some?;
  }

  method StageUpdate(d: Delta) returns (b: GatewayBatch)
    ensures fresh(b) && b.Valid() && b.ops != [] && b.meaning == UpdateEvents(d)
  {
    b := new GatewayBatch();
    var value := b.WriteCell(d.value, []);
    StageInvalidation(b, d);
    b.AssertFact(Real(d.subject), HAS_IMPORTANCE, value);
    assert b.meaning == UpdateEvents(d);
  }

  method StageInvalidation(b: GatewayBatch, d: Delta)
    requires b.Valid()
    modifies b
    ensures b.Valid() && old(b.issued) <= b.issued && |b.ops| >= old(|b.ops|)
    ensures b.meaning == old(b.meaning) + if d.prior.None? then [] else
              [CellWrite(d.prior.value, []), Facts.Invalidation(ImportanceFact(d.subject, d.prior.value))]
  {
    if d.prior.Some? {
      ghost var s := b.meaning;
      var prior := b.WriteCell(d.prior.value, []);
      b.Relate(Real(d.subject), prior, Facts.INVALIDATE_PREFIX + HAS_IMPORTANCE);
      JoinPair(s, CellWrite(d.prior.value, []), Facts.Invalidation(ImportanceFact(d.subject, d.prior.value)));
    }
  }

  /** The degraded path, cut off after `steps` appends by a crash. */
  method UpdateSequential(store: Store, d: Delta, steps: nat)
    requires steps <= |UpdateEvents(d)|
    modifies store
    ensures store.State() == Appended(old(store.State()), UpdateEvents(d)[..steps])
    ensures steps == |UpdateEvents(d)| ==> store.State() == Appended(old(store.State()), UpdateEvents(d))
  {
    ghost var start, events := store.State(), UpdateEvents(d);
    assert events[..|events|] == events;
    if steps == 0 {
      return;
    }
    var value := store.WriteCell(d.value);
    assert events[..1] == [events[0]];
    if steps == 1 {
      return;
    }
    if d.prior.Some? {
      var prior := store.WriteCell(d.prior.value);
      OneMore(start, events, 1);
      if steps == 2 {
        return;
      }
      store.Append(Relationship(d.subject, prior, Facts.INVALIDATE_PREFIX + HAS_IMPORTANCE));
      OneMore(start, events, 2);
      if steps == 3 {
        return;
      }
    }
    store.Append(Relationship(d.subject, value, HAS_IMPORTANCE));
    OneMore(start, events, |events| - 1);
  }

  lemma OneMore(start: Kernel, events: seq<Event>, i: nat)
    requires i < |events|
    ensures Appended(start, events[..i + 1]) == Appended(Appended(start, events[..i]), [events[i]])
  {
    AppendedAppended(start, events[..i], [events[i]]);
    assert events[..i] + [events[i]] == events[..i + 1];
  }

  // ---------------------------------------------------------------------------
  // The in-memory store: a plain map
  // ---------------------------------------------------------------------------

  type Values = map<Ref, Bytes>

  function Updated(m: Values, d: Delta): Values {
    m[d.subject := d.value]
  }

  function Restored(m: Values, d: Delta): Values {
    if d.prior.None? then m - {d.subject} else m[d.subject := d.prior.value]
  }

  class RecordingMemory {
    var importance: Values
    var mutations: seq<Record>
    var rolledBack: seq<string>

    constructor ()
      ensures importance == map[] && mutations == [] && rolledBack == []
    {
      importance, mutations, rolledBack := map[], [], [];
    }

    /** Here the contract is checked first, so a violation changes nothing. */
    method UpdateImportance(d: Delta, id: string, provenance: string, sourceOutcome: string, confidence: real)
      returns (result: Result)
      modifies this
      ensures rolledBack == old(rolledBack)
      ensures result.Recorded? <==> provenance != "" && sourceOutcome != ""
      ensures importance == if result.Recorded? then Updated(old(importance), d) else old(importance)
      ensures result.Recorded? ==>
                && NewMutation(id, provenance, sourceOutcome, d, confidence, true) == Some(result.record)
                && mutations == old(mutations) + [result.record]
      ensures !result.Recorded? ==> mutations == old(mutations) && result == ContractViolated
    {
      var record := NewMutation(id, provenance, sourceOutcome, d, confidence, true);
      if record.None? {
        return ContractViolated;
      }
      importance := importance[d.subject := d.value];
      mutations := mutations + [record.value];
      result := Recorded(record.value);
    }

    method Rollback(record: Record)
      modifies this
      ensures mutations == old(mutations) && rolledBack == old(rolledBack) + [record.interactionId]
      ensures importance == Restored(old(importance), record.delta)
    {
      var d := record.delta;
      if d.prior.None? {
        importance := importance - {d.subject};
      } else {
        importance := importance[d.subject := d.prior.value];
      }
      rolledBack := rolledBack + [record.interactionId];
    }
  }

  // ---------------------------------------------------------------------------
  // Refinement, one call
  // ---------------------------------------------------------------------------

  function OtherFacts(facts: set<Facts.Fact>): set<Facts.Fact> {
    set f | f in facts && f.predicate_ != HAS_IMPORTANCE
  }

  /** The valid importance facts are exactly the entries of the map. */
  ghost predicate Agrees(facts: set<Facts.Fact>, m: Values) {
    forall s: Ref, o: Ref :: Facts.Fact(s, HAS_IMPORTANCE, o) in facts <==> s in m && o == Hash(m[s], [])
  }

  function Current(m: Values, subject: Ref): Option<Bytes> {
    if subject in m then Some(m[subject]) else None
  }

  lemma UpdateFacts(facts: set<Facts.Fact>, d: Delta)
    ensures ApplyAll(facts, UpdateEvents(d)) == facts - PriorFact(d) + {NewFact(d)}
  {
    NamesAreAsserting();
    Facts.AboutRoundTrip(NewFact(d));
    var events := UpdateEvents(d);
    if d.prior.Some? {
      Facts.AboutRoundTrip(ImportanceFact(d.subject, d.prior.value));
      ApplyFour(facts, events);
    } else {
      ApplyTwo(facts, events);
    }
  }

  lemma RollbackFacts(facts: set<Facts.Fact>, d: Delta)
    ensures ApplyAll(facts, RollbackEvents(d)) == facts - {NewFact(d)} + PriorFact(d)
  {
    NamesAreAsserting();
    Facts.AboutRoundTrip(NewFact(d));
    var events := RollbackEvents(d);
    if d.prior.Some? {
      Facts.AboutRoundTrip(ImportanceFact(d.subject, d.prior.value));
      ApplyFour(facts, events);
    } else {
      ApplyTwo(facts, events);
    }
  }

  lemma ApplyTwo(facts: set<Facts.Fact>, events: seq<Event>)
    requires |events| == 2
    ensures ApplyAll(facts, events) == Facts.Apply(Facts.Apply(facts, events[0]), events[1])
  {
    assert events[..1][..0] == [] && events[..1][0] == events[0];
    assert ApplyAll(facts, events[..1]) == Facts.Apply(facts, events[0]);
  }

  lemma ApplyFour(facts: set<Facts.Fact>, events: seq<Event>)
    requires |events| == 4
    ensures ApplyAll(facts, events) ==
            Facts.Apply(Facts.Apply(Facts.Apply(Facts.Apply(facts, events[0]), events[1]), events[2]), events[3])
  {
    ApplyAllJoined(facts, events[..2], events[2..]);
    assert events[..2] + events[2..] == events;
    ApplyTwo(facts, events[..2]);
    ApplyTwo(ApplyAll(facts, events[..2]), events[2..]);
  }

  /** An update never touches a fact of another predicate or of another subject. The log
      then agrees with the updated map exactly when the caller's old value was current,
      unless there was no other value to replace. */
  lemma UpdateRefinesExactly(facts: set<Facts.Fact>, m: Values, d: Delta)
    requires Agrees(facts, m)
    ensures var after := ApplyAll(facts, UpdateEvents(d));
            && OtherFacts(after) == OtherFacts(facts)
            && (Agrees(after, Updated(m, d)) <==>
                (d.subject in m && m[d.subject] != d.value ==> d.prior == Some(m[d.subject])))
  {
    UpdateFacts(facts, d);
    var after := ApplyAll(facts, UpdateEvents(d));
    if d.subject in m && m[d.subject] != d.value && d.prior != Some(m[d.subject]) {
      var stale := ImportanceFact(d.subject, m[d.subject]);
      assert stale in facts && stale in after;
      assert Updated(m, d)[d.subject] != m[d.subject];
    } else {
      forall s: Ref, o: Ref
        ensures Facts.Fact(s, HAS_IMPORTANCE, o) in after <==> s in Updated(m, d) && o == Hash(Updated(m, d)[s], [])
      {
        assert Facts.Fact(s, HAS_IMPORTANCE, o) in facts <==> s in m && o == Hash(m[s], []);
      }
    }
  }

  /** A rollback agrees with the map's exactly when the value it takes away is still the
      current one, or the value it puts back already is. */
  lemma RollbackRefinesExactly(facts: set<Facts.Fact>, m: Values, d: Delta)
    requires Agrees(facts, m)
    ensures var after := ApplyAll(facts, RollbackEvents(d));
            && OtherFacts(after) == OtherFacts(facts)
            && (Agrees(after, Restored(m, d)) <==>
                (d.subject in m ==> m[d.subject] == d.value || d.prior == Some(m[d.subject])))
  {
    RollbackFacts(facts, d);
    var after := ApplyAll(facts, RollbackEvents(d));
    if d.subject in m && m[d.subject] != d.value && d.prior != Some(m[d.subject]) {
      var stale := ImportanceFact(d.subject, m[d.subject]);
      assert stale in facts && stale in after;
    } else {
      forall s: Ref, o: Ref
        ensures Facts.Fact(s, HAS_IMPORTANCE, o) in after <==> s in Restored(m, d) && o == Hash(Restored(m, d)[s], [])
      {
        assert Facts.Fact(s, HAS_IMPORTANCE, o) in facts <==> s in m && o == Hash(m[s], []);
      }
    }
  }

  /** On any fact set, rolling an update back restores it exactly when the old value given
      was valid and the new one was not, or was that same value. */
  lemma UndoExact(facts: set<Facts.Fact>, d: Delta)
    ensures ApplyAll(ApplyAll(facts, UpdateEvents(d)), RollbackEvents(d)) == facts <==>
            PriorFact(d) <= facts && (NewFact(d) in facts ==> NewFact(d) in PriorFact(d))
  {
    UpdateFacts(facts, d);
    RollbackFacts(ApplyAll(facts, UpdateEvents(d)), d);
    var back := ApplyAll(ApplyAll(facts, UpdateEvents(d)), RollbackEvents(d));
    assert back == facts - PriorFact(d) - {NewFact(d)} + PriorFact(d);
    if d.prior.Some? {
      var f := ImportanceFact(d.subject, d.prior.value);
      assert f in back && PriorFact(d) == {f};
    }
  }

  /** A crash anywhere inside the degraded path leaves a state from which the rollback
      restores everything, under the same condition as for the whole update. */
  lemma CrashRecoverable(facts: set<Facts.Fact>, d: Delta, steps: nat)
    requires steps <= |UpdateEvents(d)|
    requires PriorFact(d) <= facts && (NewFact(d) in facts ==> NewFact(d) in PriorFact(d))
    ensures ApplyAll(ApplyAll(facts, UpdateEvents(d)[..steps]), RollbackEvents(d)) == facts
  {
    var half := ApplyAll(facts, UpdateEvents(d)[..steps]);
    CrashStates(facts, d, steps);
    RollbackFacts(half, d);
    if d.prior.Some? {
      assert PriorFact(d) == {ImportanceFact(d.subject, d.prior.value)};
    }
  }

  /** What such a crash can leave: the facts untouched, the old value gone with nothing in
      its place, or the whole update. */
  lemma CrashStates(facts: set<Facts.Fact>, d: Delta, steps: nat)
    requires steps <= |UpdateEvents(d)|
    ensures ApplyAll(facts, UpdateEvents(d)[..steps]) ==
            if steps == |UpdateEvents(d)| then facts - PriorFact(d) + {NewFact(d)}
            else if steps == 3 then facts - PriorFact(d)
            else facts
  {
    var events := UpdateEvents(d);
    if steps == |events| {
      assert events[..steps] == events;
      UpdateFacts(facts, d);
    } else if steps > 0 {
      NamesAreAsserting();
      assert events[..steps][..steps - 1] == events[..steps - 1];
      CrashStates(facts, d, steps - 1);
      if steps == 3 {
        Facts.AboutRoundTrip(ImportanceFact(d.subject, d.prior.value));
      }
    }
  }

  /** A rollback is itself cut off by a crash as a prefix of its appends: the facts untouched,
      the new value gone with nothing in its place, or the whole rollback. */
  lemma RollbackCrashStates(facts: set<Facts.Fact>, d: Delta, left: nat)
    ensures ApplyAll(facts, Cut(RollbackEvents(d), left)) ==
            if left >= |RollbackEvents(d)| then facts - {NewFact(d)} + PriorFact(d)
            else if left >= 2 then facts - {NewFact(d)}
            else facts
  {
    var events := RollbackEvents(d);
    if left >= |events| {
      RollbackFacts(facts, d);
    } else if left > 0 {
      NamesAreAsserting();
      Facts.AboutRoundTrip(NewFact(d));
      assert events[..left][..left - 1] == events[..left - 1] && events[..left][left - 1] == events[left - 1];
      RollbackCrashStates(facts, d, left - 1);
    }
  }

  /** And from each of these a rollback carried out again gives the facts of one whole
      rollback, on any fact set. */
  lemma RollbackRepeatable(facts: set<Facts.Fact>, d: Delta, left: nat)
    ensures ApplyAll(ApplyAll(facts, Cut(RollbackEvents(d), left)), RollbackEvents(d)) ==
            ApplyAll(facts, RollbackEvents(d))
  {
    var half := ApplyAll(facts, Cut(RollbackEvents(d), left));
    RollbackCrashStates(facts, d, left);
    RollbackFacts(half, d);
    RollbackFacts(facts, d);
  }

  /** The two stores part ways on a record without provenance or outcome: the map is left
      alone, the log already holds the update. They still agree only if it changed nothing. */
  lemma ViolationKeepsWrite(facts: set<Facts.Fact>, m: Values, d: Delta)
    requires Agrees(facts, m) && d.prior == Current(m, d.subject)
    ensures Agrees(ApplyAll(facts, UpdateEvents(d)), m) <==> d.prior == Some(d.value)
  {
    UpdateRefinesExactly(facts, m, d);
    UpdateFacts(facts, d);
    var after := ApplyAll(facts, UpdateEvents(d));
    assert NewFact(d) in after;
    if d.prior == Some(d.value) {
      assert Updated(m, d) == m;
    }
  }

  /** `ReversibleDelta.inverse`. */
  function Inverse(d: Delta): Delta {
    if d.prior.Some? then Delta(d.subject, d.prior.value, None) else Delta(d.subject, d.value, Some(d.value))
  }

  /** The inverse is no undo: carried out as an update it restores the facts exactly when
      the update it inverts had changed nothing; and it inverts back only where there was
      no prior value, or the same one. */
  lemma InverseUndoesOnlyNoChange(facts: set<Facts.Fact>, d: Delta)
    requires PriorFact(d) <= facts
    ensures ApplyAll(ApplyAll(facts, UpdateEvents(d)), UpdateEvents(Inverse(d))) == facts <==> NewFact(d) in facts
    ensures Inverse(Inverse(d)) == d <==> d.prior.None? || d.prior == Some(d.value)
  {
    UpdateFacts(facts, d);
    UpdateFacts(ApplyAll(facts, UpdateEvents(d)), Inverse(d));
    var back := ApplyAll(ApplyAll(facts, UpdateEvents(d)), UpdateEvents(Inverse(d)));
    if d.prior.Some? {
      assert PriorFact(d) == {ImportanceFact(d.subject, d.prior.value)};
    }
    assert back == facts + {NewFact(d)};
  }

  // ---------------------------------------------------------------------------
  // Whole runs: updates with the current value, undone last in, first out
  // ---------------------------------------------------------------------------

  datatype Action = Update(subject: Ref, value: Bytes) | UndoLast

  datatype World = World(k: Kernel, recorded: Values, stack: seq<Delta>)

  function Act(w: World, a: Action): World {
    match a
    case Update(subject, value) =>
      var d := Delta(subject, value, Current(w.recorded, subject));
      World(Appended(w.k, UpdateEvents(d)), Updated(w.recorded, d), w.stack + [d])
    case UndoLast =>
      if w.stack == [] then w
      else
        var d := w.stack[|w.stack| - 1];
        World(Appended(w.k, RollbackEvents(d)), Restored(w.recorded, d), w.stack[..|w.stack| - 1])
  }

  function Acted(w: World, actions: seq<Action>): World {
    if actions == [] then w else Act(Acted(w, actions[..|actions| - 1]), actions[|actions| - 1])
  }

  /** The map after rolling back everything on the stack, newest first. */
  function Unwound(m: Values, stack: seq<Delta>): Values
    decreases |stack|
  {
    if stack == [] then m else Unwound(Restored(m, stack[|stack| - 1]), stack[..|stack| - 1])
  }

  /** The newest delta still on the stack is what the map shows now, all the way down. */
  ghost predicate StackFits(m: Values, stack: seq<Delta>)
    decreases |stack|
  {
    stack == [] ||
    var d := stack[|stack| - 1];
    Current(m, d.subject) == Some(d.value) && StackFits(Restored(m, d), stack[..|stack| - 1])
  }

  lemma RestoredUpdated(m: Values, d: Delta)
    requires d.prior == Current(m, d.subject)
    ensures Restored(Updated(m, d), d) == m
  {
  }

  lemma PushFits(m: Values, stack: seq<Delta>, d: Delta)
    requires d.prior == Current(m, d.subject) && StackFits(m, stack)
    ensures StackFits(Updated(m, d), stack + [d])
    ensures Unwound(Updated(m, d), stack + [d]) == Unwound(m, stack)
  {
    RestoredUpdated(m, d);
    assert (stack + [d])[..|stack|] == stack;
  }

  /** Along any run of updates and undos the native log shows exactly the map, every other
      fact is the one the run started with, and the deltas still pending lead back to the
      map it started with. */
  lemma {:induction false} RunRefinesMap(w: World, actions: seq<Action>)
    requires w.stack == [] && Agrees(Facts.Valid(w.k.log), w.recorded)
    ensures var now := Acted(w, actions);
            && Agrees(Facts.Valid(now.k.log), now.recorded)
            && OtherFacts(Facts.Valid(now.k.log)) == OtherFacts(Facts.Valid(w.k.log))
            && StackFits(now.recorded, now.stack)
            && Unwound(now.recorded, now.stack) == w.recorded
  {
    if actions != [] {
      var before := Acted(w, actions[..|actions| - 1]);
      RunRefinesMap(w, actions[..|actions| - 1]);
      var facts := Facts.Valid(before.k.log);
      match actions[|actions| - 1]
      case Update(subject, value) =>
        var d := Delta(subject, value, Current(before.recorded, subject));
        ValidAppended(before.k, UpdateEvents(d));
        UpdateRefinesExactly(facts, before.recorded, d);
        PushFits(before.recorded, before.stack, d);
      case UndoLast =>
        if before.stack != [] {
          var d := before.stack[|before.stack| - 1];
          ValidAppended(before.k, RollbackEvents(d));
          RollbackRefinesExactly(facts, before.recorded, d);
        }
    }
  }

  lemma SameFacts(a: set<Facts.Fact>, b: set<Facts.Fact>, m: Values)
    requires Agrees(a, m) && Agrees(b, m) && OtherFacts(a) == OtherFacts(b)
    ensures a == b
  {
    forall f: Facts.Fact
      ensures f in a <==> f in b
    {
      if f.predicate_ == HAS_IMPORTANCE {
        assert f == Facts.Fact(f.subject, HAS_IMPORTANCE, f.object_);
      } else {
        assert f in a <==> f in OtherFacts(a);
        assert f in b <==> f in OtherFacts(b);
      }
    }
  }

  /** What one more update does after any run, and what undoing it then gives back: the facts,
      the map and the pending deltas as they were, in a log that has only grown. */
  lemma UndoTakesBackLast(w: World, actions: seq<Action>, subject: Ref, value: Bytes)
    requires w.stack == [] && Agrees(Facts.Valid(w.k.log), w.recorded)
    ensures var now := Acted(w, actions);
            var next := Acted(w, actions + [Update(subject, value)]);
            var back := Acted(w, actions + [Update(subject, value)] + [UndoLast]);
            && next.recorded == now.recorded[subject := value] && |next.stack| == |now.stack| + 1
            && ImportanceFact(subject, value) in Facts.Valid(next.k.log)
            && back.recorded == now.recorded && back.stack == now.stack
            && Facts.Valid(back.k.log) == Facts.Valid(now.k.log)
            && now.k.log < next.k.log < back.k.log
  {
    var one := actions + [Update(subject, value)];
    var two := one + [UndoLast];
    assert one[..|one| - 1] == actions && two[..|two| - 1] == one;
    var now := Acted(w, actions);
    var d := Delta(subject, value, Current(now.recorded, subject));
    RunRefinesMap(w, actions);
    RunRefinesMap(w, one);
    RunRefinesMap(w, two);
    RestoredUpdated(now.recorded, d);
    assert Current(Acted(w, one).recorded, subject) == Some(value);
    assert (now.stack + [d])[..|now.stack|] == now.stack;
    SameFacts(Facts.Valid(now.k.log), Facts.Valid(Acted(w, two).k.log), now.recorded);
    AppendedGrows(now.k, UpdateEvents(d));
    AppendedGrows(Acted(w, one).k, RollbackEvents(d));
  }

  lemma {:induction false} AppendedGrows(k: Kernel, events: seq<Event>)
    ensures k.log <= Appended(k, events).log && |Appended(k, events).log| == |k.log| + |events|
  {
    if events != [] {
      AppendedGrows(k, events[..|events| - 1]);
    }
  }

  /** Undoing a whole chain, however it was interleaved, restores the original facts. */
  lemma UndoingAllRestores(w: World, actions: seq<Action>)
    requires w.stack == [] && Agrees(Facts.Valid(w.k.log), w.recorded)
    requires Acted(w, actions).stack == []
    ensures Facts.Valid(Acted(w, actions).k.log) == Facts.Valid(w.k.log)
  {
    RunRefinesMap(w, actions);
    SameFacts(Facts.Valid(w.k.log), Facts.Valid(Acted(w, actions).k.log), w.recorded);
  }
}
