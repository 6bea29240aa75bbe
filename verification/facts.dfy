/** Fact validity over the log: for one subject, predicate and object, the last assertion
    or invalidation wins. */
module Facts {
  import opened EventLog

  const INVALIDATE_PREFIX := "__invalidate__:"

  datatype Fact = Fact(subject: Ref, predicate_: string, object_: Ref)

  function Assertion(f: Fact): Event {
    Relationship(f.subject, f.object_, f.predicate_)
  }

  function Invalidation(f: Fact): Event {
    Relationship(f.subject, f.object_, INVALIDATE_PREFIX + f.predicate_)
  }

  predicate Invalidates(ev: Event) {
    ev.Relationship? && INVALIDATE_PREFIX <= ev.rel
  }

  /** The fact an edge speaks about, valid or not. */
  function About(ev: Event): Fact
    requires ev.Relationship?
  {
    Fact(ev.from, if Invalidates(ev) then ev.rel[|INVALIDATE_PREFIX|..] else ev.rel, ev.to)
  }

  function Apply(facts: set<Fact>, ev: Event): set<Fact> {
    if !ev.Relationship? then facts
    else if Invalidates(ev) then facts - {About(ev)}
    else facts + {About(ev)}
  }

  /** The lens, as a fold over the log. */
  function Valid(log: Log): set<Fact> {
    if log == [] then {} else Apply(Valid(log[..|log| - 1]), log[|log| - 1].ev)
  }

  ghost predicate SpeaksOf(ev: Event, f: Fact) {
    ev.Relationship? && About(ev) == f
  }

  /** A fact is valid exactly when some event speaks of it and the last one that does is
      an assertion. */
  lemma {:induction false} LastWins(log: Log, f: Fact)
    ensures f in Valid(log) <==>
            exists i :: && 0 <= i < |log| && SpeaksOf(log[i].ev, f) && !Invalidates(log[i].ev)
                        && forall j :: i < j < |log| ==> !SpeaksOf(log[j].ev, f)
  {
    if log != [] {
      var front, last := log[..|log| - 1], log[|log| - 1];
      LastWins(front, f);
      if SpeaksOf(last.ev, f) {
        assert f in Valid(log) <==> !Invalidates(last.ev);
      } else {
        assert f in Valid(log) <==> f in Valid(front);
        if i :| 0 <= i < |front| && SpeaksOf(front[i].ev, f) && !Invalidates(front[i].ev)
                && forall j :: i < j < |front| ==> !SpeaksOf(front[j].ev, f) {
          assert log[i] == front[i];
          assert forall j :: i < j < |log| ==> !SpeaksOf(log[j].ev, f);
        }
        if i :| 0 <= i < |log| && SpeaksOf(log[i].ev, f) && !Invalidates(log[i].ev)
                && forall j :: i < j < |log| ==> !SpeaksOf(log[j].ev, f) {
          assert log[i] == front[i];
          assert forall j :: i < j < |front| ==> front[j] == log[j];
        }
      }
    }
  }

  lemma ValidSnoc(log: Log, e: Entry)
    ensures Valid(log + [e]) == Apply(Valid(log), e.ev)
  {
    assert (log + [e])[..|log|] == log;
  }

  lemma AboutRoundTrip(f: Fact)
    requires !(INVALIDATE_PREFIX <= f.predicate_)
    ensures About(Assertion(f)) == f && !Invalidates(Assertion(f))
    ensures About(Invalidation(f)) == f && Invalidates(Invalidation(f))
  {
    assert (INVALIDATE_PREFIX + f.predicate_)[|INVALIDATE_PREFIX|..] == f.predicate_;
  }

  /** Asserting after invalidating brings a fact back, invalidating removes it, and
      neither touches any other fact. */
  lemma AssertInvalidateEffect(log: Log, f: Fact, pos: nat)
    requires !(INVALIDATE_PREFIX <= f.predicate_)
    ensures Valid(log + [Entry(pos, Assertion(f))]) == Valid(log) + {f}
    ensures Valid(log + [Entry(pos, Invalidation(f))]) == Valid(log) - {f}
  {
    AboutRoundTrip(f);
    ValidSnoc(log, Entry(pos, Assertion(f)));
    ValidSnoc(log, Entry(pos, Invalidation(f)));
  }
}
