/** `remember` calls and sweeps running side by side on any number of threads, with
    exceptions at every step and crashes of the whole daemon. */
module SweepRaces {
  import opened EventLog
  import opened SearchFolds
  import opened Batches
  import opened Filed
  import opened Sweep
  import Facts

  datatype Pc =
    | Idle
    | Waiting(d: Drawer)   // vector computed or given up on, outside the lock
    | Filed(d: Drawer)     // lock held, drawer filed, marker still to come
    | Sweeping(pending: seq<Facts.Fact>, outcomes: seq<Outcome>)
    | Holding(pending: seq<Facts.Fact>, outcomes: seq<Outcome>, vector: seq<Float>)
    | Added(pending: seq<Facts.Fact>, outcomes: seq<Outcome>, vector: seq<Float>)

  /** How a drawer of a sweep fared: the vector computed for it, or None for a failure. */
  type Outcome = Option<seq<Float>>

  datatype State = State(k: Kernel, holder: Option<nat>, pcs: seq<Pc>)

  datatype Action =
    | Remember(d: Drawer)
    | File
    | FileFails
    | Mark
    | MarkFails
    | StartSweep(pending: seq<Facts.Fact>)
    | Take(vector: seq<Float>)
    | Add
    | Unmark
    | GiveUp
    | EndSweep

  datatype Step =
    | Thread(t: nat, a: Action)
    | Other(events: seq<Event>)  // any other append, by any tool of the daemon
    | Crash

  function RefOf(d: Drawer): Ref {
    Hash(d.content, [])
  }

  predicate InLock(pc: Pc) {
    pc.Filed? || pc.Holding? || pc.Added?
  }

  predicate MidSweep(pc: Pc) {
    (pc.Sweeping? || pc.Holding? || pc.Added?) && |pc.outcomes| < |pc.pending|
  }

  ghost predicate Enabled(s: State, step: Step) {
    match step
    case Crash => true
    case Other(_) => true
    case Thread(t, a) =>
      t < |s.pcs| &&
      var pc := s.pcs[t];
      match a
      case Remember(d) => pc.Idle?
      case File => pc.Waiting? && s.holder.None?
      case FileFails => pc.Waiting? && s.holder.None?
      case Mark => pc.Filed?
      case MarkFails => pc.Filed? && pc.d.embedding.None?
      case StartSweep(pending) => pc.Idle? && AllMarkers(pending, Facts.Valid(s.k.log))
      case Take(v) => pc.Sweeping? && MidSweep(pc) && s.holder.None?
      case Add => pc.Holding? && MidSweep(pc)
      case Unmark => pc.Added? && MidSweep(pc)
      case GiveUp => MidSweep(pc)
      case EndSweep => pc.Sweeping? && |pc.outcomes| == |pc.pending|
  }

  function EventsOf(s: State, step: Step): seq<Event> {
    match step
    case Crash => []
    case Other(events) => events
    case Thread(t, a) =>
      if t >= |s.pcs| then []
      else
        var pc := s.pcs[t];
        match a
        case File => if pc.Waiting? then FileEvents(pc.d) else []
        case Mark => if pc.Filed? && pc.d.embedding.None? then MarkEvents(RefOf(pc.d)) else []
        case Add =>
          if pc.Holding? && MidSweep(pc)
          then EmbeddingEvents(pc.pending[|pc.outcomes|].subject, Some(pc.vector)) else []
        case Unmark =>
          if pc.Added? && MidSweep(pc) then [Facts.Invalidation(pc.pending[|pc.outcomes|])] else []
        case _ => []
  }

  function PcAfter(pc: Pc, a: Action): Pc {
    match a
    case Remember(d) => Waiting(d)
    case File => if pc.Waiting? then Filed(pc.d) else pc
    case StartSweep(pending) => Sweeping(pending, [])
    case Take(v) => if pc.Sweeping? then Holding(pc.pending, pc.outcomes, v) else pc
    case Add => if pc.Holding? then Pc.Added(pc.pending, pc.outcomes, pc.vector) else pc
    case Unmark => if pc.Added? then Sweeping(pc.pending, pc.outcomes + [Some(pc.vector)]) else pc
    case GiveUp => if MidSweep(pc) then Sweeping(pc.pending, pc.outcomes + [None]) else pc
    case _ => Idle
  }

  function HolderAfter(s: State, t: nat, a: Action): Option<nat> {
    match a
    case File => Some(t)
    case Take(v) => Some(t)
    case Mark => None
    case MarkFails => None
    case Unmark => None
    case GiveUp => if s.holder == Some(t) then None else s.holder
    case _ => s.holder
  }

  /** The drawers whose markers these events take away. */
  function UnmarkedBy(events: seq<Event>): set<Ref> {
    set ev | ev in events && Facts.Invalidates(ev) && IsMarker(Facts.About(ev)) :: Facts.About(ev).subject
  }

  /** The drawer that this step makes findable. */
  function FoundBy(pc: Pc, a: Action): set<Ref> {
    if (a.File? && pc.Waiting? && pc.d.embedding.Some?) || (a.Mark? && pc.Filed?) then {RefOf(pc.d)} else {}
  }

  /** The thread that holds the lock has filed the drawer without a vector and has its marker
      still to come. */
  predicate Exposed(s: State, ref: Ref) {
    && s.holder.Some? && s.holder.value < |s.pcs| && s.pcs[s.holder.value].Filed?
    && s.pcs[s.holder.value].d.embedding.None? && RefOf(s.pcs[s.holder.value].d) == ref
  }

  function Next(s: State, step: Step): State {
    var k := Appended(s.k, EventsOf(s, step));
    match step
    case Crash => State(k, None, seq(|s.pcs|, i => Idle))
    case Other(_) => s.(k := k)
    case Thread(t, a) =>
      if t >= |s.pcs| then s else State(k, HolderAfter(s, t, a), s.pcs[t := PcAfter(s.pcs[t], a)])
  }

  ghost predicate Init(s: State) {
    s.holder.None? && forall t :: 0 <= t < |s.pcs| ==> s.pcs[t].Idle?
  }

  ghost predicate Run(states: seq<State>, steps: seq<Step>) {
    && |states| == |steps| + 1
    && Init(states[0])
    && forall i :: 0 <= i < |steps| ==> Enabled(states[i], steps[i]) && states[i + 1] == Next(states[i], steps[i])
  }

  // ---------------------------------------------------------------------------
  // The invariant
  // ---------------------------------------------------------------------------

  ghost predicate LockHeld(s: State) {
    forall t :: 0 <= t < |s.pcs| ==> (InLock(s.pcs[t]) <==> s.holder == Some(t))
  }

  /** What a sweeping thread has done so far holds of the log as it is now. */
  ghost predicate SweepSound(log: Log, pc: Pc) {
    pc.Sweeping? || pc.Holding? || pc.Added? ==>
      && |pc.outcomes| <= |pc.pending|
      && (pc.Holding? || pc.Added? ==> |pc.outcomes| < |pc.pending|)
      && (forall f :: f in pc.pending ==> IsMarker(f))
      && (forall j :: 0 <= j < |pc.outcomes| && pc.outcomes[j].Some? ==>
            EmbeddedAs(log, pc.pending[j].subject, pc.outcomes[j].value))
      && (pc.Added? ==> EmbeddedAs(log, pc.pending[|pc.outcomes|].subject, pc.vector))
  }

  ghost predicate SweepsSound(s: State) {
    forall t :: 0 <= t < |s.pcs| ==> SweepSound(s.k.log, s.pcs[t])
  }

  /** No step makes a reachable drawer unreachable, save another call that takes one of its
      markers away. */
  lemma StepKeepsReachable(s: State, step: Step, ref: Ref)
    requires Enabled(s, step) && SweepsSound(s) && Reachable(s.k.log, ref)
    requires step.Other? ==> ref !in UnmarkedBy(step.events)
    ensures Reachable(Next(s, step).k.log, ref)
  {
    var events := EventsOf(s, step);
    if step.Thread? && step.a.Unmark? {
      var pc := s.pcs[step.t];
      assert SweepSound(s.k.log, pc);
      assert pc.pending[|pc.outcomes|] in pc.pending;
      assert EmbeddedAs(s.k.log, pc.pending[|pc.outcomes|].subject, pc.vector);
      UnmarkingEmbedded(s.k, pc.pending[|pc.outcomes|], ref);
    } else {
      if !step.Other? {
        OnlyUnmarkUnmarks(s, step);
      }
      ReachableStays(s.k, events, ref);
    }
  }

  lemma OnlyUnmarkUnmarks(s: State, step: Step)
    requires Enabled(s, step) && !step.Other? && !(step.Thread? && step.a.Unmark?)
    ensures KeepsMarkers(EventsOf(s, step))
  {
    if step.Thread? {
      var pc := s.pcs[step.t];
      match step.a
      case File => FilingKeepsMarkers(pc.d);
      case Mark => if pc.d.embedding.None? { MarkingMarks(s.k, RefOf(pc.d)); }
      case Add => EmbeddingEmbeds(s.k, pc.pending[|pc.outcomes|].subject, pc.vector);
      case _ =>
    }
  }

  lemma SweepSoundStays(k: Kernel, events: seq<Event>, pc: Pc)
    requires SweepSound(k.log, pc)
    ensures SweepSound(Appended(k, events).log, pc)
  {
    if pc.Sweeping? || pc.Holding? || pc.Added? {
      forall j | 0 <= j < |pc.outcomes| && pc.outcomes[j].Some?
        ensures EmbeddedAs(Appended(k, events).log, pc.pending[j].subject, pc.outcomes[j].value)
      {
        EmbeddedAsStays(k, events, pc.pending[j].subject, pc.outcomes[j].value);
      }
      if pc.Added? {
        EmbeddedAsStays(k, events, pc.pending[|pc.outcomes|].subject, pc.vector);
      }
    }
  }

  lemma StepKeepsSweeps(s: State, step: Step)
    requires Enabled(s, step) && SweepsSound(s)
    ensures SweepsSound(Next(s, step))
  {
    var s' := Next(s, step);
    forall t | 0 <= t < |s'.pcs|
      ensures SweepSound(s'.k.log, s'.pcs[t])
    {
      if !step.Crash? {
        SweepSoundStays(s.k, EventsOf(s, step), s.pcs[t]);
        if step.Thread? && step.t == t {
          MoverSound(s, t, step.a);
        }
      }
    }
  }

  lemma MoverSound(s: State, t: nat, a: Action)
    requires Enabled(s, Thread(t, a)) && SweepSound(s.k.log, s.pcs[t])
    requires SweepSound(Next(s, Thread(t, a)).k.log, s.pcs[t])
    ensures SweepSound(Next(s, Thread(t, a)).k.log, PcAfter(s.pcs[t], a))
  {
    var pc := s.pcs[t];
    if a.Add? {
      EmbeddingEmbeds(s.k, pc.pending[|pc.outcomes|].subject, pc.vector);
    }
  }

  lemma StepKeepsLock(s: State, step: Step)
    requires Enabled(s, step) && LockHeld(s)
    ensures LockHeld(Next(s, step))
  {
  }

  /** A drawer just filed with its vector is embedded already. */
  ghost predicate FiledWithVectorFound(s: State) {
    forall t :: 0 <= t < |s.pcs| && s.pcs[t].Filed? && s.pcs[t].d.embedding.Some? ==>
      Embedded(s.k.log, RefOf(s.pcs[t].d))
  }

  lemma StepKeepsFiledFound(s: State, step: Step)
    requires Enabled(s, step) && FiledWithVectorFound(s)
    ensures FiledWithVectorFound(Next(s, step))
  {
    var s' := Next(s, step);
    forall t | 0 <= t < |s'.pcs| && s'.pcs[t].Filed? && s'.pcs[t].d.embedding.Some?
      ensures Embedded(s'.k.log, RefOf(s'.pcs[t].d))
    {
      if step.Thread? && step.t == t {
        FilingEmbeds(s.k, s.pcs[t].d);
      } else {
        EmbeddedStays(s.k, EventsOf(s, step), RefOf(s.pcs[t].d));
      }
    }
  }

  /** A drawer that a step makes findable is reachable then. */
  lemma FoundIsReachable(s: State, t: nat, a: Action, ref: Ref)
    requires Enabled(s, Thread(t, a)) && FiledWithVectorFound(s) && ref in FoundBy(s.pcs[t], a)
    ensures Reachable(Next(s, Thread(t, a)).k.log, ref)
  {
    var d := s.pcs[t].d;
    if a.File? {
      FilingEmbeds(s.k, d);
    } else if d.embedding.None? {
      MarkingMarks(s.k, ref);
    } else {
      EmbeddedStays(s.k, EventsOf(s, Thread(t, a)), ref);
    }
  }

  ghost predicate Inv(s: State) {
    LockHeld(s) && SweepsSound(s) && FiledWithVectorFound(s)
  }

  lemma {:induction false} InvAlways(states: seq<State>, steps: seq<Step>, i: nat)
    requires Run(states, steps) && i < |states|
    ensures Inv(states[i])
  {
    if i > 0 {
      InvAlways(states, steps, i - 1);
      var s, step := states[i - 1], steps[i - 1];
      assert Enabled(s, step) && states[i] == Next(s, step);
      StepKeepsLock(s, step);
      StepKeepsSweeps(s, step);
      StepKeepsFiledFound(s, step);
    }
  }

  // ---------------------------------------------------------------------------
  // Whole runs
  // ---------------------------------------------------------------------------

  /** No step from `m` on, up to `j`, is another call taking a marker of the drawer away. */
  ghost predicate MarkerLeftAlone(steps: seq<Step>, m: nat, j: nat, ref: Ref)
    requires j <= |steps|
  {
    forall n :: m <= n < j && steps[n].Other? ==> ref !in UnmarkedBy(steps[n].events)
  }

  /** In every interleaving, with any exceptions and crashes, and whatever became of the
      drawer before: once its `remember` has returned it stays reachable for as long as no
      other call takes a marker of it away. */
  lemma {:induction false} RememberedAlwaysReachable(states: seq<State>, steps: seq<Step>, m: nat, j: nat, t: nat)
    requires Run(states, steps) && m < j < |states|
    requires steps[m] == Thread(t, Mark) && t < |states[m].pcs| && states[m].pcs[t].Filed?
    requires MarkerLeftAlone(steps, m + 1, j, RefOf(states[m].pcs[t].d))
    ensures Reachable(states[j].k.log, RefOf(states[m].pcs[t].d))
    decreases j - m
  {
    InvAlways(states, steps, j - 1);
    var s, step := states[j - 1], steps[j - 1];
    assert Enabled(s, step) && states[j] == Next(s, step);
    var ref := RefOf(states[m].pcs[t].d);
    if m == j - 1 {
      FoundIsReachable(s, t, Mark, ref);
    } else {
      RememberedAlwaysReachable(states, steps, m, j - 1, t);
      StepKeepsReachable(s, step, ref);
    }
  }

  /** The step ends the call that filed the drawer before it could mark it, or is another
      call taking a marker of the drawer away. */
  predicate Forsakes(s: State, step: Step, ref: Ref) {
    || (Exposed(s, ref) && (step.Crash? || (step.Thread? && s.holder == Some(step.t) && step.a.MarkFails?)))
    || (step.Other? && ref in UnmarkedBy(step.events))
  }

  ghost predicate Forsaken(states: seq<State>, steps: seq<Step>, m: nat, j: nat, ref: Ref)
    requires |states| == |steps| + 1 && j <= |steps|
  {
    exists n :: m <= n < j && Forsakes(states[n], steps[n], ref)
  }

  lemma FilingExposes(s: State, t: nat)
    requires Enabled(s, Thread(t, File))
    ensures var s', ref := Next(s, Thread(t, File)), RefOf(s.pcs[t].d);
            Reachable(s'.k.log, ref) || Exposed(s', ref)
  {
    if s.pcs[t].d.embedding.Some? {
      FilingEmbeds(s.k, s.pcs[t].d);
    }
  }

  lemma ExposedOrFound(s: State, step: Step, ref: Ref)
    requires Enabled(s, step) && LockHeld(s) && FiledWithVectorFound(s) && Exposed(s, ref)
    ensures Exposed(Next(s, step), ref) || Reachable(Next(s, step).k.log, ref) || Forsakes(s, step, ref)
  {
    if step.Thread? && s.holder == Some(step.t) && step.a.Mark? {
      FoundIsReachable(s, step.t, Mark, ref);
    }
  }

  /** From the step that files a drawer on, in every state it is reachable, or about to be
      marked, or was forsaken since. */
  lemma {:induction false} FiledIsAccounted(states: seq<State>, steps: seq<Step>, m: nat, j: nat, t: nat)
    requires Run(states, steps) && m < j < |states|
    requires steps[m] == Thread(t, File) && t < |states[m].pcs| && states[m].pcs[t].Waiting?
    ensures var ref := RefOf(states[m].pcs[t].d);
            Reachable(states[j].k.log, ref) || Exposed(states[j], ref) || Forsaken(states, steps, m, j, ref)
    decreases j - m
  {
    InvAlways(states, steps, j - 1);
    var s, step, ref := states[j - 1], steps[j - 1], RefOf(states[m].pcs[t].d);
    assert Enabled(s, step) && states[j] == Next(s, step);
    if m == j - 1 {
      FilingExposes(s, t);
    } else {
      FiledIsAccounted(states, steps, m, j - 1, t);
      if Forsakes(s, step, ref) || Forsaken(states, steps, m, j - 1, ref) {
        assert Forsaken(states, steps, m, j, ref);
      } else if Exposed(s, ref) {
        ExposedOrFound(s, step, ref);
      } else {
        StepKeepsReachable(s, step, ref);
      }
    }
  }

  /** So whenever the lock is free, a filed drawer that is not reachable was forsaken since it
      was filed: its call died or failed between filing and marking, or another call took a
      marker of it away. */
  lemma UnreachableOnlyIfCutShort(states: seq<State>, steps: seq<Step>, m: nat, j: nat, t: nat)
    requires Run(states, steps) && m < j < |states|
    requires steps[m] == Thread(t, File) && t < |states[m].pcs| && states[m].pcs[t].Waiting?
    requires states[j].holder.None? && !Reachable(states[j].k.log, RefOf(states[m].pcs[t].d))
    ensures Forsaken(states, steps, m, j, RefOf(states[m].pcs[t].d))
  {
    FiledIsAccounted(states, steps, m, j, t);
  }

  /** A finished sweep accounts for each drawer it found pending, and embedded each one it
      did not report as failed by the vector it computed for it, whatever ran meanwhile. */
  lemma FinishedSweepSound(states: seq<State>, steps: seq<Step>, i: nat, t: nat)
    requires Run(states, steps) && i < |states| && t < |states[i].pcs|
    requires Enabled(states[i], Thread(t, EndSweep))
    ensures var pc := states[i].pcs[t];
            && Successes(pc.outcomes) + Failures(pc.outcomes) == |pc.pending|
            && (forall j :: 0 <= j < |pc.pending| && pc.outcomes[j].Some? ==>
                  EmbeddedAs(states[i].k.log, pc.pending[j].subject, pc.outcomes[j].value))
            && (Failures(pc.outcomes) == 0 ==> forall j :: 0 <= j < |pc.pending| ==> pc.outcomes[j].Some?)
  {
    InvAlways(states, steps, i);
    var pc := states[i].pcs[t];
    assert SweepSound(states[i].k.log, pc);
    Counts(pc.outcomes);
  }

  function Successes(outcomes: seq<Outcome>): nat {
    if outcomes == [] then 0
    else Successes(outcomes[..|outcomes| - 1]) + if outcomes[|outcomes| - 1].Some? then 1 else 0
  }

  function Failures(outcomes: seq<Outcome>): nat {
    if outcomes == [] then 0
    else Failures(outcomes[..|outcomes| - 1]) + if outcomes[|outcomes| - 1].None? then 1 else 0
  }

  lemma {:induction false} Counts(outcomes: seq<Outcome>)
    ensures Successes(outcomes) + Failures(outcomes) == |outcomes|
    ensures Failures(outcomes) == 0 ==> forall j :: 0 <= j < |outcomes| ==> outcomes[j].Some?
  {
    if outcomes != [] {
      Counts(outcomes[..|outcomes| - 1]);
    }
  }

  /** And such a drawer exists: filing and marking are two appends, and a crash between
      them leaves a drawer that neither vector search nor any sweep will find. */
  lemma CrashLosesADrawer(d: Drawer, s: State)
    requires d.embedding.None?
    requires s == State(Kernel([], 0), None, [Idle])
    ensures exists states: seq<State>, steps: seq<Step> ::
              && Run(states, steps) && |states| == 4 && states[0] == s
              && states[3].holder.None? && steps[1] == Thread(0, File) && states[1].pcs == [Waiting(d)]
              && !Reachable(states[3].k.log, RefOf(d))
  {
    var steps := [Thread(0, Remember(d)), Thread(0, File), Crash];
    var s1 := Next(s, steps[0]);
    var s2 := Next(s1, steps[1]);
    var s3 := Next(s2, steps[2]);
    var states := [s, s1, s2, s3];
    assert s1.pcs == [Waiting(d)] && s1.k == s.k;
    assert s2.k == Appended(s.k, FileEvents(d)) && s3.k == s2.k;
    assert Run(states, steps);
    UnmarkedFilingAddsNothing(s.k, d, RefOf(d));
  }

  /** Filing states no marker. */
  lemma FiledIsUnmarked(d: Drawer)
    ensures forall f :: f in FiledFacts(d) ==> !IsMarker(f)
  {
    assert NEEDS_EMBEDDING[0] == 'n' && SCOPED_TO[0] == 's';
    assert HAS_SOURCE[0] == 'h' && HAS_CATEGORY[0] == 'h' && HAS_IMPORTANCE[0] == 'h';
  }

  /** Filing without a vector changes no drawer's reachability, so a `remember` cut short
      leaves its drawer reachable exactly when it was so before the call. */
  lemma UnmarkedFilingAddsNothing(k: Kernel, d: Drawer, ref: Ref)
    requires d.embedding.None?
    ensures Reachable(Appended(k, FileEvents(d)).log, ref) <==> Reachable(k.log, ref)
  {
    FilingStates(k, d);
    EdgesAppended(k, FileEvents(d));
    FilingEdges(d);
    var after := Appended(k, FileEvents(d)).log;
    FiledIsUnmarked(d);
    assert forall f :: IsMarker(f) ==> (f in Facts.Valid(after) <==> f in Facts.Valid(k.log));
  }

  // ---------------------------------------------------------------------------
  // What a call and a sweep come to when nothing else happens meanwhile
  // ---------------------------------------------------------------------------

  /** These actions of the thread, one after another and each of them enabled, lead from `s`
      to `s'`. */
  ghost predicate Leads(s: State, t: nat, path: seq<Action>, s': State)
    decreases |path|
  {
    if path == [] then s' == s
    else Enabled(s, Thread(t, path[0])) && Leads(Next(s, Thread(t, path[0])), t, path[1..], s')
  }

  lemma LeadsFirst(s: State, t: nat, a: Action, path: seq<Action>, s': State)
    requires Enabled(s, Thread(t, a)) && Leads(Next(s, Thread(t, a)), t, path, s')
    ensures Leads(s, t, [a] + path, s')
  {
    assert ([a] + path)[1..] == path;
  }

  lemma {:induction false} LeadsOn(s: State, t: nat, path: seq<Action>, m: State, more: seq<Action>, s': State)
    requires Leads(s, t, path, m) && Leads(m, t, more, s')
    ensures Leads(s, t, path + more, s')
    decreases |path|
  {
    if path == [] {
      assert path + more == more;
    } else {
      var n := Next(s, Thread(t, path[0]));
      LeadsOn(n, t, path[1..], m, more, s');
      LeadsFirst(s, t, path[0], path[1..] + more, s');
      assert [path[0]] + (path[1..] + more) == path + more;
    }
  }

  /** `remember` files the drawer, and marks it exactly if there is no vector. */
  lemma RememberAlone(s: State, t: nat, d: Drawer)
    requires t < |s.pcs| && s.pcs[t].Idle? && s.holder.None?
    ensures Leads(s, t, [Remember(d), File, Mark],
                  State(Appended(s.k, FileEvents(d) + if d.embedding.None? then MarkEvents(RefOf(d)) else []),
                        None, s.pcs))
  {
    var a := Next(s, Thread(t, Remember(d)));
    var b := Next(a, Thread(t, File));
    var c := Next(b, Thread(t, Mark));
    AppendedAppended(s.k, FileEvents(d), if d.embedding.None? then MarkEvents(RefOf(d)) else []);
    assert c.pcs == s.pcs;
    LeadsFirst(b, t, Mark, [], c);
    LeadsFirst(a, t, File, [Mark], c);
    LeadsFirst(s, t, Remember(d), [File, Mark], c);
    assert [Mark] + [] == [Mark] && [File] + [Mark] == [File, Mark];
    assert [Remember(d)] + [File, Mark] == [Remember(d), File, Mark];
  }

  /** What the thread does for one attempt of the sweep; a lock taken in vain leaves no
      trace of the vector. */
  function ActionsOf(a: Attempt): seq<Action> {
    match a
    case NoVector => [GiveUp]
    case NotAdded => [Take([])] + [GiveUp]
    case NotUnmarked(v) => [Take(v)] + ([Add] + [GiveUp])
    case Done(v) => [Take(v)] + ([Add] + [Unmark])
  }

  function OutcomeOf(a: Attempt): Outcome {
    if a.Done? then Some(a.vector) else None
  }

  /** The state of a sweep so far, its thread at the head of the loop. */
  function SweepAt(s: State, t: nat, k: Kernel, pending: seq<Facts.Fact>, outcomes: seq<Outcome>): State
    requires t < |s.pcs|
  {
    State(k, None, s.pcs[t := Sweeping(pending, outcomes)])
  }

  lemma NothingAdded(s: State, t: nat, vector: seq<Float>)
    requires t < |s.pcs| && s.pcs[t].Sweeping? && MidSweep(s.pcs[t]) && s.holder.None?
    ensures var failed := SweepAt(s, t, s.k, s.pcs[t].pending, s.pcs[t].outcomes + [None]);
            Leads(s, t, [GiveUp], failed) && Leads(s, t, [Take(vector)] + [GiveUp], failed)
  {
    var m := Next(s, Thread(t, Take(vector)));
    var failed := SweepAt(s, t, s.k, s.pcs[t].pending, s.pcs[t].outcomes + [None]);
    assert m.pcs[t := Sweeping(s.pcs[t].pending, s.pcs[t].outcomes + [None])] == failed.pcs;
    LeadsFirst(s, t, GiveUp, [], failed);
    LeadsFirst(m, t, GiveUp, [], failed);
    LeadsFirst(s, t, Take(vector), [GiveUp], failed);
  }

  /** The thread has embedded the drawer and still holds the lock. */
  function AddedAt(s: State, t: nat, f: Facts.Fact, vector: seq<Float>): State
    requires t < |s.pcs| && s.pcs[t].Sweeping?
  {
    State(Appended(s.k, EmbeddingEvents(f.subject, Some(vector))), Some(t),
          s.pcs[t := Added(s.pcs[t].pending, s.pcs[t].outcomes, vector)])
  }

  lemma TakesAndAdds(s: State, t: nat, vector: seq<Float>, path: seq<Action>, s': State)
    requires t < |s.pcs| && s.pcs[t].Sweeping? && MidSweep(s.pcs[t]) && s.holder.None?
    requires Leads(AddedAt(s, t, s.pcs[t].pending[|s.pcs[t].outcomes|], vector), t, path, s')
    ensures Leads(s, t, [Take(vector)] + ([Add] + path), s')
  {
    var m := Next(s, Thread(t, Take(vector)));
    var n := AddedAt(s, t, s.pcs[t].pending[|s.pcs[t].outcomes|], vector);
    assert Next(m, Thread(t, Add)).pcs == n.pcs;
    LeadsFirst(m, t, Add, path, s');
    LeadsFirst(s, t, Take(vector), [Add] + path, s');
  }

  lemma EndsAttempt(s: State, t: nat, a: Attempt)
    requires t < |s.pcs| && s.pcs[t].Sweeping? && MidSweep(s.pcs[t]) && (a.NotUnmarked? || a.Done?)
    ensures var pc := s.pcs[t];
            Leads(AddedAt(s, t, pc.pending[|pc.outcomes|], a.vector), t, [if a.Done? then Unmark else GiveUp],
                  SweepAt(s, t, Appended(s.k, AttemptEvents(pc.pending[|pc.outcomes|], a)),
                          pc.pending, pc.outcomes + [OutcomeOf(a)]))
  {
    var pc := s.pcs[t];
    var f := pc.pending[|pc.outcomes|];
    var n := AddedAt(s, t, f, a.vector);
    var last := if a.Done? then Unmark else GiveUp;
    AppendedAppended(s.k, EmbeddingEvents(f.subject, Some(a.vector)), [Facts.Invalidation(f)]);
    assert Next(n, Thread(t, last)).pcs == s.pcs[t := Sweeping(pc.pending, pc.outcomes + [OutcomeOf(a)])];
    LeadsFirst(n, t, last, [], Next(n, Thread(t, last)));
    assert [last] + [] == [last];
  }

  lemma AttemptAlone(s: State, t: nat, a: Attempt)
    requires t < |s.pcs| && s.pcs[t].Sweeping? && MidSweep(s.pcs[t]) && s.holder.None?
    ensures var pc := s.pcs[t];
            Leads(s, t, ActionsOf(a),
                  SweepAt(s, t, Appended(s.k, AttemptEvents(pc.pending[|pc.outcomes|], a)),
                          pc.pending, pc.outcomes + [OutcomeOf(a)]))
  {
    if a.NoVector? || a.NotAdded? {
      NothingAdded(s, t, []);
    } else {
      var pc := s.pcs[t];
      EndsAttempt(s, t, a);
      TakesAndAdds(s, t, a.vector, [if a.Done? then Unmark else GiveUp],
                   SweepAt(s, t, Appended(s.k, AttemptEvents(pc.pending[|pc.outcomes|], a)),
                           pc.pending, pc.outcomes + [OutcomeOf(a)]));
    }
  }

  function OutcomesOf(attempts: seq<Attempt>): (r: seq<Outcome>)
    ensures |r| == |attempts|
  {
    seq(|attempts|, i requires 0 <= i < |attempts| => OutcomeOf(attempts[i]))
  }

  /** The state after the first `n` attempts. */
  function SweptTo(s: State, t: nat, pending: seq<Facts.Fact>, attempts: seq<Attempt>, n: nat): State
    requires t < |s.pcs| && n <= |attempts| <= |pending|
  {
    SweepAt(s, t, Appended(s.k, SweepEvents(pending[..n], attempts[..n])), pending, OutcomesOf(attempts[..n]))
  }

  lemma SweepsOneMore(s: State, t: nat, pending: seq<Facts.Fact>, attempts: seq<Attempt>, n: nat)
    requires t < |s.pcs| && n < |attempts| <= |pending|
    ensures Leads(SweptTo(s, t, pending, attempts, n), t, ActionsOf(attempts[n]),
                  SweptTo(s, t, pending, attempts, n + 1))
  {
    var m := SweptTo(s, t, pending, attempts, n);
    AttemptAlone(m, t, attempts[n]);
    assert pending[..n + 1][..n] == pending[..n] && attempts[..n + 1][..n] == attempts[..n];
    AppendedAppended(s.k, SweepEvents(pending[..n], attempts[..n]), AttemptEvents(pending[n], attempts[n]));
    assert OutcomesOf(attempts[..n + 1]) == OutcomesOf(attempts[..n]) + [OutcomeOf(attempts[n])];
    assert m.pcs[t := Sweeping(pending, OutcomesOf(attempts[..n + 1]))] ==
           s.pcs[t := Sweeping(pending, OutcomesOf(attempts[..n + 1]))];
  }

  lemma SweptToStart(s: State, t: nat, pending: seq<Facts.Fact>, attempts: seq<Attempt>)
    requires t < |s.pcs| && s.pcs[t] == Sweeping(pending, []) && s.holder.None? && |attempts| <= |pending|
    ensures SweptTo(s, t, pending, attempts, 0) == s
  {
    assert OutcomesOf(attempts[..0]) == [] && s.pcs[t := Sweeping(pending, [])] == s.pcs;
  }

  lemma {:induction false} SweepsTo(s: State, t: nat, pending: seq<Facts.Fact>, attempts: seq<Attempt>, n: nat)
    returns (path: seq<Action>)
    requires t < |s.pcs| && s.pcs[t] == Sweeping(pending, []) && s.holder.None? && n <= |attempts| <= |pending|
    ensures Leads(s, t, path, SweptTo(s, t, pending, attempts, n))
    decreases n
  {
    if n == 0 {
      path := [];
      SweptToStart(s, t, pending, attempts);
    } else {
      var before := n - 1;
      path := SweepsTo(s, t, pending, attempts, before);
      SweepsOneMore(s, t, pending, attempts, before);
      LeadsOn(s, t, path, SweptTo(s, t, pending, attempts, before), ActionsOf(attempts[before]),
              SweptTo(s, t, pending, attempts, n));
      path := path + ActionsOf(attempts[before]);
    }
  }

  /** A sweep that nothing interferes with is the sweep loop taken by itself: the same events
      in the log, and each attempt that finished reported with its vector. */
  lemma SweepAlone(s: State, t: nat, pending: seq<Facts.Fact>, attempts: seq<Attempt>) returns (path: seq<Action>)
    requires t < |s.pcs| && s.pcs[t] == Sweeping(pending, []) && s.holder.None? && |attempts| == |pending|
    ensures Leads(s, t, path,
                  State(Appended(s.k, SweepEvents(pending, attempts)), None,
                        s.pcs[t := Sweeping(pending, OutcomesOf(attempts))]))
  {
    path := SweepsTo(s, t, pending, attempts, |attempts|);
    assert pending[..|attempts|] == pending && attempts[..|attempts|] == attempts;
  }
}
