/** The fold-snapshot protocol of the native store: readers, owner builds, waiters,
    appenders and the expiry timer, interleaved in any order by any number of threads.
    Each lock region and each out-of-lock build is one atomic step.

    A fold is the number of events it holds: folds are prefixes of an append-only log. */
module SnapshotProtocol {
  import opened EventLog

  type Fold = nat
  type Moment = nat  // milliseconds of the monotonic clock

  const SNAPSHOT_REUSE: nat := 5000

  datatype Snapshot = Snapshot(generation: nat, takenAt: Moment, fold: Fold)
  datatype Build = Build(generation: nat, done: nat)

  /** The fields guarded by `_snapshot_lock`. A build's event and a timer are named by
      numbers; `lastBuildAt == 0` means nothing was ever built. */
  datatype Shared = Shared(
    generation: nat,
    snapshot: Option<Snapshot>,
    building: Option<Build>,
    priorFold: Option<Fold>,
    lastBuildAt: Moment,
    timer: Option<nat>)

  datatype Decision = Reuse(fold: Fold) | Join(generation: nat, done: nat) | Own(generation: nat, done: nat)

  // ---------------------------------------------------------------------------
  // The lock regions, as functions of the guarded fields
  // ---------------------------------------------------------------------------

  function Decide(s: Shared, now: Moment, newEvent: nat): (Shared, Decision) {
    match s.snapshot
    case Some(snap) =>
      if snap.generation == s.generation && now < snap.takenAt + SNAPSHOT_REUSE
      then (s, Reuse(snap.fold)) else JoinOrOwn(s, newEvent)
    case None => JoinOrOwn(s, newEvent)
  }

  function JoinOrOwn(s: Shared, newEvent: nat): (Shared, Decision) {
    if s.building.Some? && s.building.value.generation == s.generation
    then (s, Join(s.generation, s.building.value.done))
    else (s.(building := Some(Build(s.generation, newEvent))), Own(s.generation, newEvent))
  }

  function AfterWait(s: Shared, generation: nat): Option<Fold> {
    if s.snapshot.Some? && s.snapshot.value.generation == generation
    then Some(s.snapshot.value.fold) else None
  }

  function StorePrior(s: Shared, fold: Fold, now: Moment): Shared {
    s.(priorFold := if s.priorFold.None? || fold >= s.priorFold.value then Some(fold) else s.priorFold,
       lastBuildAt := now)
  }

  function Publish(s: Shared, generation: nat, now: Moment, fold: Fold): Shared {
    if generation == s.generation then s.(snapshot := Some(Snapshot(generation, now, fold))) else s
  }

  function ClearBuilding(s: Shared, done: nat): Shared {
    if s.building.Some? && s.building.value.done == done then s.(building := None) else s
  }

  function OnAppend(s: Shared): Shared {
    s.(generation := s.generation + 1, snapshot := None)
  }

  function Arm(s: Shared, newTimer: nat): Shared {
    if s.timer.Some? then s else s.(timer := Some(newTimer))
  }

  /** The expiry callback: what it leaves, and whether it must re-arm. */
  function Expire(s: Shared, now: Moment): (Shared, bool) {
    var s' := s.(timer := None);
    if s.lastBuildAt == 0 then (s', false)
    else if now >= s.lastBuildAt + SNAPSHOT_REUSE then (s'.(snapshot := None, priorFold := None), false)
    else (s', true)
  }

  // ---------------------------------------------------------------------------
  // The system
  // ---------------------------------------------------------------------------

  datatype Role = Solo | Owner(generation: nat, done: nat, now: Moment)

  /** Where one call of `_fold_snapshot` stands. `begun` is what had been notified when
      the call began. */
  datatype Pc =
    | Idle
    | Entered(begun: set<nat>, now: Moment)
    | Waiting(begun: set<nat>, generation: nat, done: nat)
    | Rechecking(begun: set<nat>, generation: nat)
    | Building(begun: set<nat>, role: Role)
    | Storing(begun: set<nat>, role: Role, fold: Fold)
    | Arming(begun: set<nat>, role: Role, fold: Fold)
    | Publishing(begun: set<nat>, role: Role, fold: Fold)
    | Clearing(begun: set<nat>, role: Role, result: Option<Fold>)
    | Signalling(begun: set<nat>, role: Role, result: Option<Fold>)
    | ArmingAgain(begun: set<nat>, fold: Fold)
    | Returned(begun: set<nat>, fold: Fold)
    | Failed

  datatype State = State(
    shared: Shared,
    appended: nat,        // events 0 .. appended - 1 are in the log
    notified: set<nat>,   // events whose observer call has finished
    clock: Moment,
    set_: set<nat>,       // build events that have been set
    nextEvent: nat,
    nextTimer: nat,
    live: set<nat>,       // timers started that have not fired
    rearming: nat,        // expiry callbacks about to re-arm
    threads: map<nat, Pc>)

  datatype Action =
    | Append
    | Notify(e: nat)
    | Tick(dt: nat)
    | Advance(t: nat, raises: bool)
    | Fire(timer: nat)
    | Rearm

  function PcOf(s: State, t: nat): Pc {
    if t in s.threads then s.threads[t] else Idle
  }

  predicate Enabled(s: State, a: Action) {
    match a
    case Notify(e) => e < s.appended
    case Advance(t, _) => PcOf(s, t).Waiting? ==> PcOf(s, t).done in s.set_
    case Fire(timer) => timer in s.live
    case Rearm => s.rearming > 0
    case _ => true
  }

  function At(s: State, t: nat, pc: Pc): State {
    s.(threads := s.threads[t := pc])
  }

  function ArmIn(s: State): State {
    if s.shared.timer.Some? then s
    else s.(shared := Arm(s.shared, s.nextTimer), live := s.live + {s.nextTimer}, nextTimer := s.nextTimer + 1)
  }

  function Move(s: State, t: nat, raises: bool): State {
    match PcOf(s, t)
    case Idle => At(s, t, Entered(s.notified, s.clock))
    case Entered(b, now) =>
      var (shared, d) := Decide(s.shared, now, s.nextEvent);
      (match d
       case Reuse(fold) => At(s, t, Returned(b, fold))
       case Join(g, done) => At(s, t, Waiting(b, g, done))
       case Own(g, done) =>
         At(s.(shared := shared, nextEvent := s.nextEvent + 1), t, Building(b, Owner(g, done, now))))
    case Waiting(b, g, _) => At(s, t, Rechecking(b, g))
    case Rechecking(b, g) =>
      (match AfterWait(s.shared, g)
       case Some(fold) => At(s, t, Returned(b, fold))
       case None => At(s, t, Building(b, Solo)))
    case Building(b, role) =>
      if !raises then At(s, t, Storing(b, role, s.appended))
      else At(s, t, if role.Owner? then Clearing(b, role, None) else Failed)
    case Storing(b, role, fold) =>
      At(s.(shared := StorePrior(s.shared, fold, s.clock)), t, Arming(b, role, fold))
    case Arming(b, role, fold) =>
      At(ArmIn(s), t, if role.Owner? then Publishing(b, role, fold) else Returned(b, fold))
    case Publishing(b, role, fold) =>
      At(if role.Owner? then s.(shared := Publish(s.shared, role.generation, role.now, fold)) else s,
         t, Clearing(b, role, Some(fold)))
    case Clearing(b, role, r) =>
      At(if role.Owner? then s.(shared := ClearBuilding(s.shared, role.done)) else s, t, Signalling(b, role, r))
    case Signalling(b, role, r) =>
      At(if role.Owner? then s.(set_ := s.set_ + {role.done}) else s,
         t, if r.Some? then ArmingAgain(b, r.value) else Failed)
    case ArmingAgain(b, fold) => At(ArmIn(s), t, Returned(b, fold))
    case Returned(_, _) => At(s, t, Idle)
    case Failed => At(s, t, Idle)
  }

  function Next(s: State, a: Action): State {
    match a
    case Append => s.(appended := s.appended + 1)
    case Notify(e) => s.(shared := OnAppend(s.shared), notified := s.notified + {e})
    case Tick(dt) => s.(clock := s.clock + dt)
    case Advance(t, raises) => Move(s, t, raises)
    case Fire(timer) =>
      var (shared, rearm) := Expire(s.shared, s.clock);
      s.(shared := shared, live := s.live - {timer}, rearming := if rearm then s.rearming + 1 else s.rearming)
    case Rearm => ArmIn(s).(rearming := if s.rearming > 0 then s.rearming - 1 else 0)
  }

  ghost predicate Init(s: State) {
    && s.shared == Shared(0, None, None, None, 0, None)
    && s.notified == {} && s.set_ == {} && s.live == {} && s.rearming == 0 && s.threads == map[]
    && s.clock > 0
  }

  ghost predicate Run(states: seq<State>, actions: seq<Action>) {
    && |states| == |actions| + 1
    && Init(states[0])
    && forall i :: 0 <= i < |actions| ==> Enabled(states[i], actions[i]) && states[i + 1] == Next(states[i], actions[i])
  }

  // ---------------------------------------------------------------------------
  // Freshness
  // ---------------------------------------------------------------------------

  predicate Covers(events: set<nat>, fold: Fold) {
    forall e :: e in events ==> e < fold
  }

  /** An owner's fold covers everything notified, for as long as its generation lasts. */
  predicate RoleFresh(s: State, role: Role, fold: Fold) {
    role.Owner? ==>
      role.generation <= s.shared.generation
      && (role.generation == s.shared.generation ==> Covers(s.notified, fold))
  }

  predicate ThreadFresh(s: State, pc: Pc) {
    match pc
    case Entered(b, _) => b <= s.notified
    case Waiting(b, _, _) => b <= s.notified
    case Rechecking(b, _) => b <= s.notified
    case Building(b, role) => b <= s.notified && (role.Owner? ==> role.generation <= s.shared.generation)
    case Storing(b, role, fold) => b <= s.notified && Covers(b, fold) && RoleFresh(s, role, fold)
    case Arming(b, role, fold) => b <= s.notified && Covers(b, fold) && RoleFresh(s, role, fold)
    case Publishing(b, role, fold) => b <= s.notified && Covers(b, fold) && RoleFresh(s, role, fold)
    case Clearing(b, _, r) => r.Some? ==> Covers(b, r.value)
    case Signalling(b, _, r) => r.Some? ==> Covers(b, r.value)
    case ArmingAgain(b, fold) => Covers(b, fold)
    case Returned(b, fold) => Covers(b, fold)
    case _ => true
  }

  predicate SnapshotOk(s: State) {
    s.shared.snapshot.Some? ==>
      && s.shared.snapshot.value.generation == s.shared.generation
      && Covers(s.notified, s.shared.snapshot.value.fold)
  }

  ghost predicate FreshInv(s: State) {
    && Covers(s.notified, s.appended)
    && SnapshotOk(s)
    && forall t :: t in s.threads ==> ThreadFresh(s, s.threads[t])
  }

  /** What the other threads rely on only improves: nothing notified goes away, and a
      notification moves the generation on. */
  lemma FreshFrame(s: State, s': State, pc: Pc)
    requires ThreadFresh(s, pc)
    requires s.notified <= s'.notified && s.shared.generation <= s'.shared.generation
    requires s.notified == s'.notified || s.shared.generation < s'.shared.generation
    ensures ThreadFresh(s', pc)
  {
  }

  lemma FreshMove(s: State, t: nat, raises: bool)
    requires FreshInv(s) && Enabled(s, Advance(t, raises))
    ensures ThreadFresh(Move(s, t, raises), PcOf(Move(s, t, raises), t))
    ensures SnapshotOk(Move(s, t, raises))
  {
    assert ThreadFresh(s, PcOf(s, t));
  }

  lemma MoveFrame(s: State, t: nat, raises: bool)
    ensures var s' := Move(s, t, raises);
            && s'.threads == s.threads[t := PcOf(s', t)]
            && s'.notified == s.notified && s'.appended == s.appended
            && s'.shared.generation == s.shared.generation
  {
  }

  lemma FreshOneThread(s: State, s': State, t: nat)
    requires FreshInv(s) && s'.threads == s.threads[t := PcOf(s', t)]
    requires s'.notified == s.notified && s'.appended == s.appended
    requires s'.shared.generation == s.shared.generation
    requires ThreadFresh(s', PcOf(s', t)) && SnapshotOk(s')
    ensures FreshInv(s')
  {
    forall u | u in s'.threads
      ensures ThreadFresh(s', s'.threads[u])
    {
      if u != t {
        FreshFrame(s, s', s.threads[u]);
      }
    }
  }

  lemma FreshOther(s: State, a: Action)
    requires FreshInv(s) && Enabled(s, a) && !a.Advance?
    ensures FreshInv(Next(s, a))
  {
    var s' := Next(s, a);
    assert s'.threads == s.threads;
    forall t | t in s'.threads
      ensures ThreadFresh(s', s'.threads[t])
    {
      FreshFrame(s, s', s.threads[t]);
    }
  }

  lemma FreshStep(s: State, a: Action)
    requires FreshInv(s) && Enabled(s, a)
    ensures FreshInv(Next(s, a))
  {
    if a.Advance? {
      FreshMove(s, a.t, a.raises);
      MoveFrame(s, a.t, a.raises);
      FreshOneThread(s, Next(s, a), a.t);
    } else {
      FreshOther(s, a);
    }
  }

  lemma {:induction false} FreshAlways(states: seq<State>, actions: seq<Action>, i: nat)
    requires Run(states, actions) && i < |states|
    ensures FreshInv(states[i])
  {
    if i > 0 {
      FreshAlways(states, actions, i - 1);
      FreshStep(states[i - 1], actions[i - 1]);
    }
  }

  predicate InCall(pc: Pc) {
    !pc.Idle? && !pc.Failed?
  }

  /** A call keeps, to its end, what had been notified when it began. */
  lemma {:induction false} BegunKept(states: seq<State>, actions: seq<Action>, i: nat, j: nat, t: nat)
    requires Run(states, actions) && i < j < |states|
    requires PcOf(states[i], t).Idle?
    requires forall k :: i < k <= j ==> InCall(PcOf(states[k], t))
    ensures InCall(PcOf(states[j], t)) && PcOf(states[j], t).begun == states[i].notified
    decreases j
  {
    if j > i + 1 {
      BegunKept(states, actions, i, j - 1, t);
    }
    assert states[j] == Next(states[j - 1], actions[j - 1]);
    assert InCall(PcOf(states[j], t));
  }

  /** Snapshot freshness: in every run, the fold a call returns holds every event whose
      observer call had finished when the call began, whether the call reused a snapshot,
      waited for another reader's build, or built the fold itself. */
  lemma SnapshotFresh(states: seq<State>, actions: seq<Action>, i: nat, j: nat, t: nat)
    requires Run(states, actions) && i < j < |states|
    requires PcOf(states[i], t).Idle? && PcOf(states[j], t).Returned?
    requires forall k :: i < k <= j ==> InCall(PcOf(states[k], t))
    ensures forall e :: e in states[i].notified ==> e < PcOf(states[j], t).fold
  {
    BegunKept(states, actions, i, j, t);
    FreshAlways(states, actions, j);
    assert ThreadFresh(states[j], PcOf(states[j], t));
  }

  /** Reuse, exactly: a call that enters is answered without a build if and only if a
      snapshot is there that was begun less than the reuse time before the call. It is
      then of the current generation, so nothing was appended since, and stays as it is. */
  lemma ReusedExactlyWhileYoung(states: seq<State>, actions: seq<Action>, i: nat, t: nat)
    requires Run(states, actions) && i < |actions| && actions[i].Advance? && actions[i].t == t
    requires PcOf(states[i], t).Entered?
    ensures var snap := states[i].shared.snapshot;
            && (PcOf(states[i + 1], t).Returned? <==>
                snap.Some? && PcOf(states[i], t).now < snap.value.takenAt + SNAPSHOT_REUSE)
            && (PcOf(states[i + 1], t).Returned? ==>
                  && PcOf(states[i + 1], t).fold == snap.value.fold
                  && snap.value.generation == states[i].shared.generation
                  && states[i + 1].shared == states[i].shared)
  {
    FreshAlways(states, actions, i);
  }

  // ---------------------------------------------------------------------------
  // Single flight, and no stuck readers
  // ---------------------------------------------------------------------------

  /** An owner build that still holds, or may hold, the build slot. */
  predicate InFlight(pc: Pc) {
    (pc.Building? || pc.Storing? || pc.Arming? || pc.Publishing? || pc.Clearing?) && pc.role.Owner?
  }

  /** ... or has not yet set its event. */
  predicate Active(pc: Pc) {
    InFlight(pc) || (pc.Signalling? && pc.role.Owner?)
  }

  ghost predicate OwnedBy(s: State, done: nat, t: nat) {
    t in s.threads && Active(s.threads[t]) && s.threads[t].role.done == done
  }

  ghost predicate HasOwner(s: State, done: nat) {
    exists t :: OwnedBy(s, done, t)
  }

  /** The build in the slot is a build that has not cleared it. */
  ghost predicate SlotHeld(s: State, done: nat) {
    exists t :: OwnedBy(s, done, t) && InFlight(s.threads[t])
  }

  ghost predicate OwnerOk(s: State, pc: Pc) {
    Active(pc) ==>
      && pc.role.done < s.nextEvent && pc.role.done !in s.set_
      && pc.role.generation <= s.shared.generation
      && (InFlight(pc) && pc.role.generation == s.shared.generation ==>
            s.shared.building == Some(Build(pc.role.generation, pc.role.done)))
  }

  ghost predicate FlightInv(s: State) {
    && (forall d :: d in s.set_ ==> d < s.nextEvent)
    && (forall t :: t in s.threads ==> OwnerOk(s, s.threads[t]))
    && (s.shared.building.Some? ==>
          s.shared.building.value.done < s.nextEvent && SlotHeld(s, s.shared.building.value.done))
    && (forall t :: t in s.threads && s.threads[t].Waiting? ==>
          s.threads[t].done < s.nextEvent && (s.threads[t].done in s.set_ || HasOwner(s, s.threads[t].done)))
    && DistinctBuilds(s)
  }

  ghost predicate DistinctBuilds(s: State) {
    && (forall t, u :: t in s.threads && u in s.threads && t != u && Active(s.threads[t]) && Active(s.threads[u]) ==>
          s.threads[t].role.done != s.threads[u].role.done)
    && (forall t, u :: t in s.threads && u in s.threads && t != u
                       && InFlight(s.threads[t]) && InFlight(s.threads[u]) ==>
          s.threads[t].role.generation != s.threads[u].role.generation)
  }

  /** Every owner that stays one keeps its waiters company. */
  lemma OwnersKept(s: State, s': State, ended: set<nat>)
    requires forall t :: t in s.threads ==> t in s'.threads
    requires forall t :: t in s.threads && Active(s.threads[t]) && s.threads[t].role.done !in ended ==>
               Active(s'.threads[t]) && s'.threads[t].role == s.threads[t].role
    ensures forall d :: HasOwner(s, d) && d !in ended ==> HasOwner(s', d)
  {
    forall d | HasOwner(s, d) && d !in ended
      ensures HasOwner(s', d)
    {
      var t :| OwnedBy(s, d, t);
      assert OwnedBy(s', d, t);
    }
  }

  lemma SlotKept(s: State, s': State)
    requires s.shared.building.Some? ==> SlotHeld(s, s.shared.building.value.done)
    requires s'.shared.building == s.shared.building
    requires forall t :: t in s.threads && InFlight(s.threads[t]) ==>
               t in s'.threads && InFlight(s'.threads[t]) && s'.threads[t].role == s.threads[t].role
    ensures s'.shared.building.Some? ==> SlotHeld(s', s'.shared.building.value.done)
  {
    if s.shared.building.Some? {
      var d := s.shared.building.value.done;
      var t :| OwnedBy(s, d, t) && InFlight(s.threads[t]);
      assert OwnedBy(s', d, t);
    }
  }

  lemma DistinctKept(s: State, s': State)
    requires DistinctBuilds(s)
    requires forall t :: t in s'.threads && Active(s'.threads[t]) ==>
               && t in s.threads && Active(s.threads[t]) && s'.threads[t].role == s.threads[t].role
               && (InFlight(s'.threads[t]) ==> InFlight(s.threads[t]))
    ensures DistinctBuilds(s')
  {
  }

  /** Steps that leave the threads, the build slot and the events alone. */
  lemma FlightFrame(s: State, s': State)
    requires FlightInv(s)
    requires s'.threads == s.threads && s'.set_ == s.set_ && s'.nextEvent == s.nextEvent
    requires s'.shared.building == s.shared.building
    requires s'.shared.generation >= s.shared.generation
    ensures FlightInv(s')
  {
    OwnersKept(s, s', {});
    SlotKept(s, s');
    forall t | t in s'.threads
      ensures OwnerOk(s', s'.threads[t])
    {
      assert OwnerOk(s, s.threads[t]);
    }
  }

  /** One thread moves without taking, clearing or signalling a build. */
  lemma FlightSameBuilds(s: State, s': State, t: nat)
    requires FlightInv(s)
    requires s'.threads == s.threads[t := PcOf(s', t)]
    requires s'.set_ == s.set_ && s'.nextEvent == s.nextEvent
    requires s'.shared.building == s.shared.building && s'.shared.generation == s.shared.generation
    requires Active(PcOf(s, t)) <==> Active(PcOf(s', t))
    requires Active(PcOf(s, t)) ==> PcOf(s, t).role == PcOf(s', t).role
    requires InFlight(PcOf(s, t)) <==> InFlight(PcOf(s', t))
    requires PcOf(s', t).Waiting? ==>
               s.shared.building.Some? && PcOf(s', t).done == s.shared.building.value.done
    ensures FlightInv(s')
  {
    OwnersKept(s, s', {});
    SlotKept(s, s');
    DistinctKept(s, s');
    forall u | u in s'.threads
      ensures OwnerOk(s', s'.threads[u])
    {
      assert u in s.threads ==> OwnerOk(s, s.threads[u]);
    }
  }

  /** A build with a number and a generation of its own joins the others. */
  lemma DistinctWithNew(s: State, s': State, t: nat)
    requires DistinctBuilds(s) && s'.threads == s.threads[t := PcOf(s', t)] && InFlight(PcOf(s', t))
    requires forall u :: u in s.threads && u != t && Active(s.threads[u]) ==>
               s.threads[u].role.done != PcOf(s', t).role.done
    requires forall u :: u in s.threads && u != t && InFlight(s.threads[u]) ==>
               s.threads[u].role.generation != PcOf(s', t).role.generation
    ensures DistinctBuilds(s')
  {
  }

  /** A reader takes the build slot of the current generation. */
  lemma FlightOwn(s: State, s': State, t: nat)
    requires FlightInv(s) && !Active(PcOf(s, t))
    requires s.shared.building.Some? ==> s.shared.building.value.generation != s.shared.generation
    requires s'.threads == s.threads[t := PcOf(s', t)] && PcOf(s', t).Building? && PcOf(s', t).role.Owner?
    requires PcOf(s', t).role.done == s.nextEvent && PcOf(s', t).role.generation == s.shared.generation
    requires s'.set_ == s.set_ && s'.nextEvent == s.nextEvent + 1 && s'.shared.generation == s.shared.generation
    requires s'.shared.building == Some(Build(s.shared.generation, s.nextEvent))
    ensures FlightInv(s')
  {
    assert OwnedBy(s', s.nextEvent, t);
    OwnersKept(s, s', {});
    forall u | u in s'.threads
      ensures OwnerOk(s', s'.threads[u])
    {
      assert u in s.threads ==> OwnerOk(s, s.threads[u]);
    }
    assert forall u :: u in s.threads && u != t ==> OwnerOk(s, s.threads[u]);
    DistinctWithNew(s, s', t);
  }

  /** An owner, possibly a late one, clears the slot if it still holds it. */
  lemma FlightClear(s: State, t: nat)
    requires FlightInv(s) && PcOf(s, t).Clearing? && PcOf(s, t).role.Owner?
    ensures var pc := PcOf(s, t);
            FlightInv(At(s.(shared := ClearBuilding(s.shared, pc.role.done)), t,
                         Signalling(pc.begun, pc.role, pc.result)))
  {
    var pc := PcOf(s, t);
    var s' := At(s.(shared := ClearBuilding(s.shared, pc.role.done)), t, Signalling(pc.begun, pc.role, pc.result));
    OwnersKept(s, s', {});
    forall u | u in s'.threads
      ensures OwnerOk(s', s'.threads[u])
    {
      assert OwnerOk(s, s.threads[u]) && OwnerOk(s, s.threads[t]);
      if u != t && InFlight(s.threads[u]) && s.threads[u].role.generation == s.shared.generation {
        assert s.shared.building.value.done != pc.role.done;
      }
    }
  }

  /** An owner sets its event: nobody waits for it in vain any more. */
  lemma FlightSignal(s: State, t: nat, pc': Pc)
    requires FlightInv(s) && PcOf(s, t).Signalling? && PcOf(s, t).role.Owner?
    requires !Active(pc') && !pc'.Waiting?
    ensures FlightInv(At(s.(set_ := s.set_ + {PcOf(s, t).role.done}), t, pc'))
  {
    var done := PcOf(s, t).role.done;
    var s' := At(s.(set_ := s.set_ + {done}), t, pc');
    assert OwnerOk(s, s.threads[t]);
    OwnersKept(s, s', {done});
    forall u | u in s'.threads
      ensures OwnerOk(s', s'.threads[u])
    {
      assert u != t ==> OwnerOk(s, s.threads[u]);
    }
  }

  /** The thread is about to take, clear or signal a build. */
  predicate TouchesBuilds(s: State, pc: Pc) {
    || (pc.Entered? && Decide(s.shared, pc.now, s.nextEvent).1.Own?)
    || (pc.Clearing? && pc.role.Owner?)
    || (pc.Signalling? && pc.role.Owner?)
  }

  lemma QuietMove(s: State, t: nat, raises: bool)
    requires !TouchesBuilds(s, PcOf(s, t))
    ensures var s' := Move(s, t, raises);
            && s'.set_ == s.set_ && s'.nextEvent == s.nextEvent
            && s'.shared.building == s.shared.building
            && (Active(PcOf(s, t)) <==> Active(PcOf(s', t)))
            && (Active(PcOf(s, t)) ==> PcOf(s, t).role == PcOf(s', t).role)
            && (InFlight(PcOf(s, t)) <==> InFlight(PcOf(s', t)))
            && (PcOf(s', t).Waiting? ==>
                  s.shared.building.Some? && PcOf(s', t).done == s.shared.building.value.done)
  {
  }

  lemma FlightTouching(s: State, t: nat, raises: bool)
    requires FlightInv(s) && TouchesBuilds(s, PcOf(s, t))
    ensures FlightInv(Move(s, t, raises))
  {
    var pc := PcOf(s, t);
    match pc
    case Entered(_, _) => FlightOwn(s, Move(s, t, raises), t);
    case Clearing(_, _, _) => FlightClear(s, t);
    case Signalling(b, _, r) => FlightSignal(s, t, if r.Some? then ArmingAgain(b, r.value) else Failed);
  }

  lemma FlightMove(s: State, t: nat, raises: bool)
    requires FlightInv(s) && Enabled(s, Advance(t, raises))
    ensures FlightInv(Move(s, t, raises))
  {
    if TouchesBuilds(s, PcOf(s, t)) {
      FlightTouching(s, t, raises);
    } else {
      QuietMove(s, t, raises);
      MoveFrame(s, t, raises);
      FlightSameBuilds(s, Move(s, t, raises), t);
    }
  }

  lemma FlightStep(s: State, a: Action)
    requires FlightInv(s) && Enabled(s, a)
    ensures FlightInv(Next(s, a))
  {
    if a.Advance? {
      FlightMove(s, a.t, a.raises);
    } else {
      FlightFrame(s, Next(s, a));
    }
  }

  lemma {:induction false} FlightAlways(states: seq<State>, actions: seq<Action>, i: nat)
    requires Run(states, actions) && i < |states|
    ensures FlightInv(states[i])
  {
    if i > 0 {
      FlightAlways(states, actions, i - 1);
      FlightStep(states[i - 1], actions[i - 1]);
    }
  }

  /** At most one owner build is in flight per generation. */
  lemma SingleFlight(states: seq<State>, actions: seq<Action>, i: nat, t: nat, u: nat)
    requires Run(states, actions) && i < |states|
    requires InFlight(PcOf(states[i], t)) && InFlight(PcOf(states[i], u))
    requires PcOf(states[i], t).role.generation == PcOf(states[i], u).role.generation
    ensures t == u
  {
    FlightAlways(states, actions, i);
  }

  /** No thread takes the slot from an owner that still holds it, however late either of
      them is and whether a build raises or not, but in one way: a reader that enters when
      that owner's generation is past takes it for a build of the current generation. */
  lemma LateOwnerHarmless(states: seq<State>, actions: seq<Action>, i: nat, t: nat, u: nat)
    requires Run(states, actions) && i < |actions| && actions[i].Advance? && actions[i].t == t
    requires t != u && InFlight(PcOf(states[i], u))
    requires states[i].shared.building == Some(Build(PcOf(states[i], u).role.generation, PcOf(states[i], u).role.done))
    ensures || states[i + 1].shared.building == states[i].shared.building
            || (PcOf(states[i], t).Entered? && PcOf(states[i], u).role.generation < states[i].shared.generation
                && states[i + 1].shared.building.Some?
                && states[i + 1].shared.building.value.generation == states[i].shared.generation)
  {
    FlightAlways(states, actions, i);
  }

  /** The lock regions and the build an owner has still to go through before it sets its
      event. */
  function StepsToSignal(pc: Pc): nat {
    match pc
    case Building(_, _) => 6
    case Storing(_, _, _) => 5
    case Arming(_, _, _) => 4
    case Publishing(_, _, _) => 3
    case Clearing(_, _, _) => 2
    case Signalling(_, _, _) => 1
    case _ => 0
  }

  /** How many of the actions from `i` on, up to `j`, are steps of the thread. */
  function StepsTaken(actions: seq<Action>, i: nat, j: nat, t: nat): nat
    requires i <= j <= |actions|
    decreases j - i
  {
    if i == j then 0
    else StepsTaken(actions, i, j - 1, t) + if actions[j - 1].Advance? && actions[j - 1].t == t then 1 else 0
  }

  ghost predicate StepOf(actions: seq<Action>, k: nat, t: nat) {
    k < |actions| && actions[k].Advance? && actions[k].t == t
  }

  lemma {:induction false} StepsTakenExact(actions: seq<Action>, i: nat, j: nat, t: nat)
    requires i <= j <= |actions|
    ensures StepsTaken(actions, i, j, t) == |set k | i <= k < j && StepOf(actions, k, t)|
    decreases j - i
  {
    if i < j {
      StepsTakenExact(actions, i, j - 1, t);
      assert (set k | i <= k < j && StepOf(actions, k, t)) ==
             (set k | i <= k < j - 1 && StepOf(actions, k, t)) + if StepOf(actions, j - 1, t) then {j - 1} else {};
    }
  }

  /** The event is set, or its owner is on the way to it: it may take its next step, and has
      fewer left the more it has taken. */
  ghost predicate OnTheWay(s: State, t: nat, done: nat, left: int) {
    || done in s.set_
    || (Active(PcOf(s, t)) && PcOf(s, t).role.done == done && StepsToSignal(PcOf(s, t)) <= left
        && Enabled(s, Advance(t, false)) && Enabled(s, Advance(t, true)))
  }

  /** Another thread's step leaves an owner alone, and its own brings it closer. */
  lemma StepNearsSignal(s: State, a: Action, t: nat, done: nat, left: int)
    requires OnTheWay(s, t, done, left)
    ensures OnTheWay(Next(s, a), t, done, if a.Advance? && a.t == t then left - 1 else left)
  {
    if a.Advance? {
      MoveFrame(s, a.t, a.raises);
      EventsStay(s, a.t, a.raises);
    }
  }

  lemma EventsStay(s: State, t: nat, raises: bool)
    ensures s.set_ <= Move(s, t, raises).set_
  {
  }

  /** Along any run, however its steps are interleaved with those of other threads and
      whether builds raise or not: an owner has set its event once it has taken the steps it
      had left, and until then nothing keeps it from the next one. */
  lemma {:induction false} OwnerSignals(states: seq<State>, actions: seq<Action>, i: nat, j: nat, t: nat)
    requires Run(states, actions) && i <= j < |states| && Active(PcOf(states[i], t))
    ensures var pc := PcOf(states[i], t);
            OnTheWay(states[j], t, pc.role.done, StepsToSignal(pc) - StepsTaken(actions, i, j, t))
    decreases j - i
  {
    if i < j {
      OwnerSignals(states, actions, i, j - 1, t);
      var pc := PcOf(states[i], t);
      var left := StepsToSignal(pc) - StepsTaken(actions, i, j - 1, t);
      StepNearsSignal(states[j - 1], actions[j - 1], t, pc.role.done, left);
    }
  }

  ghost predicate WillSignal(states: seq<State>, actions: seq<Action>, i: nat, u: nat, done: nat)
    requires |states| == |actions| + 1
  {
    forall j :: i <= j < |states| ==> OnTheWay(states[j], u, done, 6 - StepsTaken(actions, i, j, u))
  }

  /** No reader is stuck: whenever a reader waits, its event is set already, or there is one
      other thread, never blocked, that along any continuation of the run has set the event
      once it has taken six steps, even when its build raises. */
  lemma NoStuckReader(states: seq<State>, actions: seq<Action>, i: nat, t: nat)
    requires Run(states, actions) && i < |states| && PcOf(states[i], t).Waiting?
    ensures var done := PcOf(states[i], t).done;
            || done in states[i].set_
            || exists u :: u != t && WillSignal(states, actions, i, u, done)
  {
    FlightAlways(states, actions, i);
    var done := PcOf(states[i], t).done;
    if done !in states[i].set_ {
      var u :| OwnedBy(states[i], done, u);
      forall j | i <= j < |states|
        ensures OnTheWay(states[j], u, done, 6 - StepsTaken(actions, i, j, u))
      {
        OwnerSignals(states, actions, i, j, u);
      }
      assert u != t && WillSignal(states, actions, i, u, done);
    }
  }

  // ---------------------------------------------------------------------------
  // Bounded retention
  // ---------------------------------------------------------------------------

  /** A call between storing a fold and arming the timer for it. */
  predicate BetweenStoreAndArm(pc: Pc) {
    || pc.Arming? || pc.Publishing? || pc.ArmingAgain?
    || ((pc.Clearing? || pc.Signalling?) && pc.result.Some?)
  }

  ghost predicate Owed(s: State) {
    s.rearming > 0 || exists t :: t in s.threads && BetweenStoreAndArm(s.threads[t])
  }

  predicate Retains(s: State) {
    s.shared.snapshot.Some? || s.shared.priorFold.Some?
  }

  ghost predicate TimerInv(s: State) {
    && s.clock > 0
    && (forall id :: id in s.live ==> s.shared.timer == Some(id))
    && (s.shared.timer.Some? ==> s.shared.timer.value in s.live && s.shared.timer.value < s.nextTimer)
    && (Retains(s) ==> s.shared.lastBuildAt > 0)
    && ((exists t :: t in s.threads && BetweenStoreAndArm(s.threads[t])) ==> s.shared.lastBuildAt > 0)
    && (Retains(s) ==> s.shared.timer.Some? || Owed(s))
  }

  lemma TimerMove(s: State, t: nat, raises: bool)
    requires TimerInv(s)
    ensures TimerInv(Move(s, t, raises))
  {
    var s' := Move(s, t, raises);
    MoveFrame(s, t, raises);
    TimerFields(s, t, raises);
    if u :| u in s'.threads && BetweenStoreAndArm(s'.threads[u]) {
      assert u != t ==> u in s.threads && BetweenStoreAndArm(s.threads[u]);
    }
    if Retains(s') && s'.shared.timer.None? && s.rearming == 0 && !BetweenStoreAndArm(PcOf(s', t)) {
      var u :| u in s.threads && BetweenStoreAndArm(s.threads[u]);
      assert u in s'.threads && BetweenStoreAndArm(s'.threads[u]);
    }
  }

  /** What one move does to the timer and the retained folds. */
  lemma TimerFields(s: State, t: nat, raises: bool)
    requires TimerInv(s)
    ensures var s' := Move(s, t, raises);
            && s'.clock == s.clock && s'.rearming == s.rearming
            && (forall id :: id in s'.live ==> s'.shared.timer == Some(id))
            && (s'.shared.timer.Some? ==> s'.shared.timer.value in s'.live && s'.shared.timer.value < s'.nextTimer)
            && (BetweenStoreAndArm(PcOf(s', t)) || Retains(s') ==> s'.shared.lastBuildAt > 0)
            && s'.shared.lastBuildAt >= (if s.shared.lastBuildAt > 0 then 1 else 0)
            && (Retains(s') && !Retains(s) ==> BetweenStoreAndArm(PcOf(s', t)))
            && (BetweenStoreAndArm(PcOf(s, t)) ==> BetweenStoreAndArm(PcOf(s', t)) || s'.shared.timer.Some?)
            && (s.shared.timer.Some? ==> s'.shared.timer.Some?)
  {
    assert BetweenStoreAndArm(PcOf(s, t)) ==> t in s.threads;
  }

  lemma TimerStep(s: State, a: Action)
    requires TimerInv(s) && Enabled(s, a)
    ensures TimerInv(Next(s, a))
  {
    if a.Advance? {
      TimerMove(s, a.t, a.raises);
    } else {
      assert Next(s, a).threads == s.threads;
    }
  }

  lemma {:induction false} TimerAlways(states: seq<State>, actions: seq<Action>, i: nat)
    requires Run(states, actions) && i < |states|
    ensures TimerInv(states[i])
  {
    if i > 0 {
      TimerAlways(states, actions, i - 1);
      TimerStep(states[i - 1], actions[i - 1]);
    }
  }

  /** Bounded retention: at most one timer is ever pending, and whenever no call is
      between storing a fold and arming, and no callback is about to re-arm, a retained
      snapshot or extension base has a pending timer. */
  lemma RetentionBounded(states: seq<State>, actions: seq<Action>, i: nat)
    requires Run(states, actions) && i < |states|
    ensures forall a, b :: a in states[i].live && b in states[i].live ==> a == b
    ensures Retains(states[i]) && !Owed(states[i]) ==> states[i].live != {}
  {
    TimerAlways(states, actions, i);
  }

  /** Once nothing has been built for the reuse time, the pending timer drops everything. */
  lemma IdleTimerDropsAll(states: seq<State>, actions: seq<Action>, i: nat)
    requires Run(states, actions) && i < |actions| && actions[i].Fire?
    requires states[i].clock >= states[i].shared.lastBuildAt + SNAPSHOT_REUSE
    ensures !Retains(states[i + 1])
  {
    TimerAlways(states, actions, i);
  }

  /** The call's build is done and its fold is stored as the extension base. */
  predicate Stores(s: State, a: Action) {
    a.Advance? && PcOf(s, a.t).Storing?
  }

  /** The last time, among the first `i` steps, that a fold was stored; 0 if none was. */
  ghost predicate IsLastBuild(states: seq<State>, actions: seq<Action>, i: nat, at: Moment)
    requires |states| == |actions| + 1 && i <= |actions|
  {
    && (forall k :: 0 <= k < i && Stores(states[k], actions[k]) ==> 0 < states[k].clock <= at)
    && (at > 0 ==> exists k :: 0 <= k < i && Stores(states[k], actions[k]) && states[k].clock == at)
  }

  lemma StepAndBuild(s: State, a: Action)
    requires TimerInv(s)
    ensures Next(s, a).clock >= s.clock > 0
    ensures Next(s, a).shared.lastBuildAt == if Stores(s, a) then s.clock else s.shared.lastBuildAt
  {
  }

  lemma {:induction false} LastBuildAlways(states: seq<State>, actions: seq<Action>, i: nat)
    requires Run(states, actions) && i < |states|
    ensures states[i].shared.lastBuildAt <= states[i].clock
    ensures IsLastBuild(states, actions, i, states[i].shared.lastBuildAt)
  {
    if i > 0 {
      LastBuildAlways(states, actions, i - 1);
      TimerAlways(states, actions, i - 1);
      StepAndBuild(states[i - 1], actions[i - 1]);
    }
  }

  /** Some fold was stored less than the reuse time before step `i`. */
  ghost predicate BuiltLately(states: seq<State>, actions: seq<Action>, i: nat)
    requires |states| == |actions| + 1 && i <= |actions|
  {
    exists k :: 0 <= k < i && Stores(states[k], actions[k]) && states[i].clock < states[k].clock + SNAPSHOT_REUSE
  }

  /** What a firing timer drops, exactly: nothing, and a new timer is owed, if any call stored
      a fold within the reuse time; else everything, and none is. */
  lemma ExpiryExact(states: seq<State>, actions: seq<Action>, i: nat)
    requires Run(states, actions) && i < |actions| && actions[i].Fire?
    ensures var s, s' := states[i], states[i + 1];
            if BuiltLately(states, actions, i)
            then && s'.shared.snapshot == s.shared.snapshot && s'.shared.priorFold == s.shared.priorFold
                 && s'.rearming == s.rearming + 1
            else !Retains(s') && s'.rearming == s.rearming
  {
    LastBuildAlways(states, actions, i);
    TimerAlways(states, actions, i);
    assert BuiltLately(states, actions, i) <==>
           states[i].shared.lastBuildAt > 0 && states[i].clock < states[i].shared.lastBuildAt + SNAPSHOT_REUSE;
  }

  // ---------------------------------------------------------------------------
  // When a snapshot was begun
  // ---------------------------------------------------------------------------

  /** Some call entered at that moment. */
  ghost predicate SomeCallEntered(states: seq<State>, actions: seq<Action>, i: nat, at: Moment)
    requires |states| == |actions| + 1 && i <= |actions|
  {
    exists k :: 0 <= k < i && actions[k].Advance? && PcOf(states[k], actions[k].t).Idle? && states[k].clock == at
  }

  /** The moment a call or its owner build carries along. */
  predicate Carries(pc: Pc, at: Moment) {
    || (pc.Entered? && pc.now == at)
    || (InFlight(pc) && pc.role.now == at)
  }

  predicate Taken(s: State, at: Moment) {
    s.shared.snapshot.Some? && s.shared.snapshot.value.takenAt == at
  }

  /** A moment a thread or the snapshot carries was carried before, or is that of a call
      entering now. */
  lemma MomentsCarried(s: State, a: Action, at: Moment, t: nat)
    ensures Taken(Next(s, a), at) ==> Taken(s, at) || (a.Advance? && Carries(PcOf(s, a.t), at))
    ensures Carries(PcOf(Next(s, a), t), at) ==>
              Carries(PcOf(s, t), at) || (a.Advance? && PcOf(s, a.t).Idle? && s.clock == at)
  {
    if a.Advance? {
      MoveFrame(s, a.t, a.raises);
      MoverCarries(s, a.t, a.raises, at);
    }
  }

  lemma MoverCarries(s: State, t: nat, raises: bool, at: Moment)
    ensures Taken(Move(s, t, raises), at) ==> Taken(s, at) || Carries(PcOf(s, t), at)
    ensures Carries(PcOf(Move(s, t, raises), t), at) ==>
              Carries(PcOf(s, t), at) || (PcOf(s, t).Idle? && s.clock == at)
  {
  }

  /** In every run the moment a snapshot counts its age from is one at which a call entered,
      before the build it comes from: its age is never understated. */
  lemma {:induction false} AgeCountsFromEntry(states: seq<State>, actions: seq<Action>, i: nat, at: Moment, t: nat)
    requires Run(states, actions) && i < |states|
    requires Taken(states[i], at) || Carries(PcOf(states[i], t), at)
    ensures SomeCallEntered(states, actions, i, at)
  {
    if i > 0 {
      var s, a := states[i - 1], actions[i - 1];
      assert states[i] == Next(s, a);
      MomentsCarried(s, a, at, t);
      if Taken(s, at) || Carries(PcOf(s, t), at) {
        AgeCountsFromEntry(states, actions, i - 1, at, t);
      } else if a.Advance? && Carries(PcOf(s, a.t), at) {
        AgeCountsFromEntry(states, actions, i - 1, at, a.t);
      }
    }
  }

  /** The extension base never shrinks except when expiry drops it. */
  lemma PriorNeverShrinks(states: seq<State>, actions: seq<Action>, i: nat)
    requires Run(states, actions) && i < |actions|
    requires states[i].shared.priorFold.Some?
    ensures || (states[i + 1].shared.priorFold.Some?
                && states[i + 1].shared.priorFold.value >= states[i].shared.priorFold.value)
            || (actions[i].Fire? && states[i].clock >= states[i].shared.lastBuildAt + SNAPSHOT_REUSE)
  {
  }

  // ---------------------------------------------------------------------------
  // What a call comes to when nothing else happens meanwhile
  // ---------------------------------------------------------------------------

  /** The thread alone takes `n` steps, and nothing raises. */
  function Alone(s: State, t: nat, n: nat): State
    decreases n
  {
    if n == 0 then s else Alone(Next(s, Advance(t, false)), t, n - 1)
  }

  lemma {:induction false} AloneOn(s: State, t: nat, m: nat, n: nat)
    ensures Alone(s, t, m + n) == Alone(Alone(s, t, m), t, n)
    decreases m
  {
    if m > 0 {
      AloneOn(Next(s, Advance(t, false)), t, m - 1, n);
    }
  }

  lemma AloneTwice(s: State, t: nat)
    ensures Alone(s, t, 2) == Move(Move(s, t, false), t, false)
  {
    assert Alone(Move(s, t, false), t, 1) == Alone(Move(Move(s, t, false), t, false), t, 0);
  }

  /** The longer one of the fold and the extension base there was. */
  function Longer(prior: Option<Fold>, fold: Fold): Fold {
    if prior.Some? && prior.value > fold then prior.value else fold
  }

  /** The slot and the timers after a build that was stored at `s.clock`. */
  function Stored(s: State, fold: Fold): State {
    ArmIn(s.(shared := s.shared.(priorFold := Some(Longer(s.shared.priorFold, fold)), lastBuildAt := s.clock)))
  }

  lemma BuildsAndStores(s: State, t: nat, begun: set<nat>, role: Role)
    requires PcOf(s, t) == Building(begun, role)
    ensures var fold := s.appended;
            Alone(s, t, 3) == At(Stored(s, fold), t, if role.Owner? then Publishing(begun, role, fold)
                                                     else Returned(begun, fold))
  {
    var m := Move(s, t, false);
    AloneTwice(m, t);
    var n := Move(m, t, false);
    assert m == At(s, t, Storing(begun, role, s.appended));
    assert n.threads == s.threads[t := Arming(begun, role, s.appended)];
    assert Move(n, t, false).threads == s.threads[t := if role.Owner? then Publishing(begun, role, s.appended)
                                                       else Returned(begun, s.appended)];
  }

  lemma PublishesAndEnds(s: State, t: nat, begun: set<nat>, role: Role, fold: Fold)
    requires PcOf(s, t) == Publishing(begun, role, fold) && role.Owner? && role.generation == s.shared.generation
    requires s.shared.building.Some? && s.shared.building.value.done == role.done && s.shared.timer.Some?
    ensures Alone(s, t, 4) ==
            At(s.(shared := s.shared.(snapshot := Some(Snapshot(role.generation, role.now, fold)), building := None),
                  set_ := s.set_ + {role.done}), t, Returned(begun, fold))
  {
    var m := Move(Move(s, t, false), t, false);
    AloneTwice(s, t);
    AloneTwice(m, t);
    AloneOn(s, t, 2, 2);
    assert m.threads == s.threads[t := Signalling(begun, role, Some(fold))];
    assert Move(Move(m, t, false), t, false).threads == s.threads[t := Returned(begun, fold)];
  }

  /** A call that finds neither a young snapshot nor a build of the generation under way, and
      is left alone: it returns everything appended so far, leaves that as the snapshot, aged
      from its own entry, and as the base unless a longer one was there, has set its event,
      and leaves no build under way and a timer pending. */
  lemma OwnerCallExact(s: State, t: nat)
    requires PcOf(s, t).Idle? && Decide(s.shared, s.clock, s.nextEvent).1.Own?
    ensures var s' := Alone(s, t, 9);
            && s'.threads == s.threads[t := Returned(s.notified, s.appended)]
            && s'.shared.snapshot == Some(Snapshot(s.shared.generation, s.clock, s.appended))
            && s'.shared.priorFold == Some(Longer(s.shared.priorFold, s.appended))
            && s'.shared.generation == s.shared.generation && s'.shared.building.None?
            && s'.shared.lastBuildAt == s.clock && s'.set_ == s.set_ + {s.nextEvent}
            && s'.shared.timer == Some(if s.shared.timer.Some? then s.shared.timer.value else s.nextTimer)
            && s'.live == (if s.shared.timer.Some? then s.live else s.live + {s.nextTimer})
            && s'.rearming == s.rearming
  {
    var role := Owner(s.shared.generation, s.nextEvent, s.clock);
    var a := Alone(s, t, 2);
    AloneTwice(s, t);
    AloneOn(s, t, 2, 7);
    AloneOn(a, t, 3, 4);
    BuildsAndStores(a, t, s.notified, role);
    PublishesAndEnds(Alone(a, t, 3), t, s.notified, role, s.appended);
  }

  /** A call that joins a build and finds nothing of it afterwards builds for itself: it
      returns everything appended so far, and publishes nothing. */
  lemma WaiterCallExact(s: State, t: nat)
    requires PcOf(s, t).Rechecking? && AfterWait(s.shared, PcOf(s, t).generation).None?
    ensures Alone(s, t, 4) == At(Stored(s, s.appended), t, Returned(PcOf(s, t).begun, s.appended))
  {
    var begun := PcOf(s, t).begun;
    var m := Move(s, t, false);
    AloneOn(s, t, 1, 3);
    assert Alone(s, t, 1) == Alone(m, t, 0);
    BuildsAndStores(m, t, begun, Solo);
    assert Stored(m, s.appended).threads == m.threads;
    assert Alone(s, t, 4).threads == s.threads[t := Returned(begun, s.appended)];
  }

  /** A build that raises fails its call. A waiter's leaves everything as it was; an owner's
      takes its build out of the slot, sets its event, and leaves all else as it was. */
  lemma RaisingBuildExact(s: State, t: nat)
    requires PcOf(s, t).Building?
    requires PcOf(s, t).role.Owner? ==> s.shared.building.Some? && s.shared.building.value.done == PcOf(s, t).role.done
    ensures var raised := Next(s, Advance(t, true));
            && (PcOf(s, t).role.Solo? ==> raised == At(s, t, Failed))
            && (PcOf(s, t).role.Owner? ==>
                  Alone(raised, t, 2) ==
                  At(s.(shared := s.shared.(building := None), set_ := s.set_ + {PcOf(s, t).role.done}), t, Failed))
  {
    var raised := Next(s, Advance(t, true));
    AloneTwice(raised, t);
    if PcOf(s, t).role.Owner? {
      assert Move(Move(raised, t, false), t, false).threads == s.threads[t := Failed];
    }
  }

  /** The appends of a run, and the time it took. */
  function Appends(actions: seq<Action>, i: nat): nat
    requires i <= |actions|
  {
    if i == 0 then 0 else Appends(actions, i - 1) + if actions[i - 1].Append? then 1 else 0
  }

  function Elapsed(actions: seq<Action>, i: nat): nat
    requires i <= |actions|
  {
    if i == 0 then 0 else Elapsed(actions, i - 1) + if actions[i - 1].Tick? then actions[i - 1].dt else 0
  }

  lemma StepOfHistory(s: State, a: Action)
    ensures Next(s, a).appended == s.appended + if a.Append? then 1 else 0
    ensures Next(s, a).clock == s.clock + if a.Tick? then a.dt else 0
    ensures Next(s, a).notified == if a.Notify? then s.notified + {a.e} else s.notified
  {
  }

  /** What the theorems about runs measure calls against: the log has the events appended in
      the run, those notified are the ones it notified, and the clock shows the time gone by. */
  lemma {:induction false} HistoryExact(states: seq<State>, actions: seq<Action>, i: nat)
    requires Run(states, actions) && i < |states|
    ensures states[i].appended == states[0].appended + Appends(actions, i)
    ensures states[i].clock == states[0].clock + Elapsed(actions, i)
    ensures forall e :: e in states[i].notified <==> NotifiedBefore(actions, i, e)
  {
    if i > 0 {
      HistoryExact(states, actions, i - 1);
      StepOfHistory(states[i - 1], actions[i - 1]);
      forall e
        ensures e in states[i].notified <==> NotifiedBefore(actions, i, e)
      {
        assert NotifiedBefore(actions, i, e) <==> NotifiedBefore(actions, i - 1, e) || actions[i - 1] == Notify(e);
      }
    }
  }

  ghost predicate NotifiedBefore(actions: seq<Action>, i: nat, e: nat)
    requires i <= |actions|
  {
    exists k :: 0 <= k < i && actions[k] == Notify(e)
  }

  // ---------------------------------------------------------------------------
  // The object, in any run
  // ---------------------------------------------------------------------------

  ghost predicate Reached(s: State) {
    exists states, actions :: Run(states, actions) && states[|actions|] == s
  }

  lemma ReachedFirst(s: State)
    requires Init(s)
    ensures Reached(s)
  {
    var states, actions: seq<Action> := [s], [];
    assert Run(states, actions) && states[|actions|] == s;
  }

  lemma ReachedNext(s: State, a: Action)
    requires Reached(s) && Enabled(s, a)
    ensures Reached(Next(s, a))
  {
    var states, actions :| Run(states, actions) && states[|actions|] == s;
    var more, acts := states + [Next(s, a)], actions + [a];
    forall i | 0 <= i < |acts|
      ensures Enabled(more[i], acts[i]) && more[i + 1] == Next(more[i], acts[i])
    {
      if i < |actions| {
        assert more[i] == states[i] && more[i + 1] == states[i + 1] && acts[i] == actions[i];
      }
    }
    assert Run(more, acts) && more[|acts|] == Next(s, a);
  }

  lemma ReachedSound(s: State)
    requires Reached(s)
    ensures FreshInv(s) && FlightInv(s) && TimerInv(s)
  {
    var states, actions :| Run(states, actions) && states[|actions|] == s;
    FreshAlways(states, actions, |actions|);
    FlightAlways(states, actions, |actions|);
    TimerAlways(states, actions, |actions|);
  }

  /** What the first lock region of a call tells it. */
  lemma DecisionSound(s: State, t: nat, now: Moment)
    requires Reached(s) && PcOf(s, t).Entered? && PcOf(s, t).now == now
    ensures var (shared, d) := Decide(s.shared, now, s.nextEvent);
            var s' := Move(s, t, false);
            && s'.shared == shared
            && (d.Reuse? ==> Covers(PcOf(s, t).begun, d.fold))
            && (d.Join? ==> d.done in s'.set_ || exists u :: u != t && OwnedBy(s', d.done, u))
            && (d.Own? ==> forall u :: InFlight(PcOf(s', u)) && PcOf(s', u).role.generation == d.generation ==> u == t)
  {
    ReachedSound(s);
    ReachedNext(s, Advance(t, false));
    ReachedSound(Move(s, t, false));
    assert ThreadFresh(Move(s, t, false), PcOf(Move(s, t, false), t));
  }

  /** A thread that clears its slot takes it from no other owner. */
  lemma OthersKeepSlot(s: State, t: nat, u: nat)
    requires Reached(s) && PcOf(s, t).Clearing? && PcOf(s, t).role.Owner? && u != t && InFlight(PcOf(s, u))
    ensures PcOf(s, u).role.done != PcOf(s, t).role.done
  {
    ReachedSound(s);
  }

  /** The fields of `NativeMemoryStore` that `_snapshot_lock` guards, and the lock regions
      that update them. The `world` is the whole system at this moment, in some run of it;
      steps of other threads, and of this one between its regions, go through `Elsewhere`. */
  class SnapshotSlot {
    var generation: nat
    var snapshot: Option<Snapshot>
    var building: Option<Build>
    var priorFold: Option<Fold>
    var lastBuildAt: Moment
    var timer: Option<nat>
    ghost var world: State

    ghost function Fields(): Shared
      reads this
    {
      Shared(generation, snapshot, building, priorFold, lastBuildAt, timer)
    }

    ghost predicate Valid()
      reads this
    {
      Reached(world) && world.shared == Fields()
    }

    constructor (ghost start: State)
      requires Init(start)
      ensures Valid() && world == start
    {
      generation, snapshot, building, priorFold, lastBuildAt, timer := 0, None, None, None, 0, None;
      world := start;
      ReachedFirst(start);
    }

    /** Any step of the system outside the lock regions. */
    ghost method Elsewhere(a: Action)
      requires Valid() && Enabled(world, a) && Next(world, a).shared == world.shared
      modifies this`world
      ensures Valid() && world == Next(old(world), a)
    {
      ReachedNext(world, a);
      world := Next(world, a);
    }

    /** A fold reused holds all that had been notified when the call began; a build joined has
        been signalled or has another thread for its owner; a build owned is the only one of
        its generation. */
    method DecideRegion(ghost t: nat, now: Moment, newEvent: nat) returns (d: Decision)
      requires Valid() && PcOf(world, t).Entered? && PcOf(world, t).now == now && newEvent == world.nextEvent
      modifies this
      ensures Valid() && world == Next(old(world), Advance(t, false))
      ensures d.Reuse? ==> Covers(PcOf(old(world), t).begun, d.fold)
      ensures d.Join? ==> d.done in world.set_ || exists u :: u != t && OwnedBy(world, d.done, u)
      ensures d.Own? ==>
                forall u :: InFlight(PcOf(world, u)) && PcOf(world, u).role.generation == d.generation ==> u == t
      ensures d.Reuse? <==> old(snapshot).Some? && old(snapshot).value.generation == generation
                            && now < old(snapshot).value.takenAt + SNAPSHOT_REUSE
      ensures var begun := PcOf(old(world), t).begun;
              PcOf(world, t) == match d
                                case Reuse(fold) => Returned(begun, fold)
                                case Join(g, done) => Waiting(begun, g, done)
                                case Own(g, done) => Building(begun, Owner(g, done, now))
    {
      ghost var before := Fields();
      DecisionSound(world, t, now);
      ReachedNext(world, Advance(t, false));
      world := Move(world, t, false);
      if snapshot.Some? && snapshot.value.generation == generation && now < snapshot.value.takenAt + SNAPSHOT_REUSE {
        d := Reuse(snapshot.value.fold);
      } else if building.Some? && building.value.generation == generation {
        d := Join(generation, building.value.done);
      } else {
        building := Some(Build(generation, newEvent));
        d := Own(generation, newEvent);
      }
      assert (Fields(), d) == Decide(before, now, newEvent);
    }

    /** What a waiter finds after the build it joined: a fold that holds all that had been
        notified when its call began, or nothing of its generation. */
    method RecheckRegion(ghost t: nat, waited: nat) returns (r: Option<Fold>)
      requires Valid() && PcOf(world, t).Rechecking? && PcOf(world, t).generation == waited
      modifies this`world
      ensures Valid() && world == Next(old(world), Advance(t, false))
      ensures r.Some? ==> Covers(PcOf(old(world), t).begun, r.value)
      ensures r.Some? <==> snapshot.Some? && snapshot.value.generation == waited
      ensures var begun := PcOf(old(world), t).begun;
              PcOf(world, t) == if r.Some? then Returned(begun, r.value) else Building(begun, Solo)
    {
      ReachedNext(world, Advance(t, false));
      ReachedSound(Move(world, t, false));
      assert ThreadFresh(Move(world, t, false), PcOf(Move(world, t, false), t));
      world := Move(world, t, false);
      r := None;
      if snapshot.Some? && snapshot.value.generation == waited {
        r := Some(snapshot.value.fold);
      }
    }

    /** The extension base never gets shorter, and holds all that had been notified when the
        call began that stores it. What is retained is young again from now on. */
    method UpdatePriorFold(ghost t: nat, fold: Fold, now: Moment)
      requires Valid() && PcOf(world, t).Storing? && PcOf(world, t).fold == fold && world.clock == now
      modifies this
      ensures Valid() && world == Next(old(world), Advance(t, false))
      ensures priorFold.Some? && Covers(PcOf(old(world), t).begun, priorFold.value)
      ensures old(priorFold).Some? ==> priorFold.value >= old(priorFold).value
      ensures priorFold == Some(fold) || priorFold == old(priorFold)
      ensures lastBuildAt == now
      ensures snapshot == old(snapshot) && building == old(building)
    {
      ReachedSound(world);
      assert ThreadFresh(world, PcOf(world, t));
      ReachedNext(world, Advance(t, false));
      world := Move(world, t, false);
      if priorFold.None? || fold >= priorFold.value {
        priorFold := Some(fold);
      }
      lastBuildAt := now;
    }

    /** A fold is published only if no append was notified since its build began; whatever
        the slot holds then covers everything notified so far. */
    method PublishRegion(ghost t: nat, built: nat, now: Moment, fold: Fold)
      requires Valid() && PcOf(world, t).Publishing? && PcOf(world, t).fold == fold
      requires PcOf(world, t).role.Owner? && PcOf(world, t).role.generation == built && PcOf(world, t).role.now == now
      modifies this
      ensures Valid() && world == Next(old(world), Advance(t, false))
      ensures snapshot.Some? ==> Covers(world.notified, snapshot.value.fold)
      ensures built < generation ==> snapshot == old(snapshot)
      ensures built >= generation ==> built == generation && snapshot == Some(Snapshot(built, now, fold))
      ensures priorFold == old(priorFold) && building == old(building)
    {
      ReachedSound(world);
      assert ThreadFresh(world, PcOf(world, t));
      ReachedNext(world, Advance(t, false));
      ReachedSound(Move(world, t, false));
      world := Move(world, t, false);
      if built == generation {
        snapshot := Some(Snapshot(built, now, fold));
      }
    }

    /** Afterwards the slot does not hold this build; it changes only if it did, and never
        when it holds the build of another owner in flight. */
    method ClearRegion(ghost t: nat, done: nat)
      requires Valid() && PcOf(world, t).Clearing? && PcOf(world, t).role.Owner? && PcOf(world, t).role.done == done
      modifies this
      ensures Valid() && world == Next(old(world), Advance(t, false))
      ensures building.None? || (building == old(building) && building.value.done != done)
      ensures building != old(building) ==> old(building).value.done == done
      ensures forall u ::
                (u != t && InFlight(PcOf(old(world), u)) && old(building).Some?
                 && old(building).value.done == PcOf(old(world), u).role.done) ==> building == old(building)
      ensures snapshot == old(snapshot) && priorFold == old(priorFold)
    {
      forall u | u != t && InFlight(PcOf(world, u))
        ensures PcOf(world, u).role.done != done
      {
        OthersKeepSlot(world, t, u);
      }
      ReachedNext(world, Advance(t, false));
      world := Move(world, t, false);
      if building.Some? && building.value.done == done {
        building := None;
      }
    }

    /** No snapshot outlives an append, and no build in flight can publish one any more. */
    method Append(ghost e: nat)
      requires Valid() && Enabled(world, Notify(e))
      modifies this
      ensures Valid() && world == Next(old(world), Notify(e))
      ensures snapshot.None? && forall u :: InFlight(PcOf(world, u)) ==> PcOf(world, u).role.generation < generation
      ensures priorFold == old(priorFold) && building == old(building)
    {
      ReachedSound(world);
      assert forall u :: InFlight(PcOf(world, u)) ==> OwnerOk(world, world.threads[u]);
      ReachedNext(world, Notify(e));
      world := Next(world, Notify(e));
      generation := generation + 1;
      snapshot := None;
    }

    /** Afterwards exactly one timer is pending, the one before if there was one. */
    method ArmExpiry(ghost a: Action, newTimer: nat)
      requires Valid() && newTimer == world.nextTimer && Enabled(world, a)
      requires a.Rearm? || (a.Advance? && (PcOf(world, a.t).Arming? || PcOf(world, a.t).ArmingAgain?))
      modifies this
      ensures Valid() && world == Next(old(world), a)
      ensures timer.Some? && world.live == {timer.value}
      ensures old(timer).Some? ==> timer == old(timer)
      ensures world.rearming == old(world).rearming - if a.Rearm? then 1 else 0
    {
      ReachedNext(world, a);
      ReachedSound(Next(world, a));
      world := Next(world, a);
      if timer.None? {
        timer := Some(newTimer);
      }
      OneTimer(world);
    }

    /** Afterwards no timer is pending, and nothing is retained unless a re-arm is owed; once
        nothing was built for the reuse time, nothing is retained at all. */
    method ExpireSnapshot(ghost id: nat, now: Moment) returns (rearm: bool)
      requires Valid() && Enabled(world, Fire(id)) && world.clock == now
      modifies this
      ensures Valid() && world == Next(old(world), Fire(id))
      ensures timer.None? && world.live == {}
      ensures snapshot.Some? || priorFold.Some? ==> rearm && world.rearming > 0
      ensures now >= old(lastBuildAt) + SNAPSHOT_REUSE ==> snapshot.None? && priorFold.None?
      ensures rearm ==> snapshot == old(snapshot) && priorFold == old(priorFold)
    {
      ReachedSound(world);
      ReachedNext(world, Fire(id));
      ReachedSound(Next(world, Fire(id)));
      NoTimer(Next(world, Fire(id)));
      world := Next(world, Fire(id));
      timer := None;
      if lastBuildAt == 0 {
        return false;
      }
      if now >= lastBuildAt + SNAPSHOT_REUSE {
        snapshot, priorFold := None, None;
        return false;
      }
      rearm := true;
    }
  }

  lemma OneTimer(s: State)
    requires TimerInv(s) && s.shared.timer.Some?
    ensures s.live == {s.shared.timer.value}
  {
  }

  lemma NoTimer(s: State)
    requires TimerInv(s) && s.shared.timer.None?
    ensures s.live == {}
  {
  }
}
