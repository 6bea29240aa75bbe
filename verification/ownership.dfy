/** Which daemon owns a memory home: the lifetime lock of the operating system, the
    discovery file daemon.json, and the clients' breakable spawn lock. Any number of
    processes start, stop and crash, and process ids are reused. */
module Ownership {
  import opened EventLog

  datatype Pc =
    | Starting
    | Refused    // the lock was taken; probe the advertised daemon
    | Retrying   // the grace period
    | Owning     // past the lock, nothing advertised yet
    | Written    // daemon.json is written, the clean-up is not yet in force
    | Serving
    | Closing    // the server loop ended
    | Matched    // daemon.json was read and names this pid
    | Releasing
    | Exited

  /** `locking` is false for a daemon of a release that knew no lifetime lock. */
  datatype Process = Process(pid: nat, locking: bool, pc: Pc)

  /** daemon.json: the pid it names, and whose details (url, start time) it holds. */
  datatype Discovery = Absent | Names(pid: nat, writer: nat)

  datatype ClientPc = Away | Broke | Spawning | Polling

  datatype State = State(
    procs: seq<Process>,
    owner: Option<nat>,      // holder of the operating-system lock
    file: Discovery,
    clients: seq<ClientPc>,
    spawnFile: bool)         // daemon.lock exists

  datatype Action =
    | TryLock
    | Probe(reachable: bool)
    | Deadline
    | WriteJson
    | Serve
    | Stop
    | ReadJson
    | Unlink
    | Release
    | Interrupt              // an exception that skips the rest up to the release of the lock
    | Die                    // SIGKILL, or any death that runs no cleanup

  datatype ClientAction =
    | Create                 // O_CREAT | O_EXCL succeeds
    | Lose
    | BreakStale             // the lock file looked older than 30 seconds
    | Finish                 // the finally clause unlinks whatever lock file is there
    | ClientDies

  datatype Step =
    | Launch(pid: nat, locking: bool)
    | Daemon(p: nat, a: Action)
    | Client(c: nat, ca: ClientAction)

  predicate Live(p: Process) {
    !p.pc.Exited?
  }

  ghost predicate Enabled(s: State, step: Step) {
    match step
    case Launch(pid, locking) => forall i :: 0 <= i < |s.procs| && Live(s.procs[i]) ==> s.procs[i].pid != pid
    case Daemon(p, a) => p < |s.procs| && Can(s, p, a)
    case Client(c, ca) =>
      && c < |s.clients|
      && match ca
         case Create => (s.clients[c].Away? || s.clients[c].Broke?) && !s.spawnFile
         case Lose => (s.clients[c].Away? || s.clients[c].Broke?) && s.spawnFile
         case BreakStale => s.clients[c].Away? && s.spawnFile
         case Finish => s.clients[c].Spawning? || s.clients[c].Polling?
         case ClientDies => true
  }

  ghost predicate Can(s: State, p: nat, a: Action)
    requires p < |s.procs|
  {
    var proc := s.procs[p];
    match a
    case TryLock => proc.pc.Starting? || proc.pc.Retrying?
    case Probe(_) => proc.pc.Refused?
    case Deadline => proc.pc.Retrying?
    case WriteJson => proc.pc.Owning?
    case Serve => proc.pc.Written?
    case Stop => proc.pc.Serving?
    case ReadJson => proc.pc.Closing?
    case Unlink => proc.pc.Matched?
    case Release => proc.pc.Releasing?
    case Interrupt => proc.pc.Owning? || proc.pc.Written? || proc.pc.Closing? || proc.pc.Matched?
    case Die => Live(proc)
  }

  function PcAfter(s: State, p: nat, a: Action): Pc
    requires p < |s.procs|
  {
    var proc := s.procs[p];
    match a
    case TryLock =>
      if !proc.locking || s.owner.None? then Owning
      else if proc.pc.Starting? then Refused else Retrying
    case Probe(reachable) => if reachable then Exited else Retrying
    case Deadline => Exited
    case WriteJson => Written
    case Serve => Serving
    case Stop => Closing
    case ReadJson => if s.file.Names? && s.file.pid == proc.pid then Matched else Releasing
    case Unlink => Releasing
    case Release => Exited
    case Interrupt => Releasing
    case Die => Exited
  }

  function OwnerAfter(s: State, p: nat, a: Action): Option<nat>
    requires p < |s.procs|
  {
    match a
    case TryLock => if s.procs[p].locking && s.owner.None? then Some(p) else s.owner
    case Release => if s.owner == Some(p) then None else s.owner
    case Die => if s.owner == Some(p) then None else s.owner
    case _ => s.owner
  }

  function FileAfter(s: State, p: nat, a: Action): Discovery
    requires p < |s.procs|
  {
    match a
    case WriteJson => Names(s.procs[p].pid, p)
    case Unlink => Absent
    case _ => s.file
  }

  function Next(s: State, step: Step): State {
    match step
    case Launch(pid, locking) => s.(procs := s.procs + [Process(pid, locking, Starting)])
    case Daemon(p, a) =>
      if p >= |s.procs| then s
      else s.(procs := s.procs[p := s.procs[p].(pc := PcAfter(s, p, a))],
              owner := OwnerAfter(s, p, a), file := FileAfter(s, p, a))
    case Client(c, ca) =>
      if c >= |s.clients| then s
      else
        match ca
        case Create => s.(clients := s.clients[c := Spawning], spawnFile := true)
        case Lose => s.(clients := s.clients[c := Polling])
        case BreakStale => s.(clients := s.clients[c := Broke], spawnFile := false)
        case Finish =>
          s.(clients := s.clients[c := Away], spawnFile := s.spawnFile && !s.clients[c].Spawning?)
        case ClientDies => s.(clients := s.clients[c := Away])
  }

  ghost predicate Init(s: State) {
    s.procs == [] && s.owner.None? && s.file.Absent? && !s.spawnFile
    && forall c :: 0 <= c < |s.clients| ==> s.clients[c].Away?
  }

  ghost predicate Run(states: seq<State>, steps: seq<Step>) {
    && |states| == |steps| + 1
    && Init(states[0])
    && forall i :: 0 <= i < |steps| ==> Enabled(states[i], steps[i]) && states[i + 1] == Next(states[i], steps[i])
  }

  /** Every daemon launched in the run takes the lifetime lock. */
  ghost predicate AllLocking(steps: seq<Step>) {
    forall i :: 0 <= i < |steps| && steps[i].Launch? ==> steps[i].locking
  }

  // ---------------------------------------------------------------------------
  // Safety of the daemons, whatever the clients do
  // ---------------------------------------------------------------------------

  predicate Owns(pc: Pc) {
    pc.Owning? || pc.Written? || pc.Serving? || pc.Closing? || pc.Matched? || pc.Releasing?
  }

  /** The daemon has advertised itself and not yet taken that back. */
  predicate Advertised(pc: Pc) {
    pc.Written? || pc.Serving? || pc.Closing? || pc.Matched?
  }

  ghost predicate LockKept(s: State) {
    forall i :: 0 <= i < |s.procs| ==> s.procs[i].locking && (Owns(s.procs[i].pc) <==> s.owner == Some(i))
  }

  ghost predicate FileKept(s: State) {
    forall i :: 0 <= i < |s.procs| && Advertised(s.procs[i].pc) ==> s.file == Names(s.procs[i].pid, i)
  }

  lemma StepKeepsBoth(s: State, step: Step)
    requires Enabled(s, step) && (step.Launch? ==> step.locking)
    requires LockKept(s) && FileKept(s) && (s.owner.Some? ==> s.owner.value < |s.procs|)
    ensures var s' := Next(s, step);
            LockKept(s') && FileKept(s') && (s'.owner.Some? ==> s'.owner.value < |s'.procs|)
  {
    var s' := Next(s, step);
    if step.Daemon? {
      forall i | 0 <= i < |s'.procs|
        ensures s'.procs[i].locking && (Owns(s'.procs[i].pc) <==> s'.owner == Some(i))
        ensures Advertised(s'.procs[i].pc) ==> s'.file == Names(s'.procs[i].pid, i)
      {
        assert s.procs[i].locking && (Owns(s.procs[i].pc) <==> s.owner == Some(i));
      }
    }
  }

  lemma {:induction false} Always(states: seq<State>, steps: seq<Step>, i: nat)
    requires Run(states, steps) && AllLocking(steps) && i < |states|
    ensures LockKept(states[i]) && FileKept(states[i])
    ensures states[i].owner.Some? ==> states[i].owner.value < |states[i].procs|
  {
    if i > 0 {
      Always(states, steps, i - 1);
      StepKeepsBoth(states[i - 1], steps[i - 1]);
    }
  }

  /** However clients race and whoever crashes, two daemons never own the home together. */
  lemma AtMostOneOwner(states: seq<State>, steps: seq<Step>, i: nat, p: nat, q: nat)
    requires Run(states, steps) && AllLocking(steps) && i < |states|
    requires p < |states[i].procs| && q < |states[i].procs|
    requires Owns(states[i].procs[p].pc) && Owns(states[i].procs[q].pc)
    ensures p == q
  {
    Always(states, steps, i);
  }

  /** While a daemon serves, daemon.json names it and holds its own details, even if an
      earlier daemon with the same pid crashed and left its file behind. */
  lemma ServingIsAdvertised(states: seq<State>, steps: seq<Step>, i: nat, p: nat)
    requires Run(states, steps) && AllLocking(steps) && i < |states|
    requires p < |states[i].procs| && states[i].procs[p].pc.Serving?
    ensures states[i].file == Names(states[i].procs[p].pid, p)
  {
    Always(states, steps, i);
  }

  /** The two steps, read then unlink, never remove a file that describes another daemon. */
  lemma UnlinksOnlyItsOwn(states: seq<State>, steps: seq<Step>, i: nat)
    requires Run(states, steps) && AllLocking(steps) && i < |steps|
    requires steps[i].Daemon? && steps[i].a.Unlink?
    ensures states[i].file == Names(states[i].procs[steps[i].p].pid, steps[i].p)
    ensures forall q :: 0 <= q < |states[i].procs| && states[i].procs[q].pc.Serving? ==> q == steps[i].p
  {
    Always(states, steps, i);
  }

  /** And a daemon that ends in order leaves no file behind: its own read always matches. */
  lemma OrderlyEndCleansUp(states: seq<State>, steps: seq<Step>, i: nat)
    requires Run(states, steps) && AllLocking(steps) && i < |steps|
    requires steps[i].Daemon? && steps[i].a.ReadJson?
    ensures states[i + 1].procs[steps[i].p].pc.Matched?
  {
    Always(states, steps, i);
    assert Enabled(states[i], steps[i]) && states[i + 1] == Next(states[i], steps[i]);
  }

  predicate CutsShort(step: Step, p: nat) {
    step == Daemon(p, Die) || step == Daemon(p, Interrupt)
  }

  /** The daemon was killed or interrupted before its clean-up was done. */
  ghost predicate CutShort(steps: seq<Step>, i: nat, p: nat)
    requires i <= |steps|
  {
    exists j :: 0 <= j < i && CutsShort(steps[j], p)
  }

  /** The daemon only has its lock still to release, if that. */
  predicate Ending(s: State, p: nat) {
    p < |s.procs| && (s.procs[p].pc.Releasing? || s.procs[p].pc.Exited?)
  }

  lemma StepKeepsEnding(s: State, step: Step, p: nat)
    requires Enabled(s, step) && (Ending(s, p) || CutsShort(step, p))
    ensures Ending(Next(s, step), p)
  {
  }

  lemma {:induction false} CutStaysCut(states: seq<State>, steps: seq<Step>, i: nat, p: nat)
    requires Run(states, steps) && i < |states| && CutShort(steps, i, p)
    ensures Ending(states[i], p)
  {
    var j :| 0 <= j < i && CutsShort(steps[j], p);
    if j < i - 1 {
      CutStaysCut(states, steps, i - 1, p);
    }
    StepKeepsEnding(states[i - 1], steps[i - 1], p);
  }

  /** The file holds the details of a daemon that advertises itself, or of one that was
      cut short. */
  predicate HasWriter(s: State, wasCut: bool) {
    s.file.Names? ==>
      && s.file.writer < |s.procs| && s.procs[s.file.writer].pid == s.file.pid
      && (Advertised(s.procs[s.file.writer].pc) || wasCut)
  }

  lemma StepKeepsWriter(s: State, step: Step, before: bool, after: bool)
    requires Enabled(s, step) && FileKept(s) && HasWriter(s, before)
    requires before && Next(s, step).file == s.file ==> after
    requires s.file.Names? && CutsShort(step, s.file.writer) ==> after
    ensures HasWriter(Next(s, step), after)
  {
  }

  lemma {:induction false} WriterAlways(states: seq<State>, steps: seq<Step>, i: nat)
    requires Run(states, steps) && AllLocking(steps) && i < |states|
    ensures states[i].file.Names? ==> HasWriter(states[i], CutShort(steps, i, states[i].file.writer))
  {
    if i > 0 {
      WriterAlways(states, steps, i - 1);
      Always(states, steps, i - 1);
      var s, step := states[i - 1], steps[i - 1];
      var before := s.file.Names? && CutShort(steps, i - 1, s.file.writer);
      var after := states[i].file.Names? && CutShort(steps, i, states[i].file.writer);
      StepKeepsWriter(s, step, before, after);
    }
  }

  /** daemon.json describes a daemon that no longer advertises itself if and only if that
      one was killed or interrupted. */
  lemma StaleFileHasDeadWriter(states: seq<State>, steps: seq<Step>, i: nat)
    requires Run(states, steps) && AllLocking(steps) && i < |states| && states[i].file.Names?
    ensures var f := states[i].file;
            && f.writer < |states[i].procs| && states[i].procs[f.writer].pid == f.pid
            && (!Advertised(states[i].procs[f.writer].pc) <==> CutShort(steps, i, f.writer))
  {
    WriterAlways(states, steps, i);
    if CutShort(steps, i, states[i].file.writer) {
      CutStaysCut(states, steps, i, states[i].file.writer);
    }
  }

  /** It read daemon.json, and the file named its pid. */
  ghost predicate ReadItsOwn(states: seq<State>, steps: seq<Step>, i: nat, p: nat)
    requires |states| == |steps| + 1 && i <= |steps|
  {
    exists j :: 0 <= j < i && NamedAt(states[j], steps[j], p)
  }

  predicate NamedAt(s: State, step: Step, p: nat) {
    step == Daemon(p, ReadJson) && p < |s.procs| && s.file.Names? && s.file.pid == s.procs[p].pid
  }

  /** With or without the lifetime lock, a daemon goes on to unlink daemon.json only after it
      has read its own pid there. */
  lemma {:induction false} UnlinksAfterReading(states: seq<State>, steps: seq<Step>, i: nat, p: nat)
    requires Run(states, steps) && i < |states| && p < |states[i].procs| && states[i].procs[p].pc.Matched?
    ensures ReadItsOwn(states, steps, i, p)
  {
    if i > 0 {
      var s, step := states[i - 1], steps[i - 1];
      assert Enabled(s, step) && states[i] == Next(s, step);
      if p < |s.procs| && s.procs[p].pc.Matched? {
        UnlinksAfterReading(states, steps, i - 1, p);
      } else {
        assert NamedAt(s, step, p);
      }
    }
  }

  // ---------------------------------------------------------------------------
  // Who gives up
  // ---------------------------------------------------------------------------

  ghost predicate Took(steps: seq<Step>, i: nat, p: nat, a: Action)
    requires i <= |steps|
  {
    exists j :: 0 <= j < i && steps[j] == Daemon(p, a)
  }

  /** Why a daemon may have come where it stands: each way to the end without having owned the
      home, and each way to a retry, goes through the step that the answer of the probe
      calls for, and there is one probe. */
  ghost predicate Motivated(states: seq<State>, steps: seq<Step>, i: nat, p: nat)
    requires i < |states| && |states| == |steps| + 1 && p < |states[i].procs|
  {
    match states[i].procs[p].pc
    case Starting => !Took(steps, i, p, Probe(true)) && !Took(steps, i, p, Probe(false))
    case Refused => !Took(steps, i, p, Probe(true)) && !Took(steps, i, p, Probe(false))
    case Retrying => Took(steps, i, p, Probe(false))
    case Exited =>
      || Took(steps, i, p, Probe(true))
      || (Took(steps, i, p, Probe(false)) && Took(steps, i, p, Deadline))
      || Took(steps, i, p, Die) || Took(steps, i, p, Release)
    case _ => true
  }

  lemma TookStays(steps: seq<Step>, i: nat, p: nat, a: Action)
    requires i < |steps|
    ensures Took(steps, i + 1, p, a) <==> Took(steps, i, p, a) || steps[i] == Daemon(p, a)
  {
  }

  lemma StaysMotivated(states: seq<State>, steps: seq<Step>, i: nat, p: nat)
    requires Run(states, steps) && i < |steps| && p < |states[i].procs| && Motivated(states, steps, i, p)
    ensures p < |states[i + 1].procs| && Motivated(states, steps, i + 1, p)
  {
    assert Enabled(states[i], steps[i]) && states[i + 1] == Next(states[i], steps[i]);
    TookStays(steps, i, p, Probe(true));
    TookStays(steps, i, p, Probe(false));
    TookStays(steps, i, p, Deadline);
    TookStays(steps, i, p, Die);
    TookStays(steps, i, p, Release);
  }

  /** No home is left without a daemon by a premature withdrawal: one that ends without having
      owned it was killed, or found another one answering, or found none answering and tried
      until the deadline. */
  lemma {:induction false} GivesUpForAReason(states: seq<State>, steps: seq<Step>, i: nat, p: nat)
    requires Run(states, steps) && i < |states| && p < |states[i].procs|
    ensures Motivated(states, steps, i, p)
  {
    if i > 0 {
      var step := steps[i - 1];
      assert Enabled(states[i - 1], step) && states[i] == Next(states[i - 1], step);
      if p < |states[i - 1].procs| {
        GivesUpForAReason(states, steps, i - 1, p);
        StaysMotivated(states, steps, i - 1, p);
      } else {
        NothingTaken(states, steps, i, p);
      }
    }
  }

  lemma {:induction false} ProcsGrow(states: seq<State>, steps: seq<Step>, j: nat, i: nat)
    requires Run(states, steps) && j <= i < |states|
    ensures |states[j].procs| <= |states[i].procs|
  {
    if j < i {
      ProcsGrow(states, steps, j, i - 1);
      assert states[i] == Next(states[i - 1], steps[i - 1]);
    }
  }

  /** A daemon takes no step before it is launched, nor in being launched. */
  lemma NothingTaken(states: seq<State>, steps: seq<Step>, i: nat, p: nat)
    requires Run(states, steps) && 0 < i < |states| && |states[i - 1].procs| <= p
    ensures forall a :: !Took(steps, i, p, a)
  {
    forall j, a | 0 <= j < i
      ensures steps[j] != Daemon(p, a)
    {
      ProcsGrow(states, steps, j, i - 1);
      assert Enabled(states[j], steps[j]);
    }
  }

  /** And one that is still trying gets the home as soon as it is free. */
  lemma RetryTakesOver(s: State, p: nat)
    requires p < |s.procs| && (s.procs[p].pc.Starting? || s.procs[p].pc.Retrying?) && s.owner.None?
    ensures Enabled(s, Daemon(p, TryLock)) && Owns(Next(s, Daemon(p, TryLock)).procs[p].pc)
    ensures s.procs[p].locking ==> Next(s, Daemon(p, TryLock)).owner == Some(p)
  {
  }

  // ---------------------------------------------------------------------------
  // What the lifetime lock is needed for
  // ---------------------------------------------------------------------------

  lemma OneMoreStep(states: seq<State>, steps: seq<Step>, step: Step) returns (more: seq<State>, acts: seq<Step>)
    requires Run(states, steps) && Enabled(states[|steps|], step)
    ensures more == states + [Next(states[|steps|], step)] && acts == steps + [step]
    ensures Run(more, acts)
  {
    more, acts := states + [Next(states[|steps|], step)], steps + [step];
    forall i | 0 <= i < |acts|
      ensures Enabled(more[i], acts[i]) && more[i + 1] == Next(more[i], acts[i])
    {
      if i < |steps| {
        assert more[i] == states[i] && more[i + 1] == states[i + 1] && acts[i] == steps[i];
      }
    }
  }

  lemma StartUp(s: State) returns (states: seq<State>, steps: seq<Step>)
    requires s == State([], None, Absent, [], false)
    ensures Run(states, steps) && states[0] == s
    ensures steps == [Launch(1, true), Daemon(0, TryLock), Daemon(0, WriteJson)]
    ensures states[3] == State([Process(1, true, Written)], Some(0), Names(1, 0), [], false)
  {
    states, steps := [s], [];
    states, steps := OneMoreStep(states, steps, Launch(1, true));
    assert states[1].procs == [Process(1, true, Starting)];
    states, steps := OneMoreStep(states, steps, Daemon(0, TryLock));
    states, steps := OneMoreStep(states, steps, Daemon(0, WriteJson));
    assert states[3].procs == [Process(1, true, Written)];
  }

  /** Such a file is left behind: an interrupt right after the write, or a second one while
      closing, ends the daemon with its file in place. */
  lemma InterruptLeavesTheFile()
    ensures exists states: seq<State>, steps: seq<Step> ::
              && Run(states, steps) && AllLocking(steps) && |steps| == 5
              && states[5].procs == [Process(1, true, Exited)] && states[5].file == Names(1, 0)
              && forall j :: 0 <= j < 5 ==> steps[j] != Daemon(0, Die)
  {
    var states, steps := StartUp(State([], None, Absent, [], false));
    states, steps := OneMoreStep(states, steps, Daemon(0, Interrupt));
    states, steps := OneMoreStep(states, steps, Daemon(0, Release));
    assert states[5].procs == [Process(1, true, Exited)];
  }

  lemma ServeAndStop(s: State) returns (states: seq<State>, steps: seq<Step>)
    requires s == State([], None, Absent, [], false)
    ensures Run(states, steps) && |steps| == 6 && states[0] == s
    ensures states[6] == State([Process(1, true, Matched)], Some(0), Names(1, 0), [], false)
  {
    states, steps := StartUp(s);
    states, steps := OneMoreStep(states, steps, Daemon(0, Serve));
    states, steps := OneMoreStep(states, steps, Daemon(0, Stop));
    states, steps := OneMoreStep(states, steps, Daemon(0, ReadJson));
    assert states[6].procs == [Process(1, true, Matched)];
  }

  /** The pid check alone is not enough. Next to a daemon that takes no lock, the file can
      change hands between the read and the unlink, and a serving daemon loses its file. */
  lemma PidCheckNeedsTheLock()
    ensures exists states: seq<State>, steps: seq<Step> ::
              && Run(states, steps) && |steps| == 11
              && |states[11].procs| == 2 && states[11].procs[1].pc.Serving? && states[11].file.Absent?
  {
    var states, steps := ServeAndStop(State([], None, Absent, [], false));
    states, steps := OneMoreStep(states, steps, Launch(2, false));
    states, steps := OneMoreStep(states, steps, Daemon(1, TryLock));
    states, steps := OneMoreStep(states, steps, Daemon(1, WriteJson));
    states, steps := OneMoreStep(states, steps, Daemon(1, Serve));
    states, steps := OneMoreStep(states, steps, Daemon(0, Unlink));
  }

  // ---------------------------------------------------------------------------
  // The spawn lock
  // ---------------------------------------------------------------------------

  ghost predicate OneSpawner(s: State) {
    && (forall c :: 0 <= c < |s.clients| && s.clients[c].Spawning? ==> s.spawnFile)
    && (forall c, d :: 0 <= c < d < |s.clients| ==> !(s.clients[c].Spawning? && s.clients[d].Spawning?))
  }

  /** A lock file is broken while some client is still spawning. */
  ghost predicate LiveBreak(s: State, step: Step) {
    step.Client? && step.ca.BreakStale? && exists c :: 0 <= c < |s.clients| && s.clients[c].Spawning?
  }

  ghost predicate NoLiveBreaks(states: seq<State>, steps: seq<Step>)
    requires |states| == |steps| + 1
  {
    forall i :: 0 <= i < |steps| ==> !LiveBreak(states[i], steps[i])
  }

  /** The last thing the client did. */
  function LastOf(steps: seq<Step>, i: nat, c: nat): Option<ClientAction>
    requires i <= |steps|
  {
    if i == 0 then None
    else if steps[i - 1].Client? && steps[i - 1].c == c then Some(steps[i - 1].ca)
    else LastOf(steps, i - 1, c)
  }

  /** A client spawns exactly from creating the lock file until it finishes or dies, polls
      from finding the file there, and may try again only after breaking the file. */
  lemma {:induction false} ClientStands(states: seq<State>, steps: seq<Step>, i: nat, c: nat)
    requires Run(states, steps) && i < |states| && c < |states[i].clients|
    ensures var last := LastOf(steps, i, c);
            && (states[i].clients[c].Spawning? <==> last == Some(Create))
            && (states[i].clients[c].Polling? <==> last == Some(Lose))
            && (states[i].clients[c].Broke? <==> last == Some(BreakStale))
  {
    if i > 0 {
      ClientStands(states, steps, i - 1, c);
      assert Enabled(states[i - 1], steps[i - 1]) && states[i] == Next(states[i - 1], steps[i - 1]);
    }
  }

  /** Clients spawn one at a time as long as the lock files broken as stale are those of
      clients that died ... */
  lemma {:induction false} SpawnExclusiveUnbroken(states: seq<State>, steps: seq<Step>, i: nat)
    requires Run(states, steps) && NoLiveBreaks(states, steps) && i < |states|
    ensures OneSpawner(states[i])
  {
    if i > 0 {
      SpawnExclusiveUnbroken(states, steps, i - 1);
      var s, step := states[i - 1], steps[i - 1];
      assert Enabled(s, step) && states[i] == Next(s, step) && !LiveBreak(s, step);
    }
  }

  /** ... and no longer than that: whoever breaks the lock of a client still spawning can
      spawn right away, next to it. */
  lemma LiveBreakAdmitsTwo(s: State, b: nat, c: nat)
    requires Enabled(s, Client(b, BreakStale)) && c < |s.clients| && s.clients[c].Spawning?
    ensures var broken := Next(s, Client(b, BreakStale));
            && Enabled(broken, Client(b, Create)) && b != c
            && Next(broken, Client(b, Create)).clients[b].Spawning?
            && Next(broken, Client(b, Create)).clients[c].Spawning?
  {
    var broken := Next(s, Client(b, BreakStale));
    assert broken.clients[b].Broke? && broken.clients[c].Spawning?;
  }

  /** And the cleanup of the slow spawner then unlinks the lock of the client that took
      over, so a third one gets in. */
  lemma BrokenLockAdmitsTwo(s: State)
    requires s == State([], None, Absent, [Away, Away, Away], false)
    ensures exists states: seq<State>, steps: seq<Step> ::
              && Run(states, steps) && |states| == 6 && states[0] == s
              && states[3].clients == [Spawning, Spawning, Away]
              && states[5].clients == [Away, Spawning, Spawning]
  {
    var steps := [Client(0, Create), Client(1, BreakStale), Client(1, Create), Client(0, Finish), Client(2, Create)];
    var s1 := Next(s, steps[0]);
    var s2 := Next(s1, steps[1]);
    var s3 := Next(s2, steps[2]);
    var s4 := Next(s3, steps[3]);
    var s5 := Next(s4, steps[4]);
    assert Run([s, s1, s2, s3, s4, s5], steps);
  }
}
