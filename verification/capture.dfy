/** Crash-safe capture: a spool on disk, a bounded queue, one drain thread, and the replay of
    orphans at mount. Every step can be followed by a crash that drops all but the disk. */
module Capture {
  import opened EventLog

  type Id = nat

  const QUEUE_MAXSIZE := 1024

  datatype Entry = Good(emit: bool) | Corrupt

  datatype LogRecord = DrawerFiled(id: Id) | CaptureFailed(id: Id)

  /** `fut` is the completion future wired to the job, when events are wanted. */
  datatype Job = Job(id: Id, emit: bool, spooled: bool, fut: Option<nat>)

  /** Where the drain thread stands with its job. */
  datatype Stage =
    | Popped
    | Stored          // the daemon has the drawer
    | FiledLogged
    | FiledPosted     // the future's result is posted; the spool entry goes next
    | Failing         // filing (or what follows it) raised
    | FailedLogged
    | Excepted        // the worker's last-resort guard
    | ExceptedLogged
    | ExceptedPosted

  datatype Work = Work(job: Job, stage: Stage)

  datatype Future = Future(done: bool, settles: nat)

  datatype Replay = Replay(completed: set<Id>, todo: seq<Id>)

  /** `spooled` remembers each id ever spooled and whether its job wants events; `used`
      all ids ever seen. On disk: spool, log and store. */
  datatype State = State(
    spool: map<Id, Entry>,
    log: set<LogRecord>,
    store: set<Id>,
    hot: Option<Job>,
    queue: seq<Job>,
    work: Option<Work>,
    replay: Option<Replay>,
    futures: seq<Future>,
    posted: seq<nat>,
    spooled: map<Id, bool>,
    used: set<Id>)

  datatype Step =
    | Spool(id: Id, emit: bool, written: bool)
    | Enqueue
    | Get
    | File(ok: bool)
    | RaiseAfterFiling
    | WorkerException
    | Log(written: bool)
    | Post
    | Finish
    | RunCallback
    | CancelTask(f: nat)
    | StartReplay(completed: set<Id>, todo: seq<Id>)
    | ReplayNext
    | Foreign(id: Id)   // somebody leaves a malformed file in the spool
    | Crash

  predicate Logged(log: set<LogRecord>, id: Id) {
    DrawerFiled(id) in log || CaptureFailed(id) in log
  }

  // ---------------------------------------------------------------------------
  // Steps
  // ---------------------------------------------------------------------------

  predicate ToBeLogged(stage: Stage) {
    stage.Stored? || stage.Failing? || stage.Excepted?
  }

  predicate ToBePosted(stage: Stage) {
    stage.FiledLogged? || stage.FailedLogged? || stage.ExceptedLogged?
  }

  ghost predicate Enabled(s: State, step: Step) {
    match step
    case Spool(id, _, _) => s.hot.None? && id !in s.used
    case Enqueue => s.hot.Some?
    case Get => s.work.None? && s.queue != []
    case File(_) => s.work.Some? && s.work.value.stage.Popped?
    case RaiseAfterFiling => s.work.Some? && s.work.value.stage.Stored?
    case WorkerException => s.work.Some? && s.work.value.stage.Popped?
    case Log(_) => s.work.Some? && ToBeLogged(s.work.value.stage)
    case Post => s.work.Some? && ToBePosted(s.work.value.stage)
    case Finish => s.work.Some? && (s.work.value.stage.FiledPosted? || s.work.value.stage.ExceptedPosted?)
    case RunCallback => s.posted != [] && s.posted[0] < |s.futures|
    case CancelTask(f) => f < |s.futures| && !s.futures[f].done
    case StartReplay(completed, todo) =>
      && s.replay.None?
      && (forall id :: id in completed ==> Logged(s.log, id))
      && (forall id :: id in todo <==> id in s.spool)
    case ReplayNext => s.replay.Some?
    case Foreign(id) => id !in s.used
    case Crash => true
  }

  /** `_set`: only a future that is not done yet takes the result. */
  function Settle(futures: seq<Future>, f: nat): seq<Future> {
    if f < |futures| && !futures[f].done then futures[f := Future(true, futures[f].settles + 1)] else futures
  }

  /** Wires a future if events are wanted, and puts the job on the queue; a full queue
      cancels the future again. */
  function Put(s: State, job: Job): State {
    var fut := if job.emit then Some(|s.futures|) else None;
    var wired := if job.emit then s.futures + [Future(false, 0)] else s.futures;
    if |s.queue| < QUEUE_MAXSIZE then s.(queue := s.queue + [job.(fut := fut)], futures := wired)
    else s.(futures := if job.emit then Settle(wired, |s.futures|) else wired)
  }

  function LoggedStage(stage: Stage): Stage {
    match stage
    case Stored => FiledLogged
    case Failing => FailedLogged
    case Excepted => ExceptedLogged
    case _ => stage
  }

  function AfterLog(s: State, w: Work, written: bool): State {
    var record := if w.stage.Stored? then DrawerFiled(w.job.id) else CaptureFailed(w.job.id);
    s.(log := if w.job.emit && written then s.log + {record} else s.log,
       work := Some(w.(stage := LoggedStage(w.stage))))
  }

  /** A failed filing ends here, with its spool entry still in place. */
  function AfterPost(s: State, w: Work): State {
    s.(posted := if w.job.fut.Some? then s.posted + [w.job.fut.value] else s.posted,
       work := match w.stage
               case FiledLogged => Some(w.(stage := FiledPosted))
               case ExceptedLogged => Some(w.(stage := ExceptedPosted))
               case _ => None)
  }

  function AfterReplayNext(s: State, r: Replay): State {
    if r.todo == [] then s.(replay := None)
    else
      var id := r.todo[0];
      var more := Some(r.(todo := r.todo[1..]));
      if id in r.completed then s.(spool := s.spool - {id}, replay := more)
      else if id !in s.spool then s.(replay := more)
      else if s.spool[id].Corrupt? then s.(spool := s.spool - {id}, replay := more)
      else Put(s, Job(id, s.spool[id].emit, true, None)).(replay := if |s.queue| < QUEUE_MAXSIZE then more else None)
  }

  function Next(s: State, step: Step): State {
    match step
    case Spool(id, emit, written) =>
      s.(spool := if written then s.spool[id := Good(emit)] else s.spool,
         spooled := if written then s.spooled[id := emit] else s.spooled,
         used := s.used + {id}, hot := Some(Job(id, emit, written, None)))
    case Enqueue => if s.hot.Some? then Put(s, s.hot.value).(hot := None) else s
    case Get => if s.queue != [] then s.(work := Some(Work(s.queue[0], Popped)), queue := s.queue[1..]) else s
    case File(ok) =>
      if s.work.None? then s
      else if ok then s.(store := s.store + {s.work.value.job.id}, work := Some(s.work.value.(stage := Stored)))
      else s.(work := Some(s.work.value.(stage := Failing)))
    case RaiseAfterFiling => if s.work.Some? then s.(work := Some(s.work.value.(stage := Failing))) else s
    case WorkerException => if s.work.Some? then s.(work := Some(s.work.value.(stage := Excepted))) else s
    case Log(written) => if s.work.Some? then AfterLog(s, s.work.value, written) else s
    case Post => if s.work.Some? then AfterPost(s, s.work.value) else s
    case Finish =>
      if s.work.Some? then
        s.(spool := if s.work.value.job.spooled then s.spool - {s.work.value.job.id} else s.spool, work := None)
      else s
    case RunCallback =>
      if s.posted != [] then s.(futures := Settle(s.futures, s.posted[0]), posted := s.posted[1..]) else s
    case CancelTask(f) => s.(futures := Settle(s.futures, f))
    case StartReplay(completed, todo) => s.(replay := Some(Replay(completed, todo)))
    case ReplayNext => if s.replay.Some? then AfterReplayNext(s, s.replay.value) else s
    case Foreign(id) => s.(spool := s.spool[id := Corrupt], used := s.used + {id})
    case Crash => s.(hot := None, queue := [], work := None, replay := None, futures := [], posted := [])
  }

  ghost predicate Init(s: State) {
    s == State(map[], {}, {}, None, [], None, None, [], [], map[], {})
  }

  ghost predicate Run(states: seq<State>, steps: seq<Step>) {
    && |states| == |steps| + 1
    && Init(states[0])
    && forall i :: 0 <= i < |steps| ==> Enabled(states[i], steps[i]) && states[i + 1] == Next(states[i], steps[i])
  }

  /** No write to the event log is lost. */
  ghost predicate LogReliable(steps: seq<Step>) {
    forall i :: 0 <= i < |steps| && steps[i].Log? ==> steps[i].written
  }

  // ---------------------------------------------------------------------------
  // In every run
  // ---------------------------------------------------------------------------

  ghost predicate FiledIsStored(s: State) {
    && (forall id :: DrawerFiled(id) in s.log ==> id in s.store)
    && (s.work.Some?
        && (s.work.value.stage.Stored? || s.work.value.stage.FiledLogged? || s.work.value.stage.FiledPosted?)
        ==> s.work.value.job.id in s.store)
  }

  ghost predicate FuturesSettleOnce(s: State) {
    forall f :: 0 <= f < |s.futures| ==> s.futures[f].settles == if s.futures[f].done then 1 else 0
  }

  ghost predicate QueueBounded(s: State) {
    |s.queue| <= QUEUE_MAXSIZE
  }

  lemma StepKeepsStored(s: State, step: Step)
    requires Enabled(s, step) && FiledIsStored(s)
    ensures FiledIsStored(Next(s, step))
  {
  }

  lemma StepKeepsFutures(s: State, step: Step)
    requires Enabled(s, step) && FuturesSettleOnce(s)
    ensures FuturesSettleOnce(Next(s, step))
  {
  }

  lemma StepKeepsBound(s: State, step: Step)
    requires Enabled(s, step) && QueueBounded(s)
    ensures QueueBounded(Next(s, step))
  {
  }

  predicate Awaits(job: Job, f: nat) {
    job.fut == Some(f)
  }

  /** Somebody will still settle the future: its result is posted, or its job is queued, or in
      hand with the result still to be posted. */
  ghost predicate Attended(s: State, f: nat) {
    || f in s.posted
    || (exists i :: 0 <= i < |s.queue| && Awaits(s.queue[i], f))
    || (s.work.Some? && Awaits(s.work.value.job, f)
        && !s.work.value.stage.FiledPosted? && !s.work.value.stage.ExceptedPosted?)
  }

  ghost predicate NoneForgotten(s: State) {
    forall f :: 0 <= f < |s.futures| && !s.futures[f].done ==> Attended(s, f)
  }

  /** A future is only ever asked for once it is there. */
  ghost predicate FuturesExist(s: State) {
    && (forall i :: 0 <= i < |s.queue| && s.queue[i].fut.Some? ==> s.queue[i].fut.value < |s.futures|)
    && (s.work.Some? && s.work.value.job.fut.Some? ==> s.work.value.job.fut.value < |s.futures|)
    && (forall i :: 0 <= i < |s.posted| ==> s.posted[i] < |s.futures|)
  }

  lemma PutKeepsExisting(s: State, job: Job)
    requires FuturesExist(s)
    ensures FuturesExist(Put(s, job))
  {
  }

  lemma ReplayKeepsExisting(s: State)
    requires s.replay.Some? && FuturesExist(s)
    ensures FuturesExist(Next(s, ReplayNext))
  {
    var r := s.replay.value;
    if r.todo != [] && r.todo[0] in s.spool && s.spool[r.todo[0]].Good? {
      PutKeepsExisting(s, Job(r.todo[0], s.spool[r.todo[0]].emit, true, None));
    }
  }

  lemma WorkKeepsExisting(s: State, step: Step)
    requires Enabled(s, step) && FuturesExist(s) && !step.Enqueue? && !step.ReplayNext?
    ensures FuturesExist(Next(s, step))
  {
  }

  lemma StepKeepsExisting(s: State, step: Step)
    requires Enabled(s, step) && FuturesExist(s)
    ensures FuturesExist(Next(s, step))
  {
    if step.Enqueue? {
      PutKeepsExisting(s, s.hot.value);
    } else if step.ReplayNext? {
      ReplayKeepsExisting(s);
    } else {
      WorkKeepsExisting(s, step);
    }
  }

  lemma QueuedStaysAttended(s: State, step: Step, f: nat, i: nat)
    requires Enabled(s, step) && i < |s.queue| && Awaits(s.queue[i], f) && !step.Crash?
    ensures Attended(Next(s, step), f)
  {
    var s' := Next(s, step);
    if step.Get? {
      assert i > 0 ==> s'.queue[i - 1] == s.queue[i];
    } else {
      assert s'.queue[i] == s.queue[i];
    }
  }

  lemma HeldStaysAttended(s: State, step: Step, f: nat)
    requires Enabled(s, step) && s.work.Some? && Awaits(s.work.value.job, f) && !step.Crash?
    requires !s.work.value.stage.FiledPosted? && !s.work.value.stage.ExceptedPosted?
    ensures Attended(Next(s, step), f)
  {
    if step.Post? {
      PostedLast(s, f);
    }
  }

  lemma PostedStaysAttended(s: State, step: Step, f: nat)
    requires Enabled(s, step) && f < |s.futures| && f in s.posted && !step.Crash?
    ensures f < |Next(s, step).futures|
    ensures Next(s, step).futures[f].done || f in Next(s, step).posted
  {
    if step.RunCallback? && s.posted[0] != f {
      InTheRest(s.posted, f);
    }
  }

  lemma FuturesGrow(s: State, step: Step)
    requires Enabled(s, step) && !step.Crash?
    ensures |s.futures| <= |Next(s, step).futures|
  {
  }

  lemma StepKeepsAttended(s: State, step: Step, f: nat)
    requires Enabled(s, step) && f < |s.futures| && Attended(s, f) && !step.Crash?
    ensures f < |Next(s, step).futures| && (Next(s, step).futures[f].done || Attended(Next(s, step), f))
  {
    FuturesGrow(s, step);
    if f in s.posted {
      PostedStaysAttended(s, step, f);
    } else if i :| 0 <= i < |s.queue| && Awaits(s.queue[i], f) {
      QueuedStaysAttended(s, step, f, i);
    } else {
      HeldStaysAttended(s, step, f);
    }
  }

  lemma PostedLast(s: State, f: nat)
    requires Enabled(s, Post) && Awaits(s.work.value.job, f)
    ensures f in Next(s, Post).posted
  {
    assert Next(s, Post).posted == s.posted + [f];
  }

  lemma InTheRest(posted: seq<nat>, f: nat)
    requires f in posted && posted[0] != f
    ensures f in posted[1..]
  {
    assert posted == [posted[0]] + posted[1..];
  }

  /** A step that makes a future puts its job on the queue, or cancels the future. */
  lemma NewFutureAttended(s: State, step: Step, f: nat)
    requires Enabled(s, step) && |s.futures| <= f < |Next(s, step).futures|
    ensures Next(s, step).futures[f].done || Attended(Next(s, step), f)
  {
    var s' := Next(s, step);
    if !s'.futures[f].done {
      assert Awaits(s'.queue[|s.queue|], f);
    }
  }

  lemma StepKeepsForgotten(s: State, step: Step)
    requires Enabled(s, step) && NoneForgotten(s)
    ensures NoneForgotten(Next(s, step))
  {
    var s' := Next(s, step);
    forall f | 0 <= f < |s'.futures| && !s'.futures[f].done
      ensures Attended(s', f)
    {
      if f < |s.futures| && !s.futures[f].done {
        StepKeepsAttended(s, step, f);
      } else if f >= |s.futures| {
        NewFutureAttended(s, step, f);
      }
    }
  }

  /** No completion future is forgotten, in any run: one that is not done yet has somebody to
      settle it, so once queue, hands and posted results are empty all are done. */
  lemma {:induction false} FuturesAlways(states: seq<State>, steps: seq<Step>, i: nat)
    requires Run(states, steps) && i < |states|
    ensures NoneForgotten(states[i]) && FuturesExist(states[i])
    ensures states[i].queue == [] && states[i].work.None? && states[i].posted == [] ==>
              forall f :: 0 <= f < |states[i].futures| ==> states[i].futures[f].done
  {
    if i > 0 {
      FuturesAlways(states, steps, i - 1);
      StepKeepsForgotten(states[i - 1], steps[i - 1]);
      StepKeepsExisting(states[i - 1], steps[i - 1]);
    }
  }

  /** A `drawer_filed` record means a stored drawer, a completion future is settled at most
      once (by a result or by a cancellation), and the queue keeps its bound. */
  lemma {:induction false} BasicsAlways(states: seq<State>, steps: seq<Step>, i: nat)
    requires Run(states, steps) && i < |states|
    ensures FiledIsStored(states[i]) && FuturesSettleOnce(states[i]) && QueueBounded(states[i])
  {
    if i > 0 {
      BasicsAlways(states, steps, i - 1);
      StepKeepsStored(states[i - 1], steps[i - 1]);
      StepKeepsFutures(states[i - 1], steps[i - 1]);
      StepKeepsBound(states[i - 1], steps[i - 1]);
    }
  }

  // ---------------------------------------------------------------------------
  // Durability
  // ---------------------------------------------------------------------------

  ghost predicate JobFits(s: State, job: Job) {
    && job.id in s.used && (job.spooled <==> job.id in s.spooled)
    && (job.id in s.spooled ==> job.emit == s.spooled[job.id])
  }

  ghost predicate JobsFit(s: State) {
    && (s.hot.Some? ==> JobFits(s, s.hot.value))
    && (s.work.Some? ==> JobFits(s, s.work.value.job))
    && (forall i :: 0 <= i < |s.queue| ==> JobFits(s, s.queue[i]))
  }

  ghost predicate SpoolFits(s: State) {
    && (forall id :: id in s.spool ==> id in s.used)
    && (forall id :: id in s.spooled ==> id in s.used)
    && (forall id :: id in s.spool && id in s.spooled ==> s.spool[id] == Good(s.spooled[id]))
    && (forall id :: id in s.spool && s.spool[id].Good? ==> id in s.spooled)
  }

  ghost predicate ReplayFits(s: State) {
    s.replay.Some? ==> forall id :: id in s.replay.value.completed ==> Logged(s.log, id)
  }

  /** Before its spool entry goes, the outcome of the job in hand is in the log. */
  ghost predicate WorkLogged(s: State) {
    s.work.Some? && s.work.value.job.emit && !s.work.value.stage.Popped? && !s.work.value.stage.Stored?
      && !s.work.value.stage.Failing? && !s.work.value.stage.Excepted?
    ==> Logged(s.log, s.work.value.job.id)
  }

  ghost predicate Durable(s: State) {
    forall id :: id in s.spooled && s.spooled[id] ==> id in s.spool || Logged(s.log, id)
  }

  ghost predicate Safe(s: State) {
    JobsFit(s) && SpoolFits(s) && ReplayFits(s) && WorkLogged(s) && Durable(s)
  }

  /** What is known about an id that was ever used never changes. */
  lemma FitsStays(s: State, step: Step, job: Job)
    requires Enabled(s, step) && SpoolFits(s) && JobFits(s, job)
    ensures JobFits(Next(s, step), job)
  {
  }

  lemma StepKeepsJobs(s: State, step: Step)
    requires Enabled(s, step) && JobsFit(s) && SpoolFits(s)
    ensures JobsFit(Next(s, step))
  {
    var s' := Next(s, step);
    forall i | 0 <= i < |s'.queue|
      ensures JobFits(s', s'.queue[i])
    {
      QueuedJobFits(s, step, i);
    }
    HeldJobFits(s, step);
  }

  /** The queue after a step: what it was, less its head, or with one more job at its end. */
  lemma QueueNext(s: State, step: Step)
    requires Enabled(s, step)
    ensures var q := Next(s, step).queue;
            || q == s.queue
            || q == []
            || (step.Get? && q == s.queue[1..])
            || (step.Enqueue? && |q| == |s.queue| + 1 && q[..|s.queue|] == s.queue
                && q[|s.queue|].id == s.hot.value.id && q[|s.queue|].emit == s.hot.value.emit)
            || (step.ReplayNext? && |q| == |s.queue| + 1 && q[..|s.queue|] == s.queue
                && q[|s.queue|].id in s.spool && s.spool[q[|s.queue|].id] == Good(q[|s.queue|].emit))
  {
  }

  lemma QueuedJobFits(s: State, step: Step, i: nat)
    requires Enabled(s, step) && JobsFit(s) && SpoolFits(s) && i < |Next(s, step).queue|
    ensures JobFits(Next(s, step), Next(s, step).queue[i])
  {
    var q := Next(s, step).queue;
    QueueNext(s, step);
    if q == s.queue {
      FitsStays(s, step, s.queue[i]);
    } else if step.Get? {
      FitsStays(s, step, s.queue[i + 1]);
    } else if i < |s.queue| {
      assert q[i] == q[..|s.queue|][i];
      FitsStays(s, step, s.queue[i]);
    } else {
      assert JobFits(s, q[i]);
      FitsStays(s, step, q[i]);
    }
  }

  lemma HeldJobFits(s: State, step: Step)
    requires Enabled(s, step) && JobsFit(s) && SpoolFits(s)
    ensures var s' := Next(s, step);
            && (s'.work.Some? ==> JobFits(s', s'.work.value.job))
            && (s'.hot.Some? ==> JobFits(s', s'.hot.value))
  {
    if step.Get? {
      FitsStays(s, step, s.queue[0]);
    } else if s.work.Some? {
      FitsStays(s, step, s.work.value.job);
    }
    if s.hot.Some? {
      FitsStays(s, step, s.hot.value);
    }
  }

  lemma ReplayKeepsSpool(s: State)
    requires s.replay.Some? && SpoolFits(s)
    ensures SpoolFits(Next(s, ReplayNext))
  {
    assert Next(s, ReplayNext).spool.Keys <= s.spool.Keys;
  }

  lemma StepKeepsSpool(s: State, step: Step)
    requires Enabled(s, step) && SpoolFits(s)
    ensures SpoolFits(Next(s, step))
  {
    if step.ReplayNext? {
      ReplayKeepsSpool(s);
    }
  }

  lemma StepKeepsReplay(s: State, step: Step)
    requires Enabled(s, step) && ReplayFits(s)
    ensures ReplayFits(Next(s, step))
  {
    LogGrows(s, step);
  }

  lemma LogGrows(s: State, step: Step)
    ensures s.log <= Next(s, step).log
  {
  }

  lemma StepKeepsWork(s: State, step: Step)
    requires Enabled(s, step) && WorkLogged(s) && (step.Log? ==> step.written)
    ensures WorkLogged(Next(s, step))
  {
    LogGrows(s, step);
  }

  /** A spool entry goes only when its outcome is in the log. */
  lemma OnlyLoggedAreDeleted(s: State, step: Step, id: Id)
    requires Enabled(s, step) && JobsFit(s) && SpoolFits(s) && ReplayFits(s) && WorkLogged(s)
    requires id in s.spooled && s.spooled[id] && id in s.spool
    ensures id in Next(s, step).spool || Logged(s.log, id)
  {
  }

  lemma StepKeepsSafe(s: State, step: Step)
    requires Enabled(s, step) && Safe(s) && (step.Log? ==> step.written)
    ensures Safe(Next(s, step))
  {
    StepKeepsJobs(s, step);
    StepKeepsSpool(s, step);
    StepKeepsReplay(s, step);
    StepKeepsWork(s, step);
    forall id | id in Next(s, step).spooled && Next(s, step).spooled[id]
      ensures id in Next(s, step).spool || Logged(Next(s, step).log, id)
    {
      StepKeepsOneDurable(s, step, id);
    }
  }

  lemma StepKeepsOneDurable(s: State, step: Step, id: Id)
    requires Enabled(s, step) && Safe(s) && id in Next(s, step).spooled && Next(s, step).spooled[id]
    ensures id in Next(s, step).spool || Logged(Next(s, step).log, id)
  {
    LogGrows(s, step);
    if id in s.spooled && id in s.spool {
      StillWanted(s, step, id);
      OnlyLoggedAreDeleted(s, step, id);
    }
  }

  lemma StillWanted(s: State, step: Step, id: Id)
    requires Enabled(s, step) && SpoolFits(s) && id in s.spooled
    ensures id in Next(s, step).spooled && Next(s, step).spooled[id] == s.spooled[id]
  {
  }

  /** With events enabled and written, a spooled capture is on disk or accounted for in the
      log, in every reachable state, crashes included. */
  lemma {:induction false} SpooledIsNeverLost(states: seq<State>, steps: seq<Step>, i: nat)
    requires Run(states, steps) && LogReliable(steps) && i < |states|
    ensures Safe(states[i])
    ensures forall id :: id in states[i].spooled && states[i].spooled[id] ==>
              (id in states[i].spool && states[i].spool[id] == Good(true)) || Logged(states[i].log, id)
  {
    if i > 0 {
      SpooledIsNeverLost(states, steps, i - 1);
      StepKeepsSafe(states[i - 1], steps[i - 1]);
    }
  }

  lemma {:induction false} HistoryAlways(states: seq<State>, steps: seq<Step>, i: nat)
    requires Run(states, steps) && i < |states|
    ensures SpoolFits(states[i]) && ReplayFits(states[i])
  {
    if i > 0 {
      HistoryAlways(states, steps, i - 1);
      StepKeepsSpool(states[i - 1], steps[i - 1]);
      StepKeepsReplay(states[i - 1], steps[i - 1]);
    }
  }

  /** The capture is still spooled, or stored, or logged. */
  predicate Kept(s: State, id: Id) {
    id in s.spool || id in s.store || Logged(s.log, id)
  }

  /** The worker's last-resort guard ends, on the spooled job of a capture that is neither
      stored nor logged. */
  predicate GuardLoses(s: State, step: Step, id: Id) {
    && step.Finish? && s.work.Some? && s.work.value.stage.ExceptedPosted?
    && s.work.value.job.id == id && s.work.value.job.spooled
    && id !in s.store && !Logged(s.log, id)
  }

  /** A step loses a spooled capture if and only if it is that one. */
  lemma LosesExactly(s: State, step: Step, id: Id)
    requires Enabled(s, step) && SpoolFits(s) && ReplayFits(s) && FiledIsStored(s)
    requires id in s.spooled && Kept(s, id)
    ensures !Kept(Next(s, step), id) <==> GuardLoses(s, step, id)
  {
    LogGrows(s, step);
  }

  lemma NewlySpooled(s: State, step: Step, id: Id)
    requires id !in s.spooled && id in Next(s, step).spooled
    ensures id in Next(s, step).spool
  {
  }

  /** Such a step was taken, and the capture has not come back since. */
  ghost predicate LostByGuard(states: seq<State>, steps: seq<Step>, i: nat, id: Id)
    requires |states| == |steps| + 1 && i < |states|
  {
    exists k :: 0 <= k < i && GuardLoses(states[k], steps[k], id) && GoneFrom(states, k, i, id)
  }

  ghost predicate GoneFrom(states: seq<State>, k: nat, i: nat, id: Id)
    requires k < i < |states|
  {
    forall m :: k < m <= i ==> !Kept(states[m], id)
  }

  /** In every run, with events on or off, with log writes that succeed or fail, and with
      crashes anywhere, a spooled capture is lost if and only if the last-resort guard lost
      it: nothing else ever does. */
  lemma {:induction false} OnlyTheGuardLoses(states: seq<State>, steps: seq<Step>, i: nat, id: Id)
    requires Run(states, steps) && i < |states| && id in states[i].spooled
    ensures !Kept(states[i], id) <==> LostByGuard(states, steps, i, id)
  {
    if i > 0 && !Kept(states[i], id) {
      var s, step := states[i - 1], steps[i - 1];
      if id !in s.spooled {
        NewlySpooled(s, step, id);
      } else if Kept(s, id) {
        HistoryAlways(states, steps, i - 1);
        BasicsAlways(states, steps, i - 1);
        LosesExactly(s, step, id);
        assert GoneFrom(states, i - 1, i, id);
      } else {
        OnlyTheGuardLoses(states, steps, i - 1, id);
        var k :| 0 <= k < i - 1 && GuardLoses(states[k], steps[k], id) && GoneFrom(states, k, i - 1, id);
        assert GoneFrom(states, k, i, id);
      }
    }
  }

  lemma OneMoreStep(states: seq<State>, steps: seq<Step>, step: Step) returns (more: seq<State>, acts: seq<Step>)
    requires Run(states, steps) && Enabled(states[|steps|], step)
    ensures more == states + [Next(states[|steps|], step)] && acts == steps + [step]
    ensures Run(more, acts)
  {
    more, acts := states + [Next(states[|steps|], step)], steps + [step];
    forall i | 0 <= i < |acts|
      ensures Enabled(more[i], acts[i]) && more[i + 1] == Next(more[i], acts[i])
    {
      if i < |steps| {
        assert more[i] == states[i] && more[i + 1] == states[i + 1] && acts[i] == steps[i];
      }
    }
  }

  lemma SpoolAndPop(emit: bool) returns (states: seq<State>, steps: seq<Step>)
    ensures Run(states, steps) && |steps| == 3
    ensures var s := states[3];
            && s.spool == map[7 := Good(emit)] && s.queue == [] && s.replay.None?
            && s.log == {} && s.store == {} && 7 in s.used
            && s.work.Some? && s.work.value.stage.Popped? && s.work.value.job.id == 7
            && s.work.value.job.emit == emit && s.work.value.job.spooled
  {
    states, steps := [State(map[], {}, {}, None, [], None, None, [], [], map[], {})], [];
    states, steps := OneMoreStep(states, steps, Spool(7, emit, true));
    states, steps := OneMoreStep(states, steps, Enqueue);
    states, steps := OneMoreStep(states, steps, Get);
  }

  lemma RaiseInWorker() returns (states: seq<State>, steps: seq<Step>)
    ensures Run(states, steps) && LogReliable(steps) && |steps| == 5
    ensures var s := states[5];
            && s.log == {} && s.store == {} && 7 in s.used
            && s.work.Some? && s.work.value.stage.ExceptedLogged?
            && s.work.value.job.id == 7 && s.work.value.job.spooled
  {
    states, steps := SpoolAndPop(false);
    states, steps := OneMoreStep(states, steps, WorkerException);
    states, steps := OneMoreStep(states, steps, Log(true));
  }

  /** And that step does: with events off, after a worker exception the spool entry is
      deleted and nothing on disk remembers the capture. */
  lemma LostWithoutEvents()
    ensures exists states: seq<State>, steps: seq<Step> ::
              && Run(states, steps) && LogReliable(steps) && |steps| == 7
              && 7 in states[7].used && 7 !in states[7].spool && 7 !in states[7].store
              && !Logged(states[7].log, 7) && states[7].work.None?
  {
    var states, steps := RaiseInWorker();
    states, steps := OneMoreStep(states, steps, Post);
    states, steps := OneMoreStep(states, steps, Finish);
  }

  lemma FailToFile() returns (states: seq<State>, steps: seq<Step>)
    ensures Run(states, steps) && LogReliable(steps) && |steps| == 6
    ensures var s := states[6];
            && 7 in s.spool && s.log == {CaptureFailed(7)} && s.store == {} && 7 in s.used
            && s.work.None? && s.replay.None? && s.spool.Keys == {7} && s.queue == []
  {
    states, steps := SpoolAndPop(true);
    states, steps := OneMoreStep(states, steps, File(false));
    states, steps := OneMoreStep(states, steps, Log(true));
    states, steps := OneMoreStep(states, steps, Post);
  }

  /** A logged failure counts as finished. So a capture that could not be filed, whose spool
      entry was kept for a retry, is dropped by the next replay: neither stored, nor spooled,
      nor queued. */
  lemma FailedIsDroppedByReplay()
    ensures exists states: seq<State>, steps: seq<Step> ::
              && Run(states, steps) && LogReliable(steps) && |steps| == 8
              && 7 in states[6].spool && CaptureFailed(7) in states[6].log
              && 7 !in states[8].spool && 7 !in states[8].store && states[8].queue == [] && states[8].work.None?
  {
    var states, steps := FailToFile();
    states, steps := OneMoreStep(states, steps, StartReplay({7}, [7]));
    states, steps := OneMoreStep(states, steps, ReplayNext);
  }

  // ---------------------------------------------------------------------------
  // The replay at mount
  // ---------------------------------------------------------------------------

  predicate Unfinished(spool: map<Id, Entry>, completed: set<Id>, id: Id) {
    id in spool && spool[id].Good? && id !in completed
  }

  /** The unfinished ones among the listed files, in listing order. */
  function Orphans(spool: map<Id, Entry>, completed: set<Id>, files: seq<Id>): seq<Id> {
    if files == [] then []
    else if Unfinished(spool, completed, files[0]) then [files[0]] + Orphans(spool, completed, files[1..])
    else Orphans(spool, completed, files[1..])
  }

  /** The walk over the listed files: what stays spooled, and what is enqueued while the
      queue has `room`. */
  function Walk(spool: map<Id, Entry>, completed: set<Id>, files: seq<Id>, room: nat): (map<Id, Entry>, seq<Id>)
    decreases |files|
  {
    if files == [] then (spool, [])
    else if files[0] in completed then Walk(spool - {files[0]}, completed, files[1..], room)
    else if files[0] !in spool then Walk(spool, completed, files[1..], room)
    else if spool[files[0]].Corrupt? then Walk(spool - {files[0]}, completed, files[1..], room)
    else if room == 0 then (spool, [])
    else
      var (left, enqueued) := Walk(spool, completed, files[1..], room - 1);
      (left, [files[0]] + enqueued)
  }

  predicate Distinct(files: seq<Id>) {
    forall i, j :: 0 <= i < j < |files| ==> files[i] != files[j]
  }

  function Fit(orphans: seq<Id>, room: nat): seq<Id> {
    orphans[..if |orphans| <= room then |orphans| else room]
  }

  lemma {:induction false} OrphansElsewhere(spool: map<Id, Entry>, completed: set<Id>, files: seq<Id>, id: Id)
    requires id !in files
    ensures Orphans(spool - {id}, completed, files) == Orphans(spool, completed, files)
  {
    if files != [] {
      OrphansElsewhere(spool, completed, files[1..], id);
    }
  }

  /** Among files listed once each, the walk enqueues the first orphans, as many as fit; it
      deletes no unfinished entry; and when all fit it deletes every other listed one. */
  lemma {:induction false} WalkExact(spool: map<Id, Entry>, completed: set<Id>, files: seq<Id>, room: nat)
    requires Distinct(files)
    ensures var (left, enqueued) := Walk(spool, completed, files, room);
            var orphans := Orphans(spool, completed, files);
            && enqueued == Fit(orphans, room)
            && (forall id :: id in left ==> id in spool && left[id] == spool[id])
            && (forall id :: id in spool && id !in left ==> id in files && !Unfinished(spool, completed, id))
            && (|orphans| <= room ==> forall id :: id in left && id in files ==> Unfinished(spool, completed, id))
    decreases |files|
  {
    if files != [] {
      var id, rest := files[0], files[1..];
      assert id !in rest;
      if id in completed || id !in spool || spool[id].Corrupt? {
        OrphansElsewhere(spool, completed, rest, id);
        WalkExact(spool - {id}, completed, rest, room);
        WalkExact(spool, completed, rest, room);
      } else if room > 0 {
        WalkExact(spool, completed, rest, room - 1);
      }
    }
  }

  /** The whole walk is what was enqueued so far, and then the rest of the walk. */
  predicate WalksOn(whole: (map<Id, Entry>, seq<Id>), enqueued: seq<Id>, rest: (map<Id, Entry>, seq<Id>)) {
    whole.0 == rest.0 && whole.1 == enqueued + rest.1
  }

  /** Where the walk stops, at the end of the list or at a full queue. */
  lemma WalkEnds(spool: map<Id, Entry>, completed: set<Id>, files: seq<Id>, room: nat, rest: seq<Id>,
                 left: map<Id, Entry>, enqueued: seq<Id>)
    requires Distinct(files) && |enqueued| <= room
    requires WalksOn(Walk(spool, completed, files, room), enqueued, Walk(left, completed, rest, room - |enqueued|))
    requires rest == [] || (|enqueued| == room && Unfinished(left, completed, rest[0]))
    ensures (left, enqueued) == Walk(spool, completed, files, room)
    ensures enqueued == Fit(Orphans(spool, completed, files), room)
    ensures forall id :: id in left ==> id in spool && left[id] == spool[id]
    ensures forall id :: id in spool && id !in left ==> id in files && !Unfinished(spool, completed, id)
    ensures |Orphans(spool, completed, files)| <= room ==>
              forall id :: id in left && id in files ==> Unfinished(spool, completed, id)
  {
    assert enqueued + [] == enqueued;
    WalkExact(spool, completed, files, room);
  }

  /** `_replay_orphans`: `files` is the listing of the spool, `room` the free places of the
      queue. The first orphans are enqueued, as many as fit; an orphan that does not fit
      stays spooled; nothing but finished and malformed entries is deleted. */
  method ReplayOrphans(spool: map<Id, Entry>, completed: set<Id>, files: seq<Id>, room: nat)
    returns (left: map<Id, Entry>, enqueued: seq<Id>)
    requires forall id :: id in files <==> id in spool
    requires Distinct(files)
    ensures (left, enqueued) == Walk(spool, completed, files, room)
    ensures enqueued == Fit(Orphans(spool, completed, files), room)
    ensures forall id :: Unfinished(spool, completed, id) ==> id in left && left[id] == spool[id]
    ensures forall id :: id in left ==> id in spool && left[id] == spool[id]
    ensures |Orphans(spool, completed, files)| <= room ==>
              forall id :: id in left ==> Unfinished(spool, completed, id)
  {
    left, enqueued := spool, [];
    assert files[0..] == files;
    for i := 0 to |files|
      invariant |enqueued| <= room
      invariant WalksOn(Walk(spool, completed, files, room), enqueued,
                        Walk(left, completed, files[i..], room - |enqueued|))
    {
      assert files[i..][0] == files[i] && files[i..][1..] == files[i + 1..];
      if files[i] in completed {
        left := left - {files[i]};
        continue;
      }
      if files[i] !in left {
        continue;
      }
      if left[files[i]].Corrupt? {
        left := left - {files[i]};
        continue;
      }
      if |enqueued| == room {
        WalkEnds(spool, completed, files, room, files[i..], left, enqueued);
        return;
      }
      enqueued := enqueued + [files[i]];
    }
    WalkEnds(spool, completed, files, room, [], left, enqueued);
  }

  function Ids(jobs: seq<Job>): (r: seq<Id>)
    ensures |r| == |jobs|
  {
    seq(|jobs|, i requires 0 <= i < |jobs| => jobs[i].id)
  }

  /** The replay steps alone, to the end of the replay. */
  function ReplayToEnd(s: State): State
    decreases if s.replay.Some? then 1 + |s.replay.value.todo| else 0
  {
    if s.replay.None? then s else ReplayToEnd(Next(s, ReplayNext))
  }

  /** One step of the replay is one step of the walk. */
  lemma ReplayStepIsWalkStep(s: State)
    requires s.replay.Some? && QueueBounded(s)
    ensures var n, r := Next(s, ReplayNext), s.replay.value;
            var rest := Walk(s.spool, r.completed, r.todo, QUEUE_MAXSIZE - |s.queue|);
            && QueueBounded(n)
            && (n.replay.None? ==> rest == (n.spool, []) && n.queue == s.queue)
            && (n.replay.Some? ==>
                  && r.todo != [] && n.replay == Some(Replay(r.completed, r.todo[1..]))
                  && (n.queue == s.queue || (|n.queue| == |s.queue| + 1 && n.queue[..|s.queue|] == s.queue
                                             && n.queue[|s.queue|].id == r.todo[0]))
                  && var more := Walk(n.spool, r.completed, r.todo[1..], QUEUE_MAXSIZE - |n.queue|);
                     rest == (more.0, if n.queue == s.queue then more.1 else [r.todo[0]] + more.1))
  {
  }

  lemma IdsPushed(a: seq<Job>, b: seq<Job>, more: seq<Id>)
    requires |b| == |a| + 1 && b[..|a|] == a
    ensures Ids(b) + more == Ids(a) + ([b[|a|].id] + more)
  {
    assert forall i :: 0 <= i < |a| ==> b[i] == b[..|a|][i];
    assert Ids(b) == Ids(a) + [b[|a|].id];
  }

  /** With nothing else running, the steps of the protocol are that walk. */
  lemma {:induction false} ReplayStepsWalk(s: State)
    requires s.replay.Some? && QueueBounded(s)
    ensures var s' := ReplayToEnd(s);
            var r := s.replay.value;
            var (left, enqueued) := Walk(s.spool, r.completed, r.todo, QUEUE_MAXSIZE - |s.queue|);
            s'.replay.None? && s'.spool == left && Ids(s'.queue) == Ids(s.queue) + enqueued
    decreases |s.replay.value.todo|
  {
    var n := Next(s, ReplayNext);
    ReplayStepIsWalkStep(s);
    if n.replay.Some? {
      ReplayStepsWalk(n);
      if n.queue != s.queue {
        IdsPushed(s.queue, n.queue,
                  Walk(n.spool, n.replay.value.completed, n.replay.value.todo, QUEUE_MAXSIZE - |n.queue|).1);
      }
    }
  }

  // ---------------------------------------------------------------------------
  // The replay next to everything else
  // ---------------------------------------------------------------------------

  /** The replay puts the capture on the queue. */
  predicate Enqueues(s: State, step: Step, id: Id) {
    && step.ReplayNext? && |Next(s, step).queue| == |s.queue| + 1
    && Next(s, step).queue[|s.queue|].id == id
  }

  /** The drain thread is done with the capture and deletes its entry. */
  predicate Drains(s: State, step: Step, id: Id) {
    step.Finish? && s.work.Some? && s.work.value.job.id == id
  }

  predicate Handles(s: State, step: Step, id: Id) {
    Enqueues(s, step, id) || Drains(s, step, id)
  }

  ghost predicate Handled(states: seq<State>, steps: seq<Step>, i: nat, j: nat, id: Id)
    requires |states| == |steps| + 1 && j <= |steps|
  {
    exists k :: i <= k < j && Handles(states[k], steps[k], id)
  }

  /** The capture is spooled and the replay still has it on its list ... */
  predicate Ahead(s: State, completed: set<Id>, id: Id) {
    && s.replay.Some? && s.replay.value.completed == completed && id in s.replay.value.todo
    && id !in completed && id in s.spool && s.spool[id].Good?
  }

  /** ... or the replay ended at a full queue, and the capture is still spooled. */
  predicate LeftOut(s: State, id: Id) {
    s.replay.None? && |s.queue| == QUEUE_MAXSIZE && id in s.spool && s.spool[id].Good?
  }

  lemma ReplayStep(s: State, step: Step, completed: set<Id>, id: Id)
    requires Enabled(s, step) && !step.Crash? && SpoolFits(s) && QueueBounded(s) && Ahead(s, completed, id)
    ensures || Handles(s, step, id)
            || Ahead(Next(s, step), completed, id) || LeftOut(Next(s, step), id)
  {
  }

  lemma HandledLater(states: seq<State>, steps: seq<Step>, i: nat, j: nat, id: Id)
    requires |states| == |steps| + 1 && i < j <= |steps|
    requires Handled(states, steps, i, j - 1, id) || Handles(states[j - 1], steps[j - 1], id)
    ensures Handled(states, steps, i, j, id)
  {
  }

  /** A replay that ends without a crash, with the hot path and the drain thread running
      beside it, accounts for every unfinished capture it listed: it put it on the queue, or
      the drain thread was done with it, or the queue was full and it stays spooled. */
  lemma {:induction false} ReplayAccountsForAll(states: seq<State>, steps: seq<Step>, i: nat, j: nat, id: Id)
    requires Run(states, steps) && i < j < |states| && steps[i].StartReplay?
    requires forall k :: i < k < j ==> states[k].replay.Some? && !steps[k].Crash?
    requires id in steps[i].todo && id !in steps[i].completed && states[i].spool[id].Good?
    ensures Handled(states, steps, i, j, id) || Ahead(states[j], steps[i].completed, id) || LeftOut(states[j], id)
    ensures states[j].replay.None? ==> !Ahead(states[j], steps[i].completed, id)
  {
    if j > i + 1 {
      ReplayAccountsForAll(states, steps, i, j - 1, id);
      HistoryAlways(states, steps, j - 1);
      BasicsAlways(states, steps, j - 1);
      if Handled(states, steps, i, j - 1, id) || Handles(states[j - 1], steps[j - 1], id) {
        HandledLater(states, steps, i, j, id);
      } else {
        ReplayStep(states[j - 1], steps[j - 1], steps[i].completed, id);
      }
    }
  }

  lemma {:induction false} OrphansExact(spool: map<Id, Entry>, completed: set<Id>, files: seq<Id>, id: Id)
    ensures id in Orphans(spool, completed, files) <==> id in files && Unfinished(spool, completed, id)
  {
    if files != [] {
      OrphansExact(spool, completed, files[1..], id);
    }
  }

  /** A logged failure counts as finished: such a capture, though never stored, is dropped
      from the spool by the next replay and not tried again. */
  lemma FailedIsNotRetried(spool: map<Id, Entry>, log: set<LogRecord>, completed: set<Id>, files: seq<Id>, id: Id)
    requires forall c :: c in completed <==> Logged(log, c)
    requires CaptureFailed(id) in log
    ensures !Unfinished(spool, completed, id) && id !in Orphans(spool, completed, files)
  {
    OrphansExact(spool, completed, files, id);
  }

  // ---------------------------------------------------------------------------
  // Whole passages: what a capture, a drained job, the callbacks and a restart come to
  // ---------------------------------------------------------------------------

  /** These steps, one after another and each of them enabled, lead from `s` to `s'`. */
  ghost predicate Leads(s: State, path: seq<Step>, s': State)
    decreases |path|
  {
    if path == [] then s' == s else Enabled(s, path[0]) && Leads(Next(s, path[0]), path[1..], s')
  }

  lemma {:induction false} LeadsOn(s: State, path: seq<Step>, m: State, more: seq<Step>, s': State)
    requires Leads(s, path, m) && Leads(m, more, s')
    ensures Leads(s, path + more, s')
    decreases |path|
  {
    if path == [] {
      assert path + more == more;
    } else {
      LeadsOn(Next(s, path[0]), path[1..], m, more, s');
      assert (path + more)[1..] == path[1..] + more;
    }
  }

  /** The completion future of a new job: cancelled at once if the job found no room. */
  function NewFutures(s: State, emit: bool): seq<Future> {
    if !emit then [] else if |s.queue| < QUEUE_MAXSIZE then [Future(false, 0)] else [Future(true, 1)]
  }

  /** A capture leaves its spool entry exactly if the write succeeds, and a job on the queue
      exactly if there is room. */
  lemma CaptureExact(s: State, id: Id, emit: bool, written: bool)
    requires s.hot.None? && id !in s.used
    ensures var job := Job(id, emit, written, if emit then Some(|s.futures|) else None);
            Leads(s, [Spool(id, emit, written), Enqueue],
                  s.(spool := if written then s.spool[id := Good(emit)] else s.spool,
                     spooled := if written then s.spooled[id := emit] else s.spooled,
                     used := s.used + {id},
                     queue := if |s.queue| < QUEUE_MAXSIZE then s.queue + [job] else s.queue,
                     futures := s.futures + NewFutures(s, emit)))
  {
    var m := Next(s, Spool(id, emit, written));
    var s' := Next(m, Enqueue);
    assert s'.futures == s.futures + NewFutures(s, emit);
    assert Leads(s', [], s') && [Enqueue][1..] == [];
    assert Leads(m, [Enqueue], s');
    assert [Spool(id, emit, written), Enqueue][1..] == [Enqueue];
  }

  /** The ways a job can go: filed; the filing raised; what follows the filing raised; or
      the worker's last-resort guard caught what nothing else did. */
  datatype Way = Files | Fails | FailsLate | Breaks

  function ToOutcome(way: Way): seq<Step> {
    match way
    case Files => [Get, File(true)]
    case Fails => [Get, File(false)]
    case FailsLate => [Get, File(true), RaiseAfterFiling]
    case Breaks => [Get, WorkerException]
  }

  function FromOutcome(way: Way, written: bool): seq<Step> {
    if way.Files? || way.Breaks? then [Log(written), Post, Finish] else [Log(written), Post]
  }

  function Outcome(way: Way): Stage {
    match way
    case Files => Stored
    case Breaks => Excepted
    case _ => Failing
  }

  lemma LeadsFirst(s: State, step: Step, path: seq<Step>, s': State)
    requires Enabled(s, step) && Leads(Next(s, step), path, s')
    ensures Leads(s, [step] + path, s')
  {
    assert ([step] + path)[1..] == path;
  }

  lemma LeadsTwice(s: State, a: Step, b: Step)
    requires Enabled(s, a) && Enabled(Next(s, a), b)
    ensures Leads(s, [a, b], Next(Next(s, a), b))
  {
    LeadsFirst(Next(s, a), b, [], Next(Next(s, a), b));
    LeadsFirst(s, a, [b], Next(Next(s, a), b));
    assert [a] + [b] == [a, b];
  }

  lemma LeadsThrice(s: State, a: Step, b: Step, c: Step)
    requires Enabled(s, a) && Enabled(Next(s, a), b) && Enabled(Next(Next(s, a), b), c)
    ensures Leads(s, [a, b, c], Next(Next(Next(s, a), b), c))
  {
    LeadsTwice(Next(s, a), b, c);
    LeadsFirst(s, a, [b, c], Next(Next(Next(s, a), b), c));
    assert [a] + [b, c] == [a, b, c];
  }

  /** From the queue to the outcome. */
  lemma OutcomeReached(s: State, way: Way)
    requires s.work.None? && s.queue != []
    ensures Leads(s, ToOutcome(way),
                  s.(queue := s.queue[1..], work := Some(Work(s.queue[0], Outcome(way))),
                     store := if way.Files? || way.FailsLate? then s.store + {s.queue[0].id} else s.store))
  {
    match way
    case Files => LeadsTwice(s, Get, File(true));
    case Fails => LeadsTwice(s, Get, File(false));
    case FailsLate => LeadsThrice(s, Get, File(true), RaiseAfterFiling);
    case Breaks => LeadsTwice(s, Get, WorkerException);
  }

  /** What is left of a job when it is through. */
  function Through(s: State, job: Job, way: Way, written: bool): State {
    s.(work := None,
       log := if !job.emit || !written then s.log
              else s.log + {if way.Files? then DrawerFiled(job.id) else CaptureFailed(job.id)},
       posted := if job.fut.Some? then s.posted + [job.fut.value] else s.posted,
       spool := if job.spooled && (way.Files? || way.Breaks?) then s.spool - {job.id} else s.spool)
  }

  lemma OutcomeDealtWith(s: State, job: Job, way: Way, written: bool)
    requires s.work == Some(Work(job, Outcome(way)))
    ensures Leads(s, FromOutcome(way, written), Through(s, job, way, written))
  {
    if way.Files? || way.Breaks? {
      LeadsThrice(s, Log(written), Post, Finish);
    } else {
      LeadsTwice(s, Log(written), Post);
    }
  }

  /** The drain thread takes the oldest job. It stores the drawer unless the filing itself
      fails, logs one outcome, posts the result once, and deletes the spool entry of what it
      filed and of what broke it, but not of what failed. */
  lemma DrainExact(s: State, way: Way, written: bool)
    requires s.work.None? && s.queue != []
    ensures var job := s.queue[0];
            Leads(s, ToOutcome(way) + FromOutcome(way, written),
                  s.(queue := s.queue[1..],
                     store := if way.Files? || way.FailsLate? then s.store + {job.id} else s.store,
                     log := if !job.emit || !written then s.log
                            else s.log + {if way.Files? then DrawerFiled(job.id) else CaptureFailed(job.id)},
                     posted := if job.fut.Some? then s.posted + [job.fut.value] else s.posted,
                     spool := if job.spooled && (way.Files? || way.Breaks?) then s.spool - {job.id} else s.spool))
  {
    OutcomeReached(s, way);
    var m := s.(queue := s.queue[1..], work := Some(Work(s.queue[0], Outcome(way))),
                store := if way.Files? || way.FailsLate? then s.store + {s.queue[0].id} else s.store);
    OutcomeDealtWith(m, s.queue[0], way, written);
    LeadsOn(s, ToOutcome(way), m, FromOutcome(way, written), Through(m, s.queue[0], way, written));
  }

  ghost predicate AllSettled(futures: seq<Future>, posted: seq<nat>, settled: seq<Future>) {
    && |settled| == |futures|
    && forall f :: 0 <= f < |futures| ==>
         settled[f] == if f in posted && !futures[f].done then Future(true, futures[f].settles + 1) else futures[f]
  }

  lemma SettledFirst(futures: seq<Future>, posted: seq<nat>, settled: seq<Future>)
    requires posted != [] && posted[0] < |futures| && AllSettled(Settle(futures, posted[0]), posted[1..], settled)
    ensures AllSettled(futures, posted, settled)
  {
    assert posted == [posted[0]] + posted[1..];
  }

  /** The callbacks settle exactly the futures posted that were not done, each once. */
  lemma {:induction false} CallbacksExact(s: State) returns (path: seq<Step>, settled: seq<Future>)
    requires FuturesExist(s)
    ensures Leads(s, path, s.(posted := [], futures := settled))
    ensures |path| == |s.posted| && forall i :: 0 <= i < |path| ==> path[i] == RunCallback
    ensures AllSettled(s.futures, s.posted, settled)
    decreases |s.posted|
  {
    if s.posted == [] {
      path, settled := [], s.futures;
    } else {
      StepKeepsExisting(s, RunCallback);
      path, settled := CallbacksExact(Next(s, RunCallback));
      SettledFirst(s.futures, s.posted, settled);
      LeadsFirst(s, RunCallback, path, s.(posted := [], futures := settled));
      path := [RunCallback] + path;
    }
  }

  /** What the drain thread and the loop do next, if anything is left to do. */
  function Onward(s: State): Option<Step> {
    if s.posted != [] then Some(RunCallback)
    else if s.work.None? then if s.queue != [] then Some(Get) else None
    else if s.work.value.stage.Popped? then Some(File(true))
    else if ToBeLogged(s.work.value.stage) then Some(Log(true))
    else if ToBePosted(s.work.value.stage) then Some(Post)
    else Some(Finish)
  }

  function LeftToDo(s: State): nat {
    7 * |s.queue| + |s.posted|
    + if s.work.None? then 0
      else if s.work.value.stage.Popped? then 6
      else if ToBeLogged(s.work.value.stage) then 5
      else if ToBePosted(s.work.value.stage) then 4 else 1
  }

  lemma OnwardMoves(s: State)
    requires Onward(s).Some? && FuturesExist(s)
    ensures Enabled(s, Onward(s).value) && LeftToDo(Next(s, Onward(s).value)) < LeftToDo(s)
    ensures !Onward(s).value.Crash?
  {
  }

  /** Nothing hangs: from any state of a run the drain thread and the loop alone can go on,
      without a crash, until nothing is queued, in hand or posted, and then every completion
      future is done. */
  lemma {:induction false} NothingHangs(s: State) returns (path: seq<Step>, s': State)
    requires FuturesExist(s) && NoneForgotten(s)
    ensures Leads(s, path, s') && Crash !in path && |path| <= LeftToDo(s)
    ensures s'.queue == [] && s'.work.None? && s'.posted == []
    ensures forall f :: 0 <= f < |s'.futures| ==> s'.futures[f].done
    decreases LeftToDo(s)
  {
    var step := Onward(s);
    if step.None? {
      path, s' := [], s;
    } else {
      OnwardMoves(s);
      StepKeepsExisting(s, step.value);
      StepKeepsForgotten(s, step.value);
      path, s' := NothingHangs(Next(s, step.value));
      LeadsFirst(s, step.value, path, s');
      path := [step.value] + path;
    }
  }

  ghost predicate Writes(steps: seq<Step>, i: nat, id: Id) {
    exists k :: 0 <= k < i <= |steps| && steps[k].Spool? && steps[k].id == id && steps[k].written
  }

  lemma StepRemembers(s: State, step: Step, id: Id)
    ensures id in Next(s, step).spooled <==> id in s.spooled || (step.Spool? && step.id == id && step.written)
  {
  }

  /** The captures remembered as spooled are those whose spool write succeeded. */
  lemma {:induction false} SpooledExact(states: seq<State>, steps: seq<Step>, i: nat, id: Id)
    requires Run(states, steps) && i < |states|
    ensures id in states[i].spooled <==> Writes(steps, i, id)
  {
    if i > 0 {
      SpooledExact(states, steps, i - 1, id);
      StepRemembers(states[i - 1], steps[i - 1], id);
    }
  }

  lemma {:induction false} ReplayKeepsRecords(s: State)
    requires s.replay.Some?
    ensures ReplayToEnd(s).log == s.log && ReplayToEnd(s).store == s.store
    ensures ReplayToEnd(s).hot == s.hot && ReplayToEnd(s).work == s.work
    decreases |s.replay.value.todo|
  {
    if Next(s, ReplayNext).replay.Some? {
      ReplayKeepsRecords(Next(s, ReplayNext));
    }
  }

  /** A crash, and the replay of the next mount to its end. */
  function Restarted(s: State, completed: set<Id>, todo: seq<Id>): State {
    ReplayToEnd(Next(Next(s, Crash), StartReplay(completed, todo)))
  }

  /** A restart after a crash at any moment: the replay puts the captures without an outcome
      on the empty queue, as many as fit; all of them stay spooled; when all fit nothing else
      does; and what had been logged and stored is there as before. */
  lemma RestartRecovers(s: State, completed: set<Id>, todo: seq<Id>)
    requires Distinct(todo) && forall id :: id in todo <==> id in s.spool
    requires forall id :: id in completed <==> Logged(s.log, id)
    ensures var s' := Restarted(s, completed, todo);
            var orphans := Orphans(s.spool, completed, todo);
            && Enabled(s, Crash) && Enabled(Next(s, Crash), StartReplay(completed, todo))
            && Ids(s'.queue) == Fit(orphans, QUEUE_MAXSIZE)
            && (forall id :: Unfinished(s.spool, completed, id) ==> id in s'.spool && s'.spool[id] == s.spool[id])
            && (|orphans| <= QUEUE_MAXSIZE ==> forall id :: id in s'.spool <==> Unfinished(s.spool, completed, id))
            && s'.log == s.log && s'.store == s.store && s'.hot.None? && s'.work.None?
  {
    var start := State(s.spool, s.log, s.store, None, [], None, Some(Replay(completed, todo)), [], [],
                       s.spooled, s.used);
    assert Next(Next(s, Crash), StartReplay(completed, todo)) == start;
    ReplayStepsWalk(start);
    ReplayKeepsRecords(start);
    WalkExact(s.spool, completed, todo, QUEUE_MAXSIZE);
    assert Ids(start.queue) == [];
  }

  /** A malformed file that somebody leaves in the spool is never enqueued by the next replay,
      and dropped when all the unfinished captures fit. */
  lemma MalformedIsDropped(s: State, id: Id, completed: set<Id>, todo: seq<Id>)
    requires Enabled(s, Foreign(id)) && Distinct(todo) && forall c :: c in completed <==> Logged(s.log, c)
    requires forall c :: c in todo <==> c in Next(s, Foreign(id)).spool
    ensures var m := Next(s, Foreign(id));
            var s' := Restarted(m, completed, todo);
            && id in m.spool && id !in Ids(s'.queue)
            && (|Orphans(m.spool, completed, todo)| <= QUEUE_MAXSIZE ==> id !in s'.spool)
  {
    var m := Next(s, Foreign(id));
    RestartRecovers(m, completed, todo);
    OrphansExact(m.spool, completed, todo, id);
  }

  /** A task that is cancelled has its future done, like one that is answered. */
  lemma CancelSettles(s: State, f: nat)
    requires Enabled(s, CancelTask(f))
    ensures Leads(s, [CancelTask(f)], s.(futures := s.futures[f := Future(true, s.futures[f].settles + 1)]))
  {
    LeadsFirst(s, CancelTask(f), [], Next(s, CancelTask(f)));
    assert [CancelTask(f)] + [] == [CancelTask(f)];
  }
}
