/** Interjecting memories: the gate with its cooldown and briefed ids, the guard flag between
    turns, and the length-capped injection text. Events come one after another. */
module Interject {
  import opened EventLog
  import opened Text

  type Id = string

  /** `contradicts`: the text holds one of the contradiction keywords. */
  datatype Memory = Memory(id: Id, text: string, score: real, contradicts: bool)

  datatype Config = Config(
    threshold: real,
    band: real,
    maxChars: int,
    cooldown: int,
    promptEnabled: bool,
    toolEnabled: bool,
    orcEnabled: bool,
    judgeEnabled: bool)

  datatype State = State(turn: nat, last: map<Id, nat>, flag: bool, briefed: set<Id>)

  /** `skip`: a child session or an automated run. `found` are the search results, empty when
      retrieval failed; `judged` the judge's scores for the uncertain ones. */
  datatype Event =
    | PromptSubmit(skip: bool, length: nat, found: seq<Memory>, judged: seq<real>)
    | ToolPre(skip: bool, length: nat, found: seq<Memory>, judged: seq<real>)
    | OrchestratorComplete(skip: bool, length: nat, found: seq<Memory>, judged: seq<real>)
    | BriefingAssembled(ids: set<Id>)

  const INITIAL := State(0, map[], false, {})

  // ---------------------------------------------------------------------------
  // The gate
  // ---------------------------------------------------------------------------

  function LastInjected(s: State, id: Id): int {
    if id in s.last then s.last[id] else -999
  }

  predicate OnCooldown(cfg: Config, s: State, id: Id) {
    s.turn - LastInjected(s, id) < cfg.cooldown
  }

  /** The candidates that are neither briefed nor on cooldown. */
  function Fresh(cfg: Config, s: State, found: seq<Memory>): (r: seq<Memory>)
    ensures forall m :: m in r <==> m in found && m.id !in s.briefed && !OnCooldown(cfg, s, m.id)
  {
    if found == [] then []
    else
      var rest := Fresh(cfg, s, found[..|found| - 1]);
      var m := found[|found| - 1];
      if m.id !in s.briefed && !OnCooldown(cfg, s, m.id) then rest + [m] else rest
  }

  function AboveThreshold(cfg: Config, ms: seq<Memory>): (r: seq<Memory>)
    ensures forall m :: m in r <==> m in ms && m.score >= cfg.threshold
  {
    if ms == [] then []
    else
      var rest := AboveThreshold(cfg, ms[..|ms| - 1]);
      if ms[|ms| - 1].score >= cfg.threshold then rest + [ms[|ms| - 1]] else rest
  }

  function Uncertain(cfg: Config, ms: seq<Memory>): (r: seq<Memory>)
    ensures forall m :: m in r <==> m in ms && cfg.threshold - cfg.band <= m.score < cfg.threshold
  {
    if ms == [] then []
    else
      var rest := Uncertain(cfg, ms[..|ms| - 1]);
      var m := ms[|ms| - 1];
      if cfg.threshold - cfg.band <= m.score < cfg.threshold then rest + [m] else rest
  }

  /** The uncertain ones the judge promotes; pairing stops with the shorter list. */
  function Promoted(uncertain: seq<Memory>, judged: seq<real>): seq<Memory> {
    if uncertain == [] || judged == [] then []
    else (if judged[0] >= 0.7 then [uncertain[0]] else []) + Promoted(uncertain[1..], judged[1..])
  }

  /** The judge found the memory relevant enough. */
  ghost predicate JudgedRelevant(uncertain: seq<Memory>, judged: seq<real>, m: Memory) {
    exists i :: 0 <= i < |uncertain| && i < |judged| && uncertain[i] == m && judged[i] >= 0.7
  }

  lemma {:induction false} PromotedExact(uncertain: seq<Memory>, judged: seq<real>, m: Memory)
    ensures m in Promoted(uncertain, judged) <==> JudgedRelevant(uncertain, judged, m)
  {
    if uncertain != [] && judged != [] {
      PromotedExact(uncertain[1..], judged[1..], m);
      if i :| 0 <= i < |uncertain| && i < |judged| && uncertain[i] == m && judged[i] >= 0.7 && i > 0 {
        assert uncertain[1..][i - 1] == m && judged[1..][i - 1] >= 0.7;
      }
      if i :| 0 <= i < |uncertain[1..]| && i < |judged[1..]| && uncertain[1..][i] == m && judged[1..][i] >= 0.7 {
        assert uncertain[i + 1] == m && judged[i + 1] >= 0.7;
      }
    }
  }

  /** The first of those with the highest score. */
  function Best(ms: seq<Memory>): (i: nat)
    requires ms != []
    ensures i < |ms| && forall j :: 0 <= j < |ms| ==> ms[j].score <= ms[i].score
    ensures forall j :: 0 <= j < i ==> ms[j].score < ms[i].score
  {
    if |ms| == 1 then 0
    else
      var b := Best(ms[..|ms| - 1]);
      if ms[|ms| - 1].score > ms[b].score then |ms| - 1 else b
  }

  /** `sorted(..., reverse=True)[:2]`. */
  function TopTwo(ms: seq<Memory>): (r: seq<Memory>)
    ensures forall m :: m in r ==> m in ms
    ensures |r| == if |ms| <= 2 then |ms| else 2
    ensures r != [] ==> forall m :: m in ms ==> m.score <= r[0].score
  {
    if ms == [] then []
    else
      var b := Best(ms);
      var rest := ms[..b] + ms[b + 1..];
      if rest == [] then [ms[b]] else [ms[b], rest[Best(rest)]]
  }

  /** Of three or more, the two taken are two different ones that no other outscores. */
  lemma TopTwoAreBest(ms: seq<Memory>)
    requires |ms| > 2
    ensures exists i, j :: && 0 <= i < |ms| && 0 <= j < |ms| && i != j && TopTwo(ms) == [ms[i], ms[j]]
                           && ms[j].score <= ms[i].score
                           && forall k :: 0 <= k < |ms| && k != i && k != j ==> ms[k].score <= ms[j].score
  {
    var b := Best(ms);
    var rest := ms[..b] + ms[b + 1..];
    var j := Position(ms, b, Best(rest));
    assert TopTwo(ms) == [ms[b], rest[Best(rest)]];
    forall k | 0 <= k < |ms| && k != b && k != j
      ensures ms[k].score <= ms[j].score
    {
      var d := if k < b then k else k - 1;
      assert rest[d] == ms[k];
    }
  }

  /** Where an item of the list without its `b`-th stands in the list. */
  lemma Position(ms: seq<Memory>, b: nat, c: nat) returns (j: nat)
    requires b < |ms| && c < |ms| - 1
    ensures j < |ms| && j != b && ms[j] == (ms[..b] + ms[b + 1..])[c]
  {
    j := if c < b then c else c + 1;
  }

  /** What the gate chooses from. */
  function Passing(cfg: Config, s: State, found: seq<Memory>, judged: seq<real>): seq<Memory> {
    var open := Fresh(cfg, s, found);
    var promoted := if cfg.judgeEnabled then Promoted(Uncertain(cfg, open), judged) else [];
    AboveThreshold(cfg, open) + promoted
  }

  /** What passes the gate; empty means nothing is injected. */
  function Gate(cfg: Config, s: State, found: seq<Memory>, judged: seq<real>): (r: seq<Memory>)
    ensures |r| <= 2 && forall m :: m in r ==> m.score <= r[0].score
    ensures !cfg.judgeEnabled ==> forall m :: m in r ==> m.score >= cfg.threshold
  {
    TopTwo(Passing(cfg, s, found, judged))
  }

  /** Last injected long enough ago; never injected counts as turn -999. */
  predicate Rested(cfg: Config, s: State, id: Id) {
    s.turn >= cfg.cooldown + if id in s.last then s.last[id] else -999
  }

  /** What a memory takes to be chosen from, exactly: found, not briefed, rested, and either
      scored high enough or, with the judge on, close to that and judged relevant. */
  lemma PassingExact(cfg: Config, s: State, found: seq<Memory>, judged: seq<real>, m: Memory)
    ensures m in Passing(cfg, s, found, judged) <==>
            && m in found && m.id !in s.briefed && Rested(cfg, s, m.id)
            && (m.score >= cfg.threshold
                || (cfg.judgeEnabled && JudgedRelevant(Uncertain(cfg, Fresh(cfg, s, found)), judged, m)))
  {
    var uncertain := Uncertain(cfg, Fresh(cfg, s, found));
    PromotedExact(uncertain, judged, m);
    if i :| 0 <= i < |uncertain| && i < |judged| && uncertain[i] == m && judged[i] >= 0.7 {
      assert m in uncertain;
    }
  }

  lemma GateInFound(cfg: Config, s: State, found: seq<Memory>, judged: seq<real>, m: Memory)
    requires m in Gate(cfg, s, found, judged)
    ensures m in found && m.id !in s.briefed && Rested(cfg, s, m.id)
  {
    PassingExact(cfg, s, found, judged, m);
  }

  /** Of what may be chosen from, the gate takes the best two: nothing only if there is
      nothing, and nothing it leaves outscores what it takes. */
  lemma GateTakesTheBest(cfg: Config, s: State, found: seq<Memory>, judged: seq<real>)
    ensures BestTwo(Passing(cfg, s, found, judged), Gate(cfg, s, found, judged))
  {
    TopTwoTakesTheBest(Passing(cfg, s, found, judged));
  }

  ghost predicate BestTwo(all: seq<Memory>, r: seq<Memory>) {
    && |r| == (if |all| <= 2 then |all| else 2)
    && (forall m :: m in r ==> m in all)
    && forall m, t :: m in all && m !in r && t in r ==> m.score <= t.score
  }

  lemma TopTwoTakesTheBest(all: seq<Memory>)
    ensures BestTwo(all, TopTwo(all))
  {
    if |all| > 2 {
      TopTwoAreBest(all);
      var i, j :| && 0 <= i < |all| && 0 <= j < |all| && i != j && TopTwo(all) == [all[i], all[j]]
                  && all[j].score <= all[i].score
                  && forall k :: 0 <= k < |all| && k != i && k != j ==> all[k].score <= all[j].score;
      LeftOutAreBelow(all, i, j);
    } else if |all| == 2 {
      BothTaken(all);
    }
  }

  lemma LeftOutAreBelow(all: seq<Memory>, i: nat, j: nat)
    requires i < |all| && j < |all| && all[j].score <= all[i].score
    requires forall k :: 0 <= k < |all| && k != i && k != j ==> all[k].score <= all[j].score
    ensures forall m, t :: m in all && m !in [all[i], all[j]] && t in [all[i], all[j]] ==> m.score <= t.score
  {
    forall m | m in all && m !in [all[i], all[j]]
      ensures m.score <= all[j].score
    {
      var k :| 0 <= k < |all| && all[k] == m;
    }
  }

  lemma BothTaken(ms: seq<Memory>)
    requires |ms| == 2
    ensures forall m :: m in ms ==> m in TopTwo(ms)
  {
    var b := Best(ms);
    var rest := ms[..b] + ms[b + 1..];
    assert rest == [ms[1 - b]];
    assert TopTwo(ms) == [ms[b], ms[1 - b]];
  }

  function Contradicting(ms: seq<Memory>): (r: seq<Memory>)
    ensures forall m :: m in r <==> m in ms && m.contradicts
  {
    if ms == [] then []
    else
      var rest := Contradicting(ms[..|ms| - 1]);
      if ms[|ms| - 1].contradicts then rest + [ms[|ms| - 1]] else rest
  }

  // ---------------------------------------------------------------------------
  // The handlers
  // ---------------------------------------------------------------------------

  function Ids(ms: seq<Memory>): set<Id> {
    set m | m in ms :: m.id
  }

  function MarkInjected(s: State, ms: seq<Memory>): State {
    s.(last := map id | id in s.last.Keys + Ids(ms) :: if id in Ids(ms) then s.turn else s.last[id])
  }

  /** The new state, and what is injected. */
  function OnPrompt(cfg: Config, s: State, e: Event): (State, seq<Memory>)
    requires e.PromptSubmit?
  {
    if e.skip || !cfg.promptEnabled || e.length < 20 then (s, [])
    else
      var reset := s.(flag := false);
      var ms := Gate(cfg, reset, e.found, e.judged);
      if ms == [] then (reset, []) else (MarkInjected(reset, ms).(flag := true), ms)
  }

  function OnTool(cfg: Config, s: State, e: Event): (State, seq<Memory>)
    requires e.ToolPre?
  {
    if e.skip || !cfg.toolEnabled || e.length < 15 then (s, [])
    else
      var ms := Gate(cfg, s, e.found, e.judged);
      if ms == [] then (s, []) else (MarkInjected(s, ms), ms)
  }

  function OnOrchestrator(cfg: Config, s: State, e: Event): (State, seq<Memory>)
    requires e.OrchestratorComplete?
  {
    var next := s.(turn := s.turn + 1);
    if e.skip || !cfg.orcEnabled then (next, [])
    else if s.flag then (next.(flag := false), [])
    else if e.length < 50 then (next, [])
    else
      var ms := Contradicting(Gate(cfg, next, e.found, e.judged));
      if ms == [] then (next, []) else (MarkInjected(next, ms).(flag := true), ms)
  }

  function Handle(cfg: Config, s: State, e: Event): (State, seq<Memory>) {
    match e
    case PromptSubmit(_, _, _, _) => OnPrompt(cfg, s, e)
    case ToolPre(_, _, _, _) => OnTool(cfg, s, e)
    case OrchestratorComplete(_, _, _, _) => OnOrchestrator(cfg, s, e)
    case BriefingAssembled(ids) => (s.(briefed := s.briefed + (ids - {""})), [])
  }

  class MemoryInterjectHook {
    const cfg: Config
    var turn: nat
    var lastInjected: map<Id, nat>
    var injectedThisTurn: bool
    var briefedIds: set<Id>

    function Now(): State
      reads this
    {
      State(turn, lastInjected, injectedThisTurn, briefedIds)
    }

    constructor (cfg: Config)
      ensures this.cfg == cfg && Now() == INITIAL
    {
      this.cfg := cfg;
      turn, lastInjected, injectedThisTurn, briefedIds := 0, map[], false, {};
    }

    method Mark(ms: seq<Memory>)
      modifies this`lastInjected
      ensures Now() == MarkInjected(old(Now()), ms)
    {
      ghost var start := lastInjected;
      for i := 0 to |ms|
        invariant lastInjected.Keys == start.Keys + Ids(ms[..i])
        invariant forall id :: id in lastInjected ==>
                    lastInjected[id] == if id in Ids(ms[..i]) then turn else start[id]
      {
        assert forall m :: m in ms[..i + 1] <==> m in ms[..i] || m == ms[i];
        assert Ids(ms[..i + 1]) == Ids(ms[..i]) + {ms[i].id};
        lastInjected := lastInjected[ms[i].id := turn];
      }
      assert ms[..|ms|] == ms;
    }

    method HandlePromptSubmit(e: Event) returns (injected: seq<Memory>)
      requires e.PromptSubmit?
      modifies this
      ensures (Now(), injected) == OnPrompt(cfg, old(Now()), e)
    {
      if e.skip || !cfg.promptEnabled || e.length < 20 {
        return [];
      }
      injectedThisTurn := false;
      injected := Gate(cfg, Now(), e.found, e.judged);
      if injected != [] {
        Mark(injected);
        injectedThisTurn := true;
      }
    }

    method HandleToolPre(e: Event) returns (injected: seq<Memory>)
      requires e.ToolPre?
      modifies this
      ensures (Now(), injected) == OnTool(cfg, old(Now()), e)
    {
      if e.skip || !cfg.toolEnabled || e.length < 15 {
        return [];
      }
      injected := Gate(cfg, Now(), e.found, e.judged);
      if injected != [] {
        Mark(injected);
      }
    }

    method HandleOrchestratorComplete(e: Event) returns (injected: seq<Memory>)
      requires e.OrchestratorComplete?
      modifies this
      ensures (Now(), injected) == OnOrchestrator(cfg, old(Now()), e)
    {
      turn := turn + 1;
      if e.skip || !cfg.orcEnabled {
        return [];
      }
      if injectedThisTurn {
        injectedThisTurn := false;
        return [];
      }
      if e.length < 50 {
        return [];
      }
      injected := Contradicting(Gate(cfg, Now(), e.found, e.judged));
      if injected != [] {
        Mark(injected);
        injectedThisTurn := true;
      }
    }
  }

  // ---------------------------------------------------------------------------
  // Whole runs
  // ---------------------------------------------------------------------------

  /** `states[i]` is the state before event `i`, `outs[i]` what that event injects. */
  ghost predicate Run(cfg: Config, states: seq<State>, outs: seq<seq<Memory>>, events: seq<Event>) {
    && |states| == |events| + 1 && |outs| == |events|
    && states[0] == INITIAL
    && forall i :: 0 <= i < |events| ==> Stepped(cfg, states, outs, events, i)
  }

  ghost predicate Stepped(cfg: Config, states: seq<State>, outs: seq<seq<Memory>>, events: seq<Event>, i: nat)
    requires |states| == |events| + 1 && |outs| == |events| && i < |events|
  {
    Handle(cfg, states[i], events[i]) == (states[i + 1], outs[i])
  }

  /** What the event would inject of the memories it found. */
  function Chosen(cfg: Config, s: State, e: Event): seq<Memory> {
    match e
    case PromptSubmit(_, _, found, judged) => Gate(cfg, s.(flag := false), found, judged)
    case ToolPre(_, _, found, judged) => Gate(cfg, s, found, judged)
    case OrchestratorComplete(_, _, found, judged) =>
      Contradicting(Gate(cfg, s.(turn := s.turn + 1), found, judged))
    case BriefingAssembled(_) => []
  }

  /** The event gets past the early checks. */
  predicate Heeded(cfg: Config, s: State, e: Event) {
    match e
    case PromptSubmit(skip, length, _, _) => !skip && cfg.promptEnabled && length >= 20
    case ToolPre(skip, length, _, _) => !skip && cfg.toolEnabled && length >= 15
    case OrchestratorComplete(skip, length, _, _) => !skip && cfg.orcEnabled && !s.flag && length >= 50
    case BriefingAssembled(_) => false
  }

  lemma InjectsWhenHeeded(cfg: Config, s: State, e: Event)
    requires Heeded(cfg, s, e)
    ensures Handle(cfg, s, e).1 == Chosen(cfg, s, e)
  {
    if e.PromptSubmit? {
      PromptInjects(cfg, s, e);
    } else if e.ToolPre? {
      ToolInjects(cfg, s, e);
    } else {
      OrchestratorInjects(cfg, s, e);
    }
  }

  lemma PromptInjects(cfg: Config, s: State, e: Event)
    requires Heeded(cfg, s, e) && e.PromptSubmit?
    ensures OnPrompt(cfg, s, e).1 == Chosen(cfg, s, e)
  {
    assert Chosen(cfg, s, e) == Gate(cfg, s.(flag := false), e.found, e.judged);
  }

  lemma ToolInjects(cfg: Config, s: State, e: Event)
    requires Heeded(cfg, s, e) && e.ToolPre?
    ensures OnTool(cfg, s, e).1 == Chosen(cfg, s, e)
  {
    assert Chosen(cfg, s, e) == Gate(cfg, s, e.found, e.judged);
  }

  lemma OrchestratorInjects(cfg: Config, s: State, e: Event)
    requires Heeded(cfg, s, e) && e.OrchestratorComplete?
    ensures OnOrchestrator(cfg, s, e).1 == Chosen(cfg, s, e)
  {
    var next := s.(turn := s.turn + 1);
    var ms := Contradicting(Gate(cfg, next, e.found, e.judged));
    assert Chosen(cfg, s, e) == ms;
    assert OnOrchestrator(cfg, s, e).1 == if ms == [] then [] else ms;
  }

  lemma NothingUnlessHeeded(cfg: Config, s: State, e: Event)
    requires !Heeded(cfg, s, e)
    ensures Handle(cfg, s, e).1 == []
  {
  }

  /** An event that is heeded injects what it chooses, all of it; another one nothing. */
  lemma InjectsExactly(cfg: Config, s: State, e: Event)
    ensures Heeded(cfg, s, e) ==> Handle(cfg, s, e).1 == Chosen(cfg, s, e)
    ensures !Heeded(cfg, s, e) ==> Handle(cfg, s, e).1 == []
  {
    if Heeded(cfg, s, e) {
      InjectsWhenHeeded(cfg, s, e);
    } else {
      NothingUnlessHeeded(cfg, s, e);
    }
  }

  lemma MarkOneId(s: State, ms: seq<Memory>, id: Id)
    ensures var last := MarkInjected(s, ms).last;
            && (id in last <==> id in s.last || id in Ids(ms))
            && (id in Ids(ms) ==> last[id] == s.turn)
            && (id !in Ids(ms) && id in s.last ==> last[id] == s.last[id])
  {
  }

  lemma ChosenFromGate(cfg: Config, s: State, e: Event, m: Memory)
    requires m in Chosen(cfg, s, e)
    ensures !e.BriefingAssembled?
    ensures var now := s.(turn := s.turn + if e.OrchestratorComplete? then 1 else 0);
            m in Gate(cfg, if e.PromptSubmit? then s.(flag := false) else now, e.found, e.judged)
  {
    if e.ToolPre? {
      assert s.(turn := s.turn + 0) == s;
    }
  }

  lemma ChosenIsRested(cfg: Config, s: State, e: Event, m: Memory)
    requires m in Chosen(cfg, s, e)
    ensures m.id !in s.briefed
    ensures Rested(cfg, s.(turn := s.turn + if e.OrchestratorComplete? then 1 else 0), m.id)
  {
    var now := s.(turn := s.turn + if e.OrchestratorComplete? then 1 else 0);
    var at := if e.PromptSubmit? then s.(flag := false) else now;
    ChosenFromGate(cfg, s, e, m);
    GateInFound(cfg, at, e.found, e.judged, m);
  }

  /** One event, seen from one id: the record of its last injection changes with an injection
      and with nothing else. */
  lemma HandleOneId(cfg: Config, s: State, e: Event, id: Id)
    ensures var (s', ms) := Handle(cfg, s, e);
            && s'.turn == s.turn + (if e.OrchestratorComplete? then 1 else 0)
            && s.briefed <= s'.briefed
            && (id in Ids(ms) ==> id in s'.last && s'.last[id] == s'.turn && id !in s.briefed
                                  && s'.turn - LastInjected(s, id) >= cfg.cooldown)
            && (id !in Ids(ms) ==> (id in s'.last <==> id in s.last)
                                   && (id in s.last ==> s'.last[id] == s.last[id]))
  {
    var (s', ms) := Handle(cfg, s, e);
    MarkOneId(s.(flag := false), ms, id);
    MarkOneId(s, ms, id);
    MarkOneId(s.(turn := s.turn + 1), ms, id);
    BriefedStep(cfg, s, e);
    if id in Ids(ms) {
      InjectsExactly(cfg, s, e);
      var m :| m in ms && m.id == id;
      ChosenIsRested(cfg, s, e, m);
    }
  }

  lemma BriefedStep(cfg: Config, s: State, e: Event)
    ensures Handle(cfg, s, e).0.briefed == s.briefed + if e.BriefingAssembled? then e.ids - {""} else {}
  {
  }

  lemma StepOneId(cfg: Config, states: seq<State>, outs: seq<seq<Memory>>, events: seq<Event>, i: nat, id: Id)
    requires Run(cfg, states, outs, events) && i < |events|
    ensures var s, s' := states[i], states[i + 1];
            && s'.turn == s.turn + (if events[i].OrchestratorComplete? then 1 else 0)
            && s.briefed <= s'.briefed
            && (id in Ids(outs[i]) ==> id in s'.last && s'.last[id] == s'.turn && id !in s.briefed
                                       && s'.turn - LastInjected(s, id) >= cfg.cooldown)
            && (id !in Ids(outs[i]) ==> (id in s'.last <==> id in s.last)
                                        && (id in s.last ==> s'.last[id] == s.last[id]))
  {
    assert Stepped(cfg, states, outs, events, i);
    HandleOneId(cfg, states[i], events[i], id);
  }

  /** Once injected, the record of the turn never goes back. */
  lemma {:induction false} RecordKept(cfg: Config, states: seq<State>, outs: seq<seq<Memory>>, events: seq<Event>,
                                      i: nat, j: nat, id: Id)
    requires Run(cfg, states, outs, events) && i < j <= |events| && id in Ids(outs[i])
    ensures id in states[j].last && states[i + 1].turn <= states[j].last[id]
    ensures states[i + 1].turn <= states[j].turn
    decreases j
  {
    StepOneId(cfg, states, outs, events, j - 1, id);
    if i < j - 1 {
      RecordKept(cfg, states, outs, events, i, j - 1, id);
    }
  }

  /** The turns that pass with the events from `i` on, up to `j`. */
  function Turns(events: seq<Event>, i: nat, j: nat): nat
    requires i <= j <= |events|
    decreases j - i
  {
    if i == j then 0 else Turns(events, i, j - 1) + if events[j - 1].OrchestratorComplete? then 1 else 0
  }

  lemma {:induction false} TurnsPass(cfg: Config, states: seq<State>, outs: seq<seq<Memory>>, events: seq<Event>,
                                     i: nat, j: nat)
    requires Run(cfg, states, outs, events) && i <= j <= |events|
    ensures states[j].turn == states[i].turn + Turns(events, i, j)
    decreases j - i
  {
    if i < j {
      TurnsPass(cfg, states, outs, events, i, j - 1);
      StepOneId(cfg, states, outs, events, j - 1, "");
    }
  }

  /** Cooldown over whole runs: between two injections of one id pass at least `cooldown`
      orchestrator events, the one that injects counted. */
  lemma CooldownKept(cfg: Config, states: seq<State>, outs: seq<seq<Memory>>, events: seq<Event>,
                     i: nat, j: nat, id: Id)
    requires Run(cfg, states, outs, events) && i < j < |events|
    requires id in Ids(outs[i]) && id in Ids(outs[j])
    ensures Turns(events, i + 1, j + 1) >= cfg.cooldown
  {
    RecordKept(cfg, states, outs, events, i, j, id);
    StepOneId(cfg, states, outs, events, j, id);
    TurnsPass(cfg, states, outs, events, i + 1, j + 1);
  }

  /** The record of an id is that of its last injection, and of none before the first. */
  ghost predicate LastInjectedAt(states: seq<State>, outs: seq<seq<Memory>>, i: nat, j: nat, id: Id)
    requires i < j <= |outs| && |states| == |outs| + 1
  {
    id in Ids(outs[i]) && forall k :: i < k < j ==> id !in Ids(outs[k])
  }

  ghost predicate WasInjected(states: seq<State>, outs: seq<seq<Memory>>, j: nat, id: Id)
    requires j <= |outs| && |states| == |outs| + 1
  {
    exists i :: 0 <= i < j && LastInjectedAt(states, outs, i, j, id)
  }

  lemma RecordNext(states: seq<State>, outs: seq<seq<Memory>>, i: nat, n: nat, id: Id)
    requires i < n < |outs| && |states| == |outs| + 1
    ensures LastInjectedAt(states, outs, i, n + 1, id) <==>
            LastInjectedAt(states, outs, i, n, id) && id !in Ids(outs[n])
  {
  }

  lemma InjectedNext(states: seq<State>, outs: seq<seq<Memory>>, n: nat, id: Id)
    requires n < |outs| && |states| == |outs| + 1
    ensures WasInjected(states, outs, n + 1, id) <==> WasInjected(states, outs, n, id) || id in Ids(outs[n])
  {
    if i :| 0 <= i < n && LastInjectedAt(states, outs, i, n, id) {
      RecordNext(states, outs, i, n, id);
    }
    if id in Ids(outs[n]) {
      assert LastInjectedAt(states, outs, n, n + 1, id);
    }
    var next := n + 1;
    if i :| 0 <= i < next && LastInjectedAt(states, outs, i, next, id) {
      if i < n {
        RecordNext(states, outs, i, n, id);
      }
    }
  }

  lemma {:induction false} RecordExact(cfg: Config, states: seq<State>, outs: seq<seq<Memory>>, events: seq<Event>,
                                       j: nat, id: Id)
    requires Run(cfg, states, outs, events) && j <= |events|
    ensures id in states[j].last <==> WasInjected(states, outs, j, id)
    ensures forall i :: 0 <= i < j && LastInjectedAt(states, outs, i, j, id) ==>
              id in states[j].last && states[j].last[id] == states[i + 1].turn
  {
    if j > 0 {
      var n := j - 1;
      RecordExact(cfg, states, outs, events, n, id);
      StepOneId(cfg, states, outs, events, n, id);
      InjectedNext(states, outs, n, id);
      forall i | 0 <= i < j && LastInjectedAt(states, outs, i, j, id)
        ensures id in states[j].last && states[j].last[id] == states[i + 1].turn
      {
        if i < n {
          RecordNext(states, outs, i, n, id);
        }
      }
    }
  }

  /** And the cooldown holds back nothing longer than that: where at least `cooldown` turns
      have passed since the last injection, the id is rested. */
  lemma RestedAfterCooldown(cfg: Config, states: seq<State>, outs: seq<seq<Memory>>, events: seq<Event>,
                            i: nat, j: nat, id: Id)
    requires Run(cfg, states, outs, events) && i < j <= |events| && LastInjectedAt(states, outs, i, j, id)
    ensures Rested(cfg, states[j], id) <==> Turns(events, i + 1, j) >= cfg.cooldown
  {
    RecordExact(cfg, states, outs, events, j, id);
    TurnsPass(cfg, states, outs, events, i + 1, j);
  }

  /** Turns pass only with orchestrator events, so without them nothing is injected twice. */
  lemma OnceWithoutOrchestrator(cfg: Config, states: seq<State>, outs: seq<seq<Memory>>, events: seq<Event>,
                                i: nat, j: nat, id: Id)
    requires Run(cfg, states, outs, events) && cfg.cooldown >= 1 && i < j < |events|
    requires forall k :: i < k <= j ==> !events[k].OrchestratorComplete?
    requires id in Ids(outs[i])
    ensures id !in Ids(outs[j])
  {
    NoTurns(events, i + 1, j + 1);
    if id in Ids(outs[j]) {
      CooldownKept(cfg, states, outs, events, i, j, id);
    }
  }

  lemma {:induction false} NoTurns(events: seq<Event>, i: nat, j: nat)
    requires i <= j <= |events| && forall k :: i <= k < j ==> !events[k].OrchestratorComplete?
    ensures Turns(events, i, j) == 0
    decreases j - i
  {
    if i < j {
      NoTurns(events, i, j - 1);
    }
  }

  /** The briefed ids are those some event briefed, the empty one left out. */
  lemma {:induction false} BriefedExact(cfg: Config, states: seq<State>, outs: seq<seq<Memory>>, events: seq<Event>,
                                        j: nat, id: Id)
    requires Run(cfg, states, outs, events) && j <= |events|
    ensures id in states[j].briefed <==>
            id != "" && exists i :: 0 <= i < j && events[i].BriefingAssembled? && id in events[i].ids
  {
    if j > 0 {
      BriefedExact(cfg, states, outs, events, j - 1, id);
      assert Stepped(cfg, states, outs, events, j - 1);
      BriefedStep(cfg, states[j - 1], events[j - 1]);
    }
  }

  /** An id briefed by some event is not injected by any later one. */
  lemma BriefedNeverInjected(cfg: Config, states: seq<State>, outs: seq<seq<Memory>>, events: seq<Event>,
                             i: nat, j: nat, id: Id)
    requires Run(cfg, states, outs, events) && i < j < |events|
    requires events[i].BriefingAssembled? && id in events[i].ids && id != ""
    ensures id !in Ids(outs[j])
  {
    BriefedExact(cfg, states, outs, events, j, id);
    StepOneId(cfg, states, outs, events, j, id);
  }

  /** Events that clear the guard flag: a prompt that gets past the early checks, or an
      orchestrator event that the guard swallows. */
  predicate ResetsFlag(cfg: Config, s: State, e: Event) {
    || (e.PromptSubmit? && !e.skip && cfg.promptEnabled && e.length >= 20)
    || (e.OrchestratorComplete? && !e.skip && cfg.orcEnabled && s.flag)
  }

  /** A prompt or an orchestrator event has injected, and nothing has cleared the flag since. */
  ghost predicate Guarded(cfg: Config, states: seq<State>, outs: seq<seq<Memory>>, events: seq<Event>, i: nat, j: nat)
    requires |states| == |events| + 1 && |outs| == |events| && i < j <= |events|
  {
    && (events[i].OrchestratorComplete? || events[i].PromptSubmit?) && outs[i] != []
    && forall k :: i < k < j ==> !ResetsFlag(cfg, states[k], events[k])
  }

  lemma GuardNext(cfg: Config, states: seq<State>, outs: seq<seq<Memory>>, events: seq<Event>, i: nat, n: nat)
    requires |states| == |events| + 1 && |outs| == |events| && i < n < |events|
    ensures Guarded(cfg, states, outs, events, i, n + 1) <==>
            Guarded(cfg, states, outs, events, i, n) && !ResetsFlag(cfg, states[n], events[n])
  {
  }

  ghost predicate GuardUp(cfg: Config, states: seq<State>, outs: seq<seq<Memory>>, events: seq<Event>, j: nat)
    requires |states| == |events| + 1 && |outs| == |events| && j <= |events|
  {
    exists i :: 0 <= i < j && Guarded(cfg, states, outs, events, i, j)
  }

  lemma GuardStep(cfg: Config, states: seq<State>, outs: seq<seq<Memory>>, events: seq<Event>, n: nat)
    requires |states| == |events| + 1 && |outs| == |events| && n < |events|
    ensures GuardUp(cfg, states, outs, events, n + 1) <==>
            || ((events[n].OrchestratorComplete? || events[n].PromptSubmit?) && outs[n] != [])
            || (GuardUp(cfg, states, outs, events, n) && !ResetsFlag(cfg, states[n], events[n]))
  {
    if (events[n].OrchestratorComplete? || events[n].PromptSubmit?) && outs[n] != [] {
      assert Guarded(cfg, states, outs, events, n, n + 1);
    }
    if i :| 0 <= i < n && Guarded(cfg, states, outs, events, i, n) {
      GuardNext(cfg, states, outs, events, i, n);
    }
    var next := n + 1;
    if i :| 0 <= i < next && Guarded(cfg, states, outs, events, i, next) {
      if i < n {
        GuardNext(cfg, states, outs, events, i, n);
      }
    }
  }

  /** The flag is up exactly then. */
  lemma {:induction false} FlagExact(cfg: Config, states: seq<State>, outs: seq<seq<Memory>>, events: seq<Event>,
                                     j: nat)
    requires Run(cfg, states, outs, events) && j <= |events|
    ensures states[j].flag <==> GuardUp(cfg, states, outs, events, j)
  {
    if j > 0 {
      FlagExact(cfg, states, outs, events, j - 1);
      assert Stepped(cfg, states, outs, events, j - 1);
      FlagStep(cfg, states[j - 1], events[j - 1]);
      GuardStep(cfg, states, outs, events, j - 1);
    }
  }

  /** The infinite-loop guard: after an injection by a prompt or an orchestrator event, no
      orchestrator event injects until something has cleared the flag. */
  lemma GuardHolds(cfg: Config, states: seq<State>, outs: seq<seq<Memory>>, events: seq<Event>, i: nat, j: nat)
    requires Run(cfg, states, outs, events) && i < j < |events| && events[j].OrchestratorComplete?
    requires Guarded(cfg, states, outs, events, i, j)
    ensures outs[j] == []
  {
    FlagExact(cfg, states, outs, events, j);
    assert GuardUp(cfg, states, outs, events, j);
    assert Stepped(cfg, states, outs, events, j);
    InjectsExactly(cfg, states[j], events[j]);
  }

  lemma FlagStep(cfg: Config, s: State, e: Event)
    ensures var (s', ms) := Handle(cfg, s, e);
            s'.flag <==> ((e.OrchestratorComplete? || e.PromptSubmit?) && ms != [])
                         || (s.flag && !ResetsFlag(cfg, s, e))
  {
  }

  // ---------------------------------------------------------------------------
  // The injection text
  // ---------------------------------------------------------------------------

  const SEPARATOR := "\n---\n"
  const ELLIPSIS := '\U{2026}'

  /** The separator, and the newline that joining puts before it. */
  const OVERHEAD := |SEPARATOR| + 1

  function Snippets(memories: seq<Memory>): seq<string> {
    if memories == [] then []
    else Snippets(memories[..|memories| - 1]) + [SEPARATOR + Strip(memories[|memories| - 1].text)]
  }

  /** The length of the text with nothing cut. */
  function Full(header: string, memories: seq<Memory>): nat {
    if memories == [] then |header|
    else Full(header, memories[..|memories| - 1]) + OVERHEAD + |Strip(memories[|memories| - 1].text)|
  }

  /** The first `n` memories fit under the cap, whole; one more would not. */
  ghost predicate FitsUpTo(header: string, memories: seq<Memory>, maxChars: int, n: nat) {
    && n <= |memories|
    && (n > 0 ==> Full(header, memories[..n]) <= maxChars)
    && (n < |memories| ==> Full(header, memories[..n + 1]) > maxChars)
  }

  /** What is left for the next memory, less an ellipsis. */
  function Room(header: string, memories: seq<Memory>, maxChars: int, n: nat): int
    requires n <= |memories|
  {
    maxChars - Full(header, memories[..n]) - OVERHEAD - 1
  }

  /** The beginning of the next memory, as much as there is room for. */
  function Beginning(header: string, memories: seq<Memory>, maxChars: int, n: nat): seq<string>
    requires FitsUpTo(header, memories, maxChars, n)
  {
    var room := Room(header, memories, maxChars, n);
    if n < |memories| && room > 0 then
      NextDoesNotFit(header, memories, maxChars, n);
      [SEPARATOR + Strip(memories[n].text)[..room] + [ELLIPSIS]]
    else []
  }

  lemma NextDoesNotFit(header: string, memories: seq<Memory>, maxChars: int, n: nat)
    requires n < |memories| && FitsUpTo(header, memories, maxChars, n)
    ensures Room(header, memories, maxChars, n) < |Strip(memories[n].text)|
  {
    assert memories[..n + 1][..n] == memories[..n];
  }

  /** The header depends on the trigger alone. As many memories as fit stand there whole, and
      of the next its beginning. The text is within the cap exactly when the header itself
      is. */
  method FormatInjection(memories: seq<Memory>, header: string, maxChars: int)
    returns (text: string, ghost n: nat)
    ensures memories == [] ==> text == ""
    ensures FitsUpTo(header, memories, maxChars, n)
    ensures memories != [] ==>
              text == Join("\n", [header] + Snippets(memories[..n]) + Beginning(header, memories, maxChars, n))
    ensures memories != [] ==> header <= text && (|text| <= maxChars <==> |header| <= maxChars)
    ensures memories != [] && Full(header, memories) <= maxChars ==>
              text == Join("\n", [header] + Snippets(memories))
  {
    if memories == [] {
      return "", 0;
    }
    var parts;
    parts, n := Parts(memories, header, maxChars);
    text := Join("\n", parts);
    TextLength(header, memories, maxChars, n);
    if Full(header, memories) <= maxChars {
      FitsWhole(header, memories, maxChars, n);
      assert [header] + Snippets(memories) + [] == [header] + Snippets(memories);
    }
  }

  /** The loop over the memories. */
  method Parts(memories: seq<Memory>, header: string, maxChars: int) returns (parts: seq<string>, ghost n: nat)
    ensures FitsUpTo(header, memories, maxChars, n)
    ensures parts == [header] + Snippets(memories[..n]) + Beginning(header, memories, maxChars, n)
  {
    var total: nat := |header|;
    parts := [header];
    for i := 0 to |memories|
      invariant WholeSoFar(header, memories, maxChars, i, parts, total)
    {
      n := i;
      OneMoreWhole(header, memories, i);
      var snippet := Strip(memories[i].text);
      if total + OVERHEAD + |snippet| > maxChars {
        // Room left for this snippet, less the ellipsis.
        var room := maxChars - total - OVERHEAD - 1;
        StopsHere(header, memories, maxChars, i, total, room);
        if room <= 0 {
          return;
        }
        parts := parts + [SEPARATOR + snippet[..room] + [ELLIPSIS]];
        return;
      }
      parts := parts + [SEPARATOR + snippet];
      total := total + OVERHEAD + |snippet|;
      n := i + 1;
      if total >= maxChars {
        FullAtCap(header, memories, maxChars, i + 1);
        return;
      }
    }
    n := |memories|;
    assert memories[..n] == memories;
    StopsAtEnd(header, memories, maxChars);
  }

  lemma StopsHere(header: string, memories: seq<Memory>, maxChars: int, i: nat, total: nat, room: int)
    requires i < |memories| && total == Full(header, memories[..i]) && (i > 0 ==> total <= maxChars)
    requires Full(header, memories[..i + 1]) > maxChars && room == maxChars - total - OVERHEAD - 1
    requires room < |Strip(memories[i].text)|
    ensures FitsUpTo(header, memories, maxChars, i)
    ensures Beginning(header, memories, maxChars, i) ==
            if room <= 0 then [] else [SEPARATOR + Strip(memories[i].text)[..room] + [ELLIPSIS]]
  {
  }

  lemma StopsAtEnd(header: string, memories: seq<Memory>, maxChars: int)
    requires memories != [] ==> Full(header, memories) <= maxChars
    ensures FitsUpTo(header, memories, maxChars, |memories|)
    ensures Beginning(header, memories, maxChars, |memories|) == []
  {
    assert memories[..|memories|] == memories;
  }

  /** What the loop has after `i` memories that fit whole. */
  ghost predicate WholeSoFar(header: string, memories: seq<Memory>, maxChars: int, i: nat, parts: seq<string>,
                             total: nat)
    requires i <= |memories|
  {
    && parts == [header] + Snippets(memories[..i]) && total == Full(header, memories[..i])
    && (i > 0 ==> total <= maxChars)
  }

  lemma OneMoreWhole(header: string, memories: seq<Memory>, i: nat)
    requires i < |memories|
    ensures Snippets(memories[..i + 1]) == Snippets(memories[..i]) + [SEPARATOR + Strip(memories[i].text)]
    ensures Full(header, memories[..i + 1]) == Full(header, memories[..i]) + OVERHEAD + |Strip(memories[i].text)|
  {
    assert memories[..i + 1][..i] == memories[..i];
  }

  /** At the cap no further memory fits, not even its beginning. */
  lemma FullAtCap(header: string, memories: seq<Memory>, maxChars: int, n: nat)
    requires 0 < n <= |memories| && Full(header, memories[..n]) == maxChars
    ensures FitsUpTo(header, memories, maxChars, n) && Beginning(header, memories, maxChars, n) == []
  {
    if n < |memories| {
      OneMoreWhole(header, memories, n);
    }
  }

  /** `total` counts the text exactly. */
  lemma {:induction false} WholeLength(header: string, memories: seq<Memory>)
    ensures |Join("\n", [header] + Snippets(memories))| == Full(header, memories)
    ensures header <= Join("\n", [header] + Snippets(memories))
  {
    if memories != [] {
      var front, last := memories[..|memories| - 1], memories[|memories| - 1];
      WholeLength(header, front);
      assert [header] + Snippets(memories) == [header] + Snippets(front) + [SEPARATOR + Strip(last.text)];
      JoinSnoc("\n", [header] + Snippets(front), SEPARATOR + Strip(last.text));
    }
  }

  lemma TextLength(header: string, memories: seq<Memory>, maxChars: int, n: nat)
    requires memories != [] && FitsUpTo(header, memories, maxChars, n)
    ensures var text := Join("\n", [header] + Snippets(memories[..n]) + Beginning(header, memories, maxChars, n));
            header <= text && (|text| <= maxChars <==> |header| <= maxChars)
  {
    var whole := [header] + Snippets(memories[..n]);
    var beginning := Beginning(header, memories, maxChars, n);
    WholeLength(header, memories[..n]);
    HeaderIsShortest(header, memories[..n]);
    if beginning != [] {
      JoinSnoc("\n", whole, beginning[0]);
      NextDoesNotFit(header, memories, maxChars, n);
      assert whole + beginning == whole + [beginning[0]];
    } else {
      assert whole + beginning == whole;
    }
  }

  lemma {:induction false} HeaderIsShortest(header: string, memories: seq<Memory>)
    ensures |header| <= Full(header, memories)
    ensures memories != [] ==> |header| < Full(header, memories)
  {
    if memories != [] {
      HeaderIsShortest(header, memories[..|memories| - 1]);
    }
  }

  /** When everything fits nothing is cut. */
  lemma FitsWhole(header: string, memories: seq<Memory>, maxChars: int, n: nat)
    requires FitsUpTo(header, memories, maxChars, n) && Full(header, memories) <= maxChars
    ensures memories[..n] == memories && Beginning(header, memories, maxChars, n) == []
  {
    if n < |memories| {
      FullGrows(header, memories, n + 1);
    }
  }

  lemma {:induction false} FullGrows(header: string, memories: seq<Memory>, i: nat)
    requires i <= |memories|
    ensures Full(header, memories[..i]) <= Full(header, memories)
    decreases |memories|
  {
    if i < |memories| {
      var front := memories[..|memories| - 1];
      FullGrows(header, front, i);
      assert front[..i] == memories[..i];
    } else {
      assert memories[..i] == memories;
    }
  }
}
