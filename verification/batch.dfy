/** Write batches: the direct batch of the substrate, the gateway's client-side batch of
    symbolic tokens, and the server loop that resolves them; and `file`, which takes
    whichever of three write paths the backend offers. */
module Batches {
  import opened EventLog
  import opened SearchFolds
  import Facts

  // ---------------------------------------------------------------------------
  // The kernel
  // ---------------------------------------------------------------------------

  /** The log after appending `events` in order at fresh positions. */
  function Appended(k: Kernel, events: seq<Event>): Kernel {
    if events == [] then k
    else
      var before := Appended(k, events[..|events| - 1]);
      Kernel(before.log + [Entry(before.next, events[|events| - 1])], before.next + 1)
  }

  class Store {
    var log: Log
    var next: nat

    ghost function State(): Kernel
      reads this
    {
      Kernel(log, next)
    }

    constructor ()
      ensures State() == Kernel([], 0)
    {
      log, next := [], 0;
    }

    /** `append_batch`: all of the events, or none when the kernel fails. */
    method AppendBatch(events: seq<Event>, fails: bool) returns (ok: bool)
      modifies this
      ensures ok == !fails
      ensures State() == if ok then Appended(old(State()), events) else old(State())
      ensures State().log == log && old(log) <= log && |log| == |old(log)| + if ok then |events| else 0
    {
      if fails {
        return false;
      }
      ghost var start := State();
      AppendedTail(start, events);
      for i := 0 to |events|
        invariant State() == Appended(start, events[..i])
      {
        assert events[..i + 1][..i] == events[..i];
        log, next := log + [Entry(next, events[i])], next + 1;
      }
      assert events[..|events|] == events;
      ok := true;
    }

    method Append(ev: Event)
      modifies this
      ensures State() == Appended(old(State()), [ev])
      ensures log == old(log) + [Entry(old(next), ev)]
    {
      assert [ev][..0] == [];
      log, next := log + [Entry(next, ev)], next + 1;
    }

    method WriteCell(payload: Bytes) returns (ref: Ref)
      modifies this
      ensures ref == Hash(payload, [])
      ensures State() == Appended(old(State()), [CellWrite(payload, [])])
    {
      Append(CellWrite(payload, []));
      ref := Hash(payload, []);
    }
  }

  lemma {:induction false} AppendedAppended(k: Kernel, a: seq<Event>, b: seq<Event>)
    ensures Appended(k, a + b) == Appended(Appended(k, a), b)
  {
    if b == [] {
      assert a + b == a;
    } else {
      AppendedAppended(k, a, b[..|b| - 1]);
      assert (a + b)[..|a + b| - 1] == a + b[..|b| - 1];
    }
  }

  /** Appending numbers the events from the first free position and changes no entry. */
  lemma {:induction false} AppendedTail(k: Kernel, events: seq<Event>)
    ensures var k' := Appended(k, events);
            && |k'.log| == |k.log| + |events| && k'.next == k.next + |events|
            && k.log <= k'.log
            && forall i :: 0 <= i < |events| ==> k'.log[|k.log| + i] == Entry(k.next + i, events[i])
  {
    if events != [] {
      AppendedTail(k, events[..|events| - 1]);
    }
  }

  lemma AppendedInjective(k: Kernel, a: seq<Event>, b: seq<Event>)
    requires Appended(k, a) == Appended(k, b)
    ensures a == b
  {
    AppendedTail(k, a);
    AppendedTail(k, b);
    var log := Appended(k, a).log;
    assert forall i :: 0 <= i < |a| ==> log[|k.log| + i] == Entry(k.next + i, a[i]);
  }

  // ---------------------------------------------------------------------------
  // The direct batch
  // ---------------------------------------------------------------------------

  class DirectBatch {
    var staged: seq<Event>

    constructor ()
      ensures staged == []
    {
      staged := [];
    }

    method WriteCell(payload: Bytes, interpreters: seq<string>) returns (ref: Ref)
      modifies this
      ensures ref == Hash(payload, interpreters) && staged == old(staged) + [CellWrite(payload, interpreters)]
      ensures CellRef(staged[|staged| - 1]) == Some(ref)
    {
      staged := staged + [CellWrite(payload, interpreters)];
      ref := Hash(payload, interpreters);
    }

    method Relate(from: Ref, to: Ref, rel: string)
      modifies this
      ensures staged == old(staged) + [Relationship(from, to, rel)]
    {
      staged := staged + [Relationship(from, to, rel)];
    }
  }

  // ---------------------------------------------------------------------------
  // The gateway batch
  // ---------------------------------------------------------------------------

  /** A reference string: a token minted by a batch, or a real content address. */
  datatype Name = Pending(token: nat) | Real(ref: Ref)

  datatype Op =
    | WriteCellOp(token: nat, payload: Bytes)
    | RelateOp(from: Name, to: Name, rel: string)
    | AssertFactOp(subject: Name, predicate_: string, object_: Name)
    | ScopeOp(cell: Name, scope: Name)
    | UnknownOp

  /** What the server stages for one op: an event, or an edge that still names a token. */
  datatype Staged = Staged(ev: Event) | Unresolved(from: Name, to: Name, rel: string)

  function Resolve(tokens: map<nat, Ref>, n: Name): Name {
    if n.Pending? && n.token in tokens then Real(tokens[n.token]) else n
  }

  function Edge(from: Name, to: Name, rel: string): Staged {
    if from.Real? && to.Real? then Staged(Relationship(from.ref, to.ref, rel)) else Unresolved(from, to, rel)
  }

  function Endpoints(op: Op): (Name, Name, string)
    requires !op.WriteCellOp? && !op.UnknownOp?
  {
    match op
    case RelateOp(f, t, rel) => (f, t, rel)
    case AssertFactOp(s, p, o) => (s, o, p)
    case ScopeOp(c, s) => (c, s, SCOPED_TO)
  }

  datatype Progress = Progress(tokens: map<nat, Ref>, staged: seq<Staged>)

  /** One turn of the server loop. */
  function Execute(p: Progress, op: Op): Progress
    requires !op.UnknownOp?
  {
    if op.WriteCellOp? then
      Progress(p.tokens[op.token := Hash(op.payload, [])], p.staged + [Staged(CellWrite(op.payload, []))])
    else
      var (f, t, rel) := Endpoints(op);
      p.(staged := p.staged + [Edge(Resolve(p.tokens, f), Resolve(p.tokens, t), rel)])
  }

  predicate AllKnown(ops: seq<Op>) {
    forall op :: op in ops ==> !op.UnknownOp?
  }

  function Executed(ops: seq<Op>): Progress
    requires AllKnown(ops)
  {
    if ops == [] then Progress(map[], [])
    else Execute(Executed(ops[..|ops| - 1]), ops[|ops| - 1])
  }

  /** Every token an op names was minted by an earlier op. */
  ghost predicate TokensMintedFirst(ops: seq<Op>)
    requires AllKnown(ops)
  {
    forall i :: 0 <= i < |ops| && !ops[i].WriteCellOp? ==>
      Minted(ops[..i], Endpoints(ops[i]).0) && Minted(ops[..i], Endpoints(ops[i]).1)
  }

  ghost predicate Minted(ops: seq<Op>, n: Name) {
    n.Real? || exists op :: op in ops && op.WriteCellOp? && op.token == n.token
  }

  lemma {:induction false} ResolvesMinted(ops: seq<Op>, n: Name)
    requires AllKnown(ops)
    ensures Resolve(Executed(ops).tokens, n).Real? <==> Minted(ops, n)
  {
    if ops != [] {
      var front, last := ops[..|ops| - 1], ops[|ops| - 1];
      ResolvesMinted(front, n);
      assert forall op :: op in ops <==> op in front || op == last;
      if last.WriteCellOp? && n.Pending? && last.token == n.token {
        assert last in ops;
      }
    }
  }

  /** The server hands the kernel nothing but events exactly when no op names a token
      ahead of the write that mints it. */
  lemma {:induction false} ResolvedExactlyWhenMinted(ops: seq<Op>)
    requires AllKnown(ops)
    ensures |Executed(ops).staged| == |ops|
    ensures (forall s :: s in Executed(ops).staged ==> s.Staged?) <==> TokensMintedFirst(ops)
  {
    if ops != [] {
      var front, last := ops[..|ops| - 1], ops[|ops| - 1];
      ResolvedExactlyWhenMinted(front);
      assert forall i :: 0 <= i < |front| ==> ops[..i] == front[..i];
      assert TokensMintedFirst(ops) <==>
          TokensMintedFirst(front) && (last.WriteCellOp? ||
          (Minted(front, Endpoints(last).0) && Minted(front, Endpoints(last).1))) by {
        assert ops[..|front|] == front;
      }
      var before, after := Executed(front).staged, Executed(ops).staged;
      var s := after[|after| - 1];
      assert after == before + [s];
      assert (forall t :: t in after ==> t.Staged?) <==> (forall t :: t in before ==> t.Staged?) && s.Staged?;
      if !last.WriteCellOp? {
        ResolvesMinted(front, Endpoints(last).0);
        ResolvesMinted(front, Endpoints(last).1);
        var tokens := Executed(front).tokens;
        assert s == Edge(Resolve(tokens, Endpoints(last).0), Resolve(tokens, Endpoints(last).1), Endpoints(last).2);
      }
    }
  }

  /** The server's `batch` tool up to the commit; None is the unknown-op error, raised
      before anything is committed. */
  method ServerStage(ops: seq<Op>) returns (result: Option<Progress>)
    ensures result.Some? <==> AllKnown(ops)
    ensures result.Some? ==> result.value == Executed(ops)
  {
    var p := Progress(map[], []);
    for i := 0 to |ops|
      invariant AllKnown(ops[..i]) && p == Executed(ops[..i])
    {
      if ops[i].UnknownOp? {
        assert ops[i] in ops;
        return None;
      }
      assert ops[..i + 1][..i] == ops[..i];
      p := Execute(p, ops[i]);
    }
    assert ops[..|ops|] == ops;
    result := Some(p);
  }

  function Commits(events: seq<Event>): seq<Staged> {
    seq(|events|, i requires 0 <= i < |events| => Staged(events[i]))
  }

  // -- what a program of calls stages -------------------------------------------

  /** The calls a caller makes on a batch; the three edge-making ones differ in the type. */
  datatype Call = Write(payload: Bytes, interpreters: seq<string>) | Link(from: Name, to: Name, rel: string)

  /** A direct batch keeps the interpreters of a cell, the gateway's drops them. */
  function Address(c: Call, kept: bool): Ref
    requires c.Write?
  {
    Hash(c.payload, if kept then c.interpreters else [])
  }

  function CellCount(program: seq<Call>): nat {
    if program == [] then 0
    else CellCount(program[..|program| - 1]) + if program[|program| - 1].Write? then 1 else 0
  }

  /** What each token of a program stands for. */
  function Refs(program: seq<Call>, kept: bool): (refs: seq<Ref>)
    ensures |refs| == CellCount(program)
  {
    if program == [] then []
    else
      var front, last := program[..|program| - 1], program[|program| - 1];
      if last.Write? then Refs(front, kept) + [Address(last, kept)] else Refs(front, kept)
  }

  predicate Known(n: Name, refs: seq<Ref>) {
    n.Pending? ==> n.token < |refs|
  }

  function Meant(n: Name, refs: seq<Ref>): Ref
    requires Known(n, refs)
  {
    if n.Pending? then refs[n.token] else n.ref
  }

  /** Tokens are used only after they were returned. */
  predicate WellUsed(program: seq<Call>) {
    program == [] ||
    (var front, last := program[..|program| - 1], program[|program| - 1];
     WellUsed(front) &&
     (last.Link? ==> Known(last.from, Refs(front, true)) && Known(last.to, Refs(front, true))))
  }

  function StagedEvent(c: Call, refs: seq<Ref>, kept: bool): Event
    requires c.Link? ==> Known(c.from, refs) && Known(c.to, refs)
  {
    if c.Write? then CellWrite(c.payload, Address(c, kept).interpreters)
    else Relationship(Meant(c.from, refs), Meant(c.to, refs), c.rel)
  }

  /** The events a program puts in a batch: with `kept` a direct one, else the gateway's. */
  function Stages(program: seq<Call>, kept: bool): (events: seq<Event>)
    requires WellUsed(program)
    ensures |events| == |program|
  {
    if program == [] then []
    else
      var front, last := program[..|program| - 1], program[|program| - 1];
      Stages(front, kept) + [StagedEvent(last, Refs(front, kept), kept)]
  }

  /** No cell of the program names an interpreter. */
  predicate Plain(program: seq<Call>) {
    forall c :: c in program && c.Write? ==> c.interpreters == []
  }

  lemma {:induction false} PlainRefs(program: seq<Call>)
    requires Plain(program)
    ensures Refs(program, true) == Refs(program, false)
  {
    if program != [] {
      assert forall c :: c in program[..|program| - 1] ==> c in program;
      PlainRefs(program[..|program| - 1]);
      assert program[|program| - 1] in program;
    }
  }

  /** Through the gateway a program commits what a direct batch would if and only if none
      of its cells names an interpreter. */
  lemma {:induction false} GatewayIsDirectIffPlain(program: seq<Call>)
    requires WellUsed(program)
    ensures Stages(program, false) == Stages(program, true) <==> Plain(program)
  {
    if program != [] {
      var front, last := program[..|program| - 1], program[|program| - 1];
      GatewayIsDirectIffPlain(front);
      assert forall c :: c in program <==> c in front || c == last;
      var a, b := Stages(program, false), Stages(program, true);
      assert a[..|front|] == Stages(front, false) && b[..|front|] == Stages(front, true);
      if Plain(front) {
        PlainRefs(front);
        assert a[|front|] == b[|front|] <==> (last.Write? ==> last.interpreters == []);
      }
    }
  }

  /** One cell with an interpreter is enough: the gateway stages another cell, with another
      content address. */
  lemma InterpretersAreDropped(program: seq<Call>, payload: Bytes, interpreter: string)
    requires program == [Write(payload, [interpreter])]
    ensures Stages(program, true) == [CellWrite(payload, [interpreter])]
    ensures Stages(program, false) == [CellWrite(payload, [])]
    ensures Refs(program, true) != Refs(program, false)
  {
    assert program[..0] == [];
    assert Refs(program, true)[0].interpreters != Refs(program, false)[0].interpreters;
  }

  /** The server stages these events for these ops, and its token map gives these refs. */
  ghost predicate ServerAgrees(ops: seq<Op>, issued: seq<Ref>, meaning: seq<Event>) {
    && AllKnown(ops)
    && Executed(ops).staged == Commits(meaning)
    && (forall i :: i in Executed(ops).tokens <==> 0 <= i < |issued|)
    && (forall i :: 0 <= i < |issued| ==> Executed(ops).tokens[i] == issued[i])
    && |ops| == |meaning|
  }

  lemma ServerWrites(ops: seq<Op>, issued: seq<Ref>, meaning: seq<Event>, payload: Bytes)
    requires ServerAgrees(ops, issued, meaning)
    ensures ServerAgrees(ops + [WriteCellOp(|issued|, payload)], issued + [Hash(payload, [])],
                         meaning + [CellWrite(payload, [])])
  {
    assert (ops + [WriteCellOp(|issued|, payload)])[..|ops|] == ops;
  }

  lemma ServerLinks(ops: seq<Op>, issued: seq<Ref>, meaning: seq<Event>, op: Op)
    requires ServerAgrees(ops, issued, meaning) && !op.UnknownOp? && !op.WriteCellOp?
    requires Known(Endpoints(op).0, issued) && Known(Endpoints(op).1, issued)
    ensures var (f, t, rel) := Endpoints(op);
            ServerAgrees(ops + [op], issued, meaning + [Relationship(Meant(f, issued), Meant(t, issued), rel)])
  {
    assert (ops + [op])[..|ops|] == ops;
  }

  /** `GatewayWriteBatch`. `program` is the calls made, `meaning` the events the server
      stages for them, and `issued` the reference each token stands for. */
  class GatewayBatch {
    var ops: seq<Op>
    var nextToken: nat
    ghost var program: seq<Call>
    ghost var issued: seq<Ref>
    ghost var meaning: seq<Event>

    /** The server, given these ops, stages exactly what the program means. */
    ghost predicate Valid()
      reads this
    {
      nextToken == |issued| && ServerAgrees(ops, issued, meaning) && MeansProgram()
    }

    ghost predicate MeansProgram()
      reads this`program, this`issued, this`meaning
    {
      WellUsed(program) && issued == Refs(program, false) && meaning == Stages(program, false)
    }

    /** The name is a real reference, or a token this batch has returned. */
    ghost predicate Usable(n: Name)
      reads this
    {
      Known(n, issued)
    }

    ghost function Means(n: Name): Ref
      reads this
      requires Usable(n)
    {
      Meant(n, issued)
    }

    constructor ()
      ensures Valid() && program == [] && meaning == [] && issued == []
    {
      ops, nextToken, program, issued, meaning := [], 0, [], [], [];
    }

    /** The interpreters go no further than this call. */
    method WriteCell(payload: Bytes, interpreters: seq<string>) returns (name: Name)
      requires Valid()
      modifies this
      ensures Valid() && Usable(name) && Means(name) == Hash(payload, [])
      ensures program == old(program) + [Write(payload, interpreters)]
      ensures issued == old(issued) + [Hash(payload, [])]
      ensures meaning == old(meaning) + [CellWrite(payload, [])]
    {
      name := Pending(nextToken);
      ServerWrites(ops, issued, meaning, payload);
      ops := ops + [WriteCellOp(nextToken, payload)];
      nextToken := nextToken + 1;
      ProgramGrows(program, Write(payload, interpreters));
      program := program + [Write(payload, interpreters)];
      issued := issued + [Hash(payload, [])];
      meaning := meaning + [CellWrite(payload, [])];
    }

    /** Stages an edge op: the three edge-making calls of the client differ only in it. */
    method PushEdge(op: Op)
      requires Valid() && !op.UnknownOp? && !op.WriteCellOp?
      requires Usable(Endpoints(op).0) && Usable(Endpoints(op).1)
      modifies this`ops, this`program, this`meaning
      ensures Valid()
      ensures var (f, t, rel) := Endpoints(op);
              && meaning == old(meaning) + [Relationship(Means(f), Means(t), rel)]
              && program == old(program) + [Link(f, t, rel)]
    {
      ghost var (f, t, rel) := Endpoints(op);
      ServerLinks(ops, issued, meaning, op);
      ops := ops + [op];
      ProgramGrows(program, Link(f, t, rel));
      program := program + [Link(f, t, rel)];
      meaning := meaning + [Relationship(Means(f), Means(t), rel)];
    }

    method Relate(from: Name, to: Name, rel: string)
      requires Valid() && Usable(from) && Usable(to)
      modifies this`ops, this`program, this`meaning
      ensures Valid() && meaning == old(meaning) + [Relationship(Means(from), Means(to), rel)]
      ensures program == old(program) + [Link(from, to, rel)]
    {
      PushEdge(RelateOp(from, to, rel));
    }

    method AssertFact(subject: Name, predicate_: string, object_: Name)
      requires Valid() && Usable(subject) && Usable(object_)
      modifies this`ops, this`program, this`meaning
      ensures Valid() && meaning == old(meaning) + [Relationship(Means(subject), Means(object_), predicate_)]
      ensures program == old(program) + [Link(subject, object_, predicate_)]
    {
      PushEdge(AssertFactOp(subject, predicate_, object_));
    }

    method Scope(cell: Name, scope: Name)
      requires Valid() && Usable(cell) && Usable(scope)
      modifies this`ops, this`program, this`meaning
      ensures Valid() && meaning == old(meaning) + [Relationship(Means(cell), Means(scope), SCOPED_TO)]
      ensures program == old(program) + [Link(cell, scope, SCOPED_TO)]
    {
      PushEdge(ScopeOp(cell, scope));
    }

    /** One call: the server stages, commits, and returns the token map. Whatever was
        staged, with tokens used only once returned, lands as the events a direct batch
        would commit, if and only if no cell names an interpreter; a failed append leaves
        the store as it was. */
    method Commit(store: Store, fails: bool) returns (refs: Option<map<nat, Ref>>)
      requires Valid()
      modifies store
      ensures refs.Some? <==> !fails || ops == []
      ensures store.State() == if refs.Some? then Appended(old(store.State()), meaning) else old(store.State())
      ensures meaning == Stages(program, true) <==> Plain(program)
      ensures refs.Some? ==> forall n :: Usable(n) ==> Resolve(refs.value, n) == Real(Means(n))
    {
      GatewayIsDirectIffPlain(program);
      if ops == [] {
        return Some(map[]);
      }
      var staged := ServerStage(ops);
      var events := Events(staged.value.staged, meaning);
      var ok := store.AppendBatch(events, fails);
      refs := if ok then Some(staged.value.tokens) else None;
    }
  }

  lemma ProgramGrows(program: seq<Call>, c: Call)
    requires WellUsed(program)
    requires c.Link? ==> Known(c.from, Refs(program, true)) && Known(c.to, Refs(program, true))
    ensures WellUsed(program + [c])
    ensures Refs(program + [c], false) ==
            if c.Write? then Refs(program, false) + [Hash(c.payload, [])] else Refs(program, false)
    ensures Stages(program + [c], false) ==
            Stages(program, false) + [StagedEvent(c, Refs(program, false), false)]
  {
    assert (program + [c])[..|program|] == program;
  }

  lemma WellUsedCall(program: seq<Call>, i: nat)
    requires WellUsed(program) && i < |program|
    ensures WellUsed(program[..i]) && WellUsed(program[..i + 1])
    ensures var c := program[i];
            c.Link? ==> Known(c.from, Refs(program[..i], true)) && Known(c.to, Refs(program[..i], true))
    ensures program[..i + 1][..i] == program[..i] && program[..i + 1] == program[..i] + [program[i]]
    decreases |program|
  {
    if i < |program| - 1 {
      WellUsedCall(program[..|program| - 1], i);
      assert program[..|program| - 1][..i] == program[..i] && program[..|program| - 1][..i + 1] == program[..i + 1];
    } else {
      assert program[..i + 1] == program;
    }
  }

  /** Any program of calls made on a direct batch, with the references it returned for the
      tokens: what it stages. */
  method PlayDirect(program: seq<Call>) returns (b: DirectBatch, refs: seq<Ref>)
    requires WellUsed(program)
    ensures fresh(b) && b.staged == Stages(program, true) && refs == Refs(program, true)
  {
    b := new DirectBatch();
    refs := [];
    for i := 0 to |program|
      invariant fresh(b) && WellUsed(program[..i])
      invariant b.staged == Stages(program[..i], true) && refs == Refs(program[..i], true)
    {
      WellUsedCall(program, i);
      var c := program[i];
      if c.Write? {
        var ref := b.WriteCell(c.payload, c.interpreters);
        refs := refs + [ref];
      } else {
        b.Relate(Meant(c.from, refs), Meant(c.to, refs), c.rel);
      }
    }
    assert program[..|program|] == program;
  }

  /** The same program made on a gateway batch. */
  method PlayGateway(program: seq<Call>) returns (b: GatewayBatch)
    requires WellUsed(program)
    ensures fresh(b) && b.Valid() && b.program == program
  {
    b := new GatewayBatch();
    for i := 0 to |program|
      invariant fresh(b) && b.Valid() && b.program == program[..i]
    {
      WellUsedCall(program, i);
      var c := program[i];
      SameCount(program[..i]);
      if c.Write? {
        var _ := b.WriteCell(c.payload, c.interpreters);
      } else {
        b.Relate(c.from, c.to, c.rel);
      }
    }
    assert program[..|program|] == program;
  }

  lemma SameCount(program: seq<Call>)
    ensures |Refs(program, true)| == |Refs(program, false)|
  {
  }

  /** One program, two stores in the same state, one batch of each kind: the stores are in the
      same state again if and only if no cell of the program names an interpreter. */
  method BothWays(program: seq<Call>, direct: Store, gateway: Store)
    requires WellUsed(program) && direct != gateway && direct.State() == gateway.State()
    modifies direct, gateway
    ensures direct.State() == Appended(old(direct.State()), Stages(program, true))
    ensures gateway.State() == Appended(old(gateway.State()), Stages(program, false))
    ensures direct.State() == gateway.State() <==> Plain(program)
  {
    ghost var start := direct.State();
    var d, _ := PlayDirect(program);
    var _ := direct.AppendBatch(d.staged, false);
    var g := PlayGateway(program);
    var _ := g.Commit(gateway, false);
    GatewayIsDirectIffPlain(program);
    if direct.State() == gateway.State() {
      AppendedInjective(start, Stages(program, true), Stages(program, false));
    }
  }

  /** The events of a fully resolved batch. */
  method Events(staged: seq<Staged>, ghost meaning: seq<Event>) returns (events: seq<Event>)
    requires staged == Commits(meaning)
    ensures events == meaning
  {
    events := seq(|staged|, i requires 0 <= i < |staged| => (assert staged[i].Staged?; staged[i].ev));
  }

  // ---------------------------------------------------------------------------
  // Filing a drawer
  // ---------------------------------------------------------------------------

  const WING: Bytes := [0x77, 0x69, 0x6e, 0x67, 0x3a]
  const ROOM: Bytes := [0x72, 0x6f, 0x6f, 0x6d, 0x3a]
  const HAS_SOURCE := "has_source"
  const HAS_CATEGORY := "has_category"
  const HAS_IMPORTANCE := "has_importance"

  type Float = f: Bytes | |f| == 4 witness [0, 0, 0, 0]

  /** The arguments of `file`, text already encoded; a float is its four bytes. */
  datatype Drawer = Drawer(
    wing: Bytes,
    room: Bytes,
    content: Bytes,
    source: Bytes,
    category: Option<Bytes>,
    importance: Option<Bytes>,
    embedding: Option<seq<Float>>)

  function Pack(vector: seq<Float>): (raw: Bytes)
    ensures |raw| == 4 * |vector|
  {
    if vector == [] then [] else Pack(vector[..|vector| - 1]) + vector[|vector| - 1]
  }

  /** A vector survives packing into its embedding cell and unpacking into a matrix row. */
  lemma {:induction false} PackRoundTrip(vector: seq<Float>)
    ensures Unpack(Pack(vector)) == vector
  {
    if vector != [] {
      var front := vector[..|vector| - 1];
      PackRoundTrip(front);
      var raw := Pack(vector);
      forall i | 0 <= i < |vector|
        ensures Unpack(raw)[i] == vector[i]
      {
        if i < |front| {
          assert raw[4 * i..4 * i + 4] == Pack(front)[4 * i..4 * i + 4] == Unpack(Pack(front))[i];
        }
      }
    }
  }

  /** A cell, and an edge from `subject` to it. */
  function PairEvents(subject: Ref, payload: Bytes, rel: string): seq<Event> {
    [CellWrite(payload, []), Relationship(subject, Hash(payload, []), rel)]
  }

  function FactEvents(subject: Ref, predicate_: string, value: Option<Bytes>): seq<Event> {
    if value.Some? then PairEvents(subject, value.value, predicate_) else []
  }

  function EmbeddingEvents(target: Ref, vector: Option<seq<Float>>): seq<Event> {
    if vector.None? then []
    else
      var raw := Pack(vector.value);
      [CellWrite(raw, []), Relationship(Hash(raw, []), target, EMBEDDING_OF)]
  }

  /** An empty source files no fact. */
  function Source(d: Drawer): Option<Bytes> {
    if d.source != [] then Some(d.source) else None
  }

  /** Everything one `file` puts in the log, whichever path it takes. */
  function FileEvents(d: Drawer): seq<Event> {
    var ref := Hash(d.content, []);
    [CellWrite(d.content, [])]
    + PairEvents(ref, WING + d.wing, SCOPED_TO)
    + PairEvents(ref, ROOM + d.room, SCOPED_TO)
    + FactEvents(ref, HAS_SOURCE, Source(d))
    + FactEvents(ref, HAS_CATEGORY, d.category)
    + FactEvents(ref, HAS_IMPORTANCE, d.importance)
    + EmbeddingEvents(ref, d.embedding)
  }

  lemma JoinPair<T>(s: seq<T>, a: T, b: T)
    ensures s + [a] + [b] == s + [a, b]
  {
  }

  // -- the direct backend: one batch, one append -------------------------------

  method StagePair(b: DirectBatch, subject: Ref, payload: Bytes, rel: string)
    modifies b
    ensures b.staged == old(b.staged) + PairEvents(subject, payload, rel)
  {
    ghost var s := b.staged;
    var object_ := b.WriteCell(payload, []);
    b.Relate(subject, object_, rel);
    JoinPair(s, CellWrite(payload, []), Relationship(subject, object_, rel));
  }

  method StageFact(b: DirectBatch, subject: Ref, predicate_: string, value: Option<Bytes>)
    modifies b
    ensures b.staged == old(b.staged) + FactEvents(subject, predicate_, value)
  {
    if value.Some? {
      StagePair(b, subject, value.value, predicate_);
    }
  }

  method StageEmbedding(b: DirectBatch, target: Ref, vector: Option<seq<Float>>)
    modifies b
    ensures b.staged == old(b.staged) + EmbeddingEvents(target, vector)
  {
    if vector.Some? {
      ghost var s := b.staged;
      var cell := b.WriteCell(Pack(vector.value), []);
      b.Relate(cell, target, EMBEDDING_OF);
      JoinPair(s, CellWrite(Pack(vector.value), []), Relationship(cell, target, EMBEDDING_OF));
    }
  }

  method FileDirect(store: Store, d: Drawer, fails: bool) returns (ref: Option<Ref>)
    modifies store
    ensures ref == if fails then None else Some(Hash(d.content, []))
    ensures store.State() == if fails then old(store.State()) else Appended(old(store.State()), FileEvents(d))
  {
    var b := new DirectBatch();
    var content := b.WriteCell(d.content, []);
    assert b.staged == [CellWrite(d.content, [])];
    StagePair(b, content, WING + d.wing, SCOPED_TO);
    StagePair(b, content, ROOM + d.room, SCOPED_TO);
    StageFact(b, content, HAS_SOURCE, Source(d));
    StageFact(b, content, HAS_CATEGORY, d.category);
    StageFact(b, content, HAS_IMPORTANCE, d.importance);
    StageEmbedding(b, content, d.embedding);
    assert b.staged == FileEvents(d);
    var ok := store.AppendBatch(b.staged, fails);
    ref := if ok then Some(content) else None;
  }

  // -- the gateway backend: tokens, resolved by the server ---------------------

  /** A scope edge to a cell staged in the same batch. */
  method StageScope(b: GatewayBatch, cell: Name, payload: Bytes)
    requires b.Valid() && b.Usable(cell)
    modifies b
    ensures b.Valid() && old(b.issued) <= b.issued
    ensures b.meaning == old(b.meaning) + PairEvents(old(b.Means(cell)), payload, SCOPED_TO)
  {
    ghost var s, from := b.meaning, b.Means(cell);
    var scope := b.WriteCell(payload, []);
    b.Scope(cell, scope);
    JoinPair(s, CellWrite(payload, []), Relationship(from, Hash(payload, []), SCOPED_TO));
  }

  method StageGatewayFact(b: GatewayBatch, subject: Name, predicate_: string, value: Option<Bytes>)
    requires b.Valid() && b.Usable(subject)
    modifies b
    ensures b.Valid() && old(b.issued) <= b.issued
    ensures b.meaning == old(b.meaning) + FactEvents(old(b.Means(subject)), predicate_, value)
  {
    if value.Some? {
      ghost var s, from := b.meaning, b.Means(subject);
      var object_ := b.WriteCell(value.value, []);
      b.AssertFact(subject, predicate_, object_);
      JoinPair(s, CellWrite(value.value, []), Relationship(from, Hash(value.value, []), predicate_));
    }
  }

  method StageGatewayEmbedding(b: GatewayBatch, target: Name, vector: Option<seq<Float>>)
    requires b.Valid() && b.Usable(target)
    modifies b
    ensures b.Valid() && old(b.issued) <= b.issued
    ensures b.meaning == old(b.meaning) + EmbeddingEvents(old(b.Means(target)), vector)
  {
    if vector.Some? {
      ghost var s, to := b.meaning, b.Means(target);
      var cell := b.WriteCell(Pack(vector.value), []);
      b.Relate(cell, target, EMBEDDING_OF);
      JoinPair(s, CellWrite(Pack(vector.value), []), Relationship(Hash(Pack(vector.value), []), to, EMBEDDING_OF));
    }
  }

  method FileGateway(store: Store, d: Drawer, fails: bool) returns (ref: Option<Ref>)
    modifies store
    ensures ref == if fails then None else Some(Hash(d.content, []))
    ensures store.State() == if fails then old(store.State()) else Appended(old(store.State()), FileEvents(d))
  {
    var b, content := StageDrawer(d);
    var refs := b.Commit(store, fails);
    if refs.None? {
      return None;
    }
    var resolved := Resolve(refs.value, content);
    ref := Some(resolved.ref);
  }

  method StageDrawer(d: Drawer) returns (b: GatewayBatch, content: Name)
    ensures fresh(b) && b.Valid() && b.ops != []
    ensures b.Usable(content) && b.Means(content) == Hash(d.content, [])
    ensures b.meaning == FileEvents(d)
  {
    b := new GatewayBatch();
    content := b.WriteCell(d.content, []);
    assert b.meaning == [CellWrite(d.content, [])];
    StageScope(b, content, WING + d.wing);
    StageScope(b, content, ROOM + d.room);
    StageGatewayFact(b, content, HAS_SOURCE, Source(d));
    StageGatewayFact(b, content, HAS_CATEGORY, d.category);
    StageGatewayFact(b, content, HAS_IMPORTANCE, d.importance);
    StageGatewayEmbedding(b, content, d.embedding);
    assert b.meaning == FileEvents(d);
  }

  // -- a backend without batches: one append after another ---------------------

  /** The events appended by a process that makes only `left` more appends. */
  function Cut(events: seq<Event>, left: nat): seq<Event> {
    if left < |events| then events[..left] else events
  }

  function Minus(left: nat, used: nat): nat {
    if used <= left then left - used else 0
  }

  lemma CutJoined(k: Kernel, a: seq<Event>, b: seq<Event>, left: nat)
    ensures Appended(Appended(k, Cut(a, left)), Cut(b, Minus(left, |a|))) == Appended(k, Cut(a + b, left))
  {
    AppendedAppended(k, Cut(a, left), Cut(b, Minus(left, |a|)));
    assert Cut(a, left) + Cut(b, Minus(left, |a|)) == Cut(a + b, left);
  }

  method AppendPair(store: Store, subject: Ref, payload: Bytes, rel: string, left: nat) returns (rest: nat)
    modifies store
    ensures store.State() == Appended(old(store.State()), Cut(PairEvents(subject, payload, rel), left))
    ensures rest == Minus(left, 2)
  {
    ghost var start, events := store.State(), PairEvents(subject, payload, rel);
    assert events[..0] == [] && events[..1] == [events[0]];
    if left == 0 {
      return 0;
    }
    var object_ := store.WriteCell(payload);
    if left == 1 {
      return 0;
    }
    store.Append(Relationship(subject, object_, rel));
    AppendedAppended(start, [CellWrite(payload, [])], [Relationship(subject, object_, rel)]);
    rest := left - 2;
  }

  method AppendFact(store: Store, subject: Ref, predicate_: string, value: Option<Bytes>, left: nat)
    returns (rest: nat)
    modifies store
    ensures store.State() == Appended(old(store.State()), Cut(FactEvents(subject, predicate_, value), left))
    ensures rest == Minus(left, |FactEvents(subject, predicate_, value)|)
  {
    rest := left;
    if value.Some? {
      rest := AppendPair(store, subject, value.value, predicate_, left);
    }
  }

  /** The substrate's `add_embedding`. */
  method AddEmbedding(store: Store, target: Ref, vector: Option<seq<Float>>, left: nat) returns (rest: nat)
    modifies store
    ensures store.State() == Appended(old(store.State()), Cut(EmbeddingEvents(target, vector), left))
    ensures rest == Minus(left, |EmbeddingEvents(target, vector)|)
  {
    if vector.None? || left == 0 {
      assert vector.Some? ==> EmbeddingEvents(target, vector)[..0] == [];
      return left;
    }
    ghost var start, events := store.State(), EmbeddingEvents(target, vector);
    var cell := store.WriteCell(Pack(vector.value));
    if left == 1 {
      assert events[..1] == [events[0]];
      return 0;
    }
    store.Append(Relationship(cell, target, EMBEDDING_OF));
    AppendedAppended(start, [CellWrite(Pack(vector.value), [])], [Relationship(cell, target, EMBEDDING_OF)]);
    rest := left - 2;
  }

  /** Where a filing stands that is cut off after `left` appends: it was to append `done`. */
  ghost predicate FiledSoFar(start: Kernel, done: seq<Event>, left: nat, now: Kernel, rest: nat) {
    now == Appended(start, Cut(done, left)) && rest == Minus(left, |done|)
  }

  method FilePair(store: Store, ghost start: Kernel, ghost done: seq<Event>, ghost left: nat, subject: Ref,
                  payload: Bytes, rel: string, rest: nat) returns (rest': nat, ghost done': seq<Event>)
    requires FiledSoFar(start, done, left, store.State(), rest)
    modifies store
    ensures done' == done + PairEvents(subject, payload, rel)
    ensures FiledSoFar(start, done', left, store.State(), rest')
  {
    CutJoined(start, done, PairEvents(subject, payload, rel), left);
    done' := done + PairEvents(subject, payload, rel);
    rest' := AppendPair(store, subject, payload, rel, rest);
  }

  method FileFact(store: Store, ghost start: Kernel, ghost done: seq<Event>, ghost left: nat, subject: Ref,
                  predicate_: string, value: Option<Bytes>, rest: nat) returns (rest': nat, ghost done': seq<Event>)
    requires FiledSoFar(start, done, left, store.State(), rest)
    modifies store
    ensures done' == done + FactEvents(subject, predicate_, value)
    ensures FiledSoFar(start, done', left, store.State(), rest')
  {
    CutJoined(start, done, FactEvents(subject, predicate_, value), left);
    done' := done + FactEvents(subject, predicate_, value);
    rest' := AppendFact(store, subject, predicate_, value, rest);
  }

  /** Cut off after `left` appends, the sequential path has appended exactly that many of the
      drawer's events; not cut off, all of them, and it returns the same ref. */
  method FileSequential(store: Store, d: Drawer, left: nat) returns (ref: Option<Ref>)
    modifies store
    ensures ref == if left < |FileEvents(d)| then None else Some(Hash(d.content, []))
    ensures store.State() == Appended(old(store.State()), Cut(FileEvents(d), left))
  {
    ghost var start := store.State();
    if left == 0 {
      assert FileEvents(d)[..0] == [];
      return None;
    }
    var content := store.WriteCell(d.content);
    ghost var done := [CellWrite(d.content, [])];
    var rest := left - 1;
    rest, done := FilePair(store, start, done, left, content, WING + d.wing, SCOPED_TO, rest);
    rest, done := FilePair(store, start, done, left, content, ROOM + d.room, SCOPED_TO, rest);
    rest, done := FileFact(store, start, done, left, content, HAS_SOURCE, Source(d), rest);
    rest, done := FileFact(store, start, done, left, content, HAS_CATEGORY, d.category, rest);
    rest, done := FileFact(store, start, done, left, content, HAS_IMPORTANCE, d.importance, rest);
    CutJoined(start, done, EmbeddingEvents(content, d.embedding), left);
    rest := AddEmbedding(store, content, d.embedding, rest);
    assert done + EmbeddingEvents(content, d.embedding) == FileEvents(d);
    ref := if left < |FileEvents(d)| then None else Some(content);
  }
}
