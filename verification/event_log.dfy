/** The append-only event log of the native store, and the constant-time prefix check
    that its incremental caches rely on.

    A content address is idealised as an injective function of the cell: `Ref` simply
    carries the cell it addresses. */
module EventLog {
  datatype Option<+T> = None | Some(value: T)

  type Bytes = seq<bv8>

  datatype Ref = Hash(payload: Bytes, interpreters: seq<string>)

  datatype Event =
    | CellWrite(payload: Bytes, interpreters: seq<string>)
    | Relationship(from: Ref, to: Ref, rel: string)
    | Access(target: Ref)

  /** One item of `kernel.all_events()`: a position and an event. */
  datatype Entry = Entry(pos: nat, ev: Event)

  type Log = seq<Entry>

  function CellRef(ev: Event): Option<Ref> {
    if ev.CellWrite? then Some(Hash(ev.payload, ev.interpreters)) else None
  }

  /** Two events have one content address exactly when they write the same cell. */
  lemma AddressesCells(a: Event, b: Event)
    ensures CellRef(a).Some? <==> a.CellWrite?
    ensures CellRef(a).Some? ==> (CellRef(a) == CellRef(b) <==> a == b)
  {
  }

  ghost predicate Increasing(log: Log) {
    forall i, j :: 0 <= i < j < |log| ==> log[i].pos < log[j].pos
  }

  ghost predicate Below(log: Log, bound: nat) {
    forall i :: 0 <= i < |log| ==> log[i].pos < bound
  }

  /** The check both caches make before extending: not shorter, and the same position
      where the earlier log ended. */
  predicate BoundaryMatches(earlier: Log, now: Log) {
    earlier == [] || (|earlier| <= |now| && now[|earlier| - 1].pos == earlier[|earlier| - 1].pos)
  }

  /** `now` keeps some of the entries of `earlier`, in order, and every other entry of it
      lies after all of `earlier`: what deleting events and appending newer ones can give. */
  ghost predicate Rewrites(earlier: Log, now: Log) {
    && Increasing(earlier)
    && Increasing(now)
    && forall e :: e in now ==> e in earlier || Below(earlier, e.pos)
  }

  /** Two logs of one kernel, in either order of materialisation. */
  ghost predicate SameKernel(a: Log, b: Log) {
    Rewrites(a, b) || Rewrites(b, a)
  }

  // ---------------------------------------------------------------------------
  // Pigeonhole: n increasing entries taken from n increasing entries are all of them
  // ---------------------------------------------------------------------------

  /** The entries of `picked` are entries of `pool`, so the i-th of them cannot sit
      before the i-th of `pool`. */
  lemma {:induction false} PickedNotBefore(picked: Log, pool: Log, i: nat, k: nat)
    requires Increasing(picked) && Increasing(pool)
    requires forall e :: e in picked ==> e in pool
    requires i < |picked| && k < |pool| && picked[i] == pool[k]
    ensures i <= k
  {
    if i > 0 {
      assert picked[i - 1] in picked;
      var j :| 0 <= j < |pool| && pool[j] == picked[i - 1];
      assert picked[i - 1].pos < picked[i].pos;
      PickedNotBefore(picked, pool, i - 1, j);
    }
  }

  /** ... and counting from the other end, not after it either. */
  lemma {:induction false} PickedNotAfter(picked: Log, pool: Log, i: nat, k: nat)
    requires Increasing(picked) && Increasing(pool)
    requires forall e :: e in picked ==> e in pool
    requires i < |picked| && k < |pool| && picked[i] == pool[k]
    ensures |picked| - i <= |pool| - k
    decreases |picked| - i
  {
    if i + 1 < |picked| {
      assert picked[i + 1] in picked;
      var j :| 0 <= j < |pool| && pool[j] == picked[i + 1];
      assert picked[i].pos < picked[i + 1].pos;
      PickedNotAfter(picked, pool, i + 1, j);
    }
  }

  lemma PickAllIsWhole(picked: Log, pool: Log)
    requires Increasing(picked) && Increasing(pool)
    requires forall e :: e in picked ==> e in pool
    requires |picked| == |pool|
    ensures picked == pool
  {
    forall i | 0 <= i < |picked|
      ensures picked[i] == pool[i]
    {
      assert picked[i] in picked;
      var k :| 0 <= k < |pool| && pool[k] == picked[i];
      PickedNotBefore(picked, pool, i, k);
      PickedNotAfter(picked, pool, i, k);
    }
  }

  /** The constant-time check is sound: two logs of one kernel that agree on the boundary
      position agree on the whole prefix. */
  lemma BoundaryCheckSound(earlier: Log, now: Log)
    requires SameKernel(earlier, now)
    ensures BoundaryMatches(earlier, now) <==> earlier <= now
  {
    if BoundaryMatches(earlier, now) && earlier != [] {
      var n := |earlier|;
      var head := now[..n];
      assert forall i :: 0 <= i < n ==> head[i] == now[i];
      if Rewrites(earlier, now) {
        forall e | e in head
          ensures e in earlier
        {
          assert e in now && e.pos <= earlier[n - 1].pos;
        }
        PickAllIsWhole(head, earlier);
      } else {
        forall e | e in earlier
          ensures e in head
        {
          assert e.pos <= earlier[n - 1].pos == now[n - 1].pos;
          assert e in now;
          var k :| 0 <= k < |now| && now[k] == e;
          assert head[k] == e;
        }
        PickAllIsWhole(earlier, head);
      }
    }
  }

  /** Without a common kernel the check proves nothing: two logs that number their events
      independently can match on the boundary and still differ. */
  lemma BoundaryCheckNeedsOneKernel()
    ensures exists a: Log, b: Log ::
              Increasing(a) && Increasing(b) && BoundaryMatches(a, b) && !(a <= b)
  {
    var a := [Entry(0, CellWrite([1], []))];
    var b := [Entry(0, CellWrite([2], []))];
    assert a[0] != b[0];
    assert Increasing(a) && Increasing(b) && BoundaryMatches(a, b) && !(a <= b);
  }

  // ---------------------------------------------------------------------------
  // Whole runs of a kernel
  // ---------------------------------------------------------------------------

  /** A kernel state: its log, and the first position never handed out. */
  datatype Kernel = Kernel(log: Log, next: nat)

  ghost predicate Initial(k: Kernel) {
    k == Kernel([], 0)
  }

  /** Compaction may drop any events; an append takes a fresh, larger position. */
  ghost predicate Step(k: Kernel, k': Kernel) {
    || (k'.next == k.next && Increasing(k'.log) && forall e :: e in k'.log ==> e in k.log)
    || (exists e: Entry :: e.pos >= k.next && k' == Kernel(k.log + [e], e.pos + 1))
  }

  ghost predicate Run(ks: seq<Kernel>) {
    && 0 < |ks|
    && Initial(ks[0])
    && forall i :: 0 <= i < |ks| - 1 ==> Step(ks[i], ks[i + 1])
  }

  ghost predicate WellNumbered(k: Kernel) {
    Increasing(k.log) && Below(k.log, k.next)
  }

  lemma {:induction false} RunWellNumbered(ks: seq<Kernel>, i: nat)
    requires Run(ks) && i < |ks|
    ensures WellNumbered(ks[i])
  {
    if i > 0 {
      RunWellNumbered(ks, i - 1);
      var k, k' := ks[i - 1], ks[i];
      assert Step(k, k');
      if k'.next == k.next && Increasing(k'.log) && forall e :: e in k'.log ==> e in k.log {
        forall j | 0 <= j < |k'.log|
          ensures k'.log[j].pos < k'.next
        {
          assert k'.log[j] in k'.log;
        }
      }
    }
  }

  /** Every log seen later in a run rewrites every log seen earlier, however many
      compactions and appends lie between them. */
  lemma {:induction false} RunRewrites(ks: seq<Kernel>, i: nat, j: nat)
    requires Run(ks) && i <= j < |ks|
    ensures Rewrites(ks[i].log, ks[j].log)
    ensures ks[i].next <= ks[j].next
    decreases j - i
  {
    RunWellNumbered(ks, i);
    RunWellNumbered(ks, j);
    if i < j {
      RunRewrites(ks, i, j - 1);
      var k, k' := ks[j - 1], ks[j];
      assert Step(k, k');
      forall e | e in k'.log && e !in ks[i].log
        ensures Below(ks[i].log, e.pos)
      {
        if e !in k.log {
          assert e.pos >= k.next >= ks[i].next;
        }
      }
    }
  }

  /** So along any run, in any order of materialisation, the check decides exactly
      whether one log continues the other. */
  lemma RunBoundaryCheckExact(ks: seq<Kernel>, i: nat, j: nat)
    requires Run(ks) && i < |ks| && j < |ks|
    ensures BoundaryMatches(ks[i].log, ks[j].log) <==> ks[i].log <= ks[j].log
  {
    if i <= j {
      RunRewrites(ks, i, j);
    } else {
      RunRewrites(ks, j, i);
    }
    BoundaryCheckSound(ks[i].log, ks[j].log);
  }
}
