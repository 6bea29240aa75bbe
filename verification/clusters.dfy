/** The garden's near-duplicate clustering: breadth-first components of an adjacency that
    need not be symmetric and may mention drawers it has no list for. */
module Clusters {
  import opened EventLog

  type Id = string

  /** A dictionary in insertion order: its keys, and a list for each. */
  datatype Adjacency = Adjacency(keys: seq<Id>, lists: map<Id, seq<Id>>) {
    ghost predicate Valid() {
      && (forall k :: k in keys <==> k in lists)
      && (forall i, j :: 0 <= i < j < |keys| ==> keys[i] != keys[j])
    }

    function Get(u: Id): seq<Id> {
      if u in lists then lists[u] else []
    }
  }

  // ---------------------------------------------------------------------------
  // Reachability
  // ---------------------------------------------------------------------------

  ghost predicate Edge(a: Adjacency, u: Id, v: Id) {
    v in a.Get(u)
  }

  /** `v` can be reached from `u` along `n` edges. */
  ghost predicate ReachIn(a: Adjacency, u: Id, v: Id, n: nat)
    decreases n
  {
    if n == 0 then u == v else exists w :: ReachIn(a, u, w, n - 1) && Edge(a, w, v)
  }

  ghost predicate Reach(a: Adjacency, u: Id, v: Id) {
    exists n: nat :: ReachIn(a, u, v, n)
  }

  /** Everything the adjacency mentions. */
  ghost function Nodes(a: Adjacency): set<Id> {
    a.lists.Keys + set u, v | u in a.lists && v in a.lists[u] :: v
  }

  ghost function ReachSet(a: Adjacency, u: Id): set<Id> {
    set v | v in Nodes(a) && Reach(a, u, v)
  }

  /** Edges do not leave the set. */
  ghost predicate Closed(a: Adjacency, s: set<Id>) {
    forall u, v :: u in s && Edge(a, u, v) ==> v in s
  }

  lemma EdgeInNodes(a: Adjacency, u: Id, v: Id)
    requires Edge(a, u, v)
    ensures u in a.lists && u in Nodes(a) && v in Nodes(a)
  {
  }

  lemma ReachRefl(a: Adjacency, u: Id)
    ensures Reach(a, u, u)
  {
    assert ReachIn(a, u, u, 0);
  }

  lemma ReachStep(a: Adjacency, u: Id, v: Id, w: Id)
    requires Reach(a, u, v) && Edge(a, v, w)
    ensures Reach(a, u, w)
  {
    var n: nat :| ReachIn(a, u, v, n);
    assert ReachIn(a, u, w, n + 1);
  }

  lemma {:induction false} StaysInside(a: Adjacency, s: set<Id>, u: Id, v: Id, n: nat)
    requires Closed(a, s) && u in s && ReachIn(a, u, v, n)
    ensures v in s
    decreases n
  {
    if n > 0 {
      var w :| ReachIn(a, u, w, n - 1) && Edge(a, w, v);
      StaysInside(a, s, u, w, n - 1);
    }
  }

  /** A closed set holds all that its members reach. */
  lemma ClosedHoldsReach(a: Adjacency, s: set<Id>, u: Id)
    requires Closed(a, s) && u in s
    ensures ReachSet(a, u) <= s
  {
    forall v | v in ReachSet(a, u)
      ensures v in s
    {
      var n: nat :| ReachIn(a, u, v, n);
      StaysInside(a, s, u, v, n);
    }
  }

  lemma ReachSetClosed(a: Adjacency, u: Id)
    ensures Closed(a, ReachSet(a, u))
  {
    forall x, y | x in ReachSet(a, u) && Edge(a, x, y)
      ensures y in ReachSet(a, u)
    {
      ReachStep(a, u, x, y);
      EdgeInNodes(a, x, y);
    }
  }

  // ---------------------------------------------------------------------------
  // What the clusters are, on any adjacency
  // ---------------------------------------------------------------------------

  /** What each key reaches, key by key. */
  ghost function Reaches(a: Adjacency): (r: seq<set<Id>>)
    ensures |r| == |a.keys|
  {
    seq(|a.keys|, i requires 0 <= i < |a.keys| => ReachSet(a, a.keys[i]))
  }

  /** The union of the first `i` sets. */
  function Seen(r: seq<set<Id>>, i: nat): set<Id>
    requires i <= |r|
  {
    if i == 0 then {} else Seen(r, i - 1) + r[i - 1]
  }

  /** What set `i` holds and no earlier set does. */
  function Fresh(r: seq<set<Id>>, i: nat): set<Id>
    requires i < |r|
  {
    r[i] - Seen(r, i)
  }

  /** The fresh parts of the sets whose own key is fresh, the small ones left out. */
  function Firsts(keys: seq<Id>, r: seq<set<Id>>, minSize: int, i: nat): seq<set<Id>>
    requires i <= |r| == |keys|
  {
    if i == 0 then []
    else
      var earlier := Firsts(keys, r, minSize, i - 1);
      if Starts(keys, r, minSize, i - 1) then earlier + [Fresh(r, i - 1)] else earlier
  }

  predicate Starts(keys: seq<Id>, r: seq<set<Id>>, minSize: int, i: nat)
    requires i < |r| == |keys|
  {
    keys[i] !in Seen(r, i) && |Fresh(r, i)| >= minSize
  }

  ghost function Expected(a: Adjacency, minSize: int): seq<set<Id>> {
    Firsts(a.keys, Reaches(a), minSize, |a.keys|)
  }

  lemma {:induction false} SeenClosed(a: Adjacency, r: seq<set<Id>>, i: nat)
    requires i <= |r| && forall j :: 0 <= j < |r| ==> Closed(a, r[j])
    ensures Closed(a, Seen(r, i))
  {
    if i > 0 {
      SeenClosed(a, r, i - 1);
    }
  }

  lemma ReachesClosed(a: Adjacency)
    ensures forall j :: 0 <= j < |Reaches(a)| ==> Closed(a, Reaches(a)[j])
  {
    forall j | 0 <= j < |Reaches(a)|
      ensures Closed(a, Reaches(a)[j])
    {
      ReachSetClosed(a, a.keys[j]);
    }
  }

  function Unvisited(ids: seq<Id>, visited: set<Id>): (r: seq<Id>)
    ensures forall v :: v in r <==> v in ids && v !in visited
  {
    if ids == [] then []
    else
      var rest := Unvisited(ids[1..], visited);
      if ids[0] in visited then rest else [ids[0]] + rest
  }

  /** The inner loop: what `start` reaches beyond a closed set already visited. */
  method Component(a: Adjacency, start: Id, seen: set<Id>) returns (component: set<Id>)
    requires a.Valid() && start in a.lists && start !in seen && Closed(a, seen)
    ensures component == ReachSet(a, start) - seen
  {
    var visited := seen;
    component := {};
    var queue := [start];
    ReachRefl(a, start);
    while queue != []
      invariant visited == seen + component && component !! seen
      invariant component <= ReachSet(a, start)
      invariant forall v :: v in queue ==> v in ReachSet(a, start)
      invariant start in visited || start in queue
      invariant forall u, v :: u in component && Edge(a, u, v) ==> v in visited || v in queue
      decreases Nodes(a) - visited, |queue|
    {
      var current := queue[0];
      assert current in queue;
      ghost var before := queue;
      queue := queue[1..];
      assert forall v :: v in before ==> v == current || v in queue;
      if current in visited {
        continue;
      }
      visited, component := visited + {current}, component + {current};
      forall v | v in Unvisited(a.Get(current), visited)
        ensures v in ReachSet(a, start)
      {
        ReachStep(a, start, current, v);
        EdgeInNodes(a, current, v);
      }
      queue := queue + Unvisited(a.Get(current), visited);
    }
    assert Closed(a, visited);
    ClosedHoldsReach(a, visited, start);
  }

  /** The component that key `i` starts, after the keys before it. */
  method ComponentAt(a: Adjacency, i: nat, seen: set<Id>) returns (component: set<Id>)
    requires a.Valid() && i < |a.keys| && seen == Seen(Reaches(a), i) && a.keys[i] !in seen
    ensures component == Fresh(Reaches(a), i)
    ensures seen + component == Seen(Reaches(a), i + 1)
  {
    ReachesClosed(a);
    SeenClosed(a, Reaches(a), i);
    assert a.keys[i] in a.keys;
    component := Component(a, a.keys[i], seen);
  }

  /** A key already visited reaches nothing new. */
  lemma SeenKey(a: Adjacency, i: nat)
    requires i < |a.keys| && a.keys[i] in Seen(Reaches(a), i)
    ensures Seen(Reaches(a), i + 1) == Seen(Reaches(a), i)
  {
    ReachesClosed(a);
    SeenClosed(a, Reaches(a), i);
    ClosedHoldsReach(a, Seen(Reaches(a), i), a.keys[i]);
  }

  lemma FirstsNext(keys: seq<Id>, r: seq<set<Id>>, minSize: int, i: nat)
    requires i < |r| == |keys|
    ensures keys[i] in Seen(r, i) ==> Firsts(keys, r, minSize, i + 1) == Firsts(keys, r, minSize, i)
    ensures keys[i] !in Seen(r, i) ==>
              Firsts(keys, r, minSize, i + 1) ==
              if |Fresh(r, i)| >= minSize then Firsts(keys, r, minSize, i) + [Fresh(r, i)]
              else Firsts(keys, r, minSize, i)
  {
  }

  /** Where the outer loop stands after the first `i` keys. */
  ghost predicate SoFar(a: Adjacency, minSize: int, i: nat, visited: set<Id>, clusters: seq<set<Id>>)
    requires i <= |a.keys|
  {
    visited == Seen(Reaches(a), i) && clusters == Firsts(a.keys, Reaches(a), minSize, i)
  }

  /** One turn of the outer loop. */
  method VisitKey(a: Adjacency, minSize: int, i: nat, visited: set<Id>, clusters: seq<set<Id>>)
    returns (visited': set<Id>, clusters': seq<set<Id>>)
    requires a.Valid() && i < |a.keys| && SoFar(a, minSize, i, visited, clusters)
    ensures SoFar(a, minSize, i + 1, visited', clusters')
  {
    FirstsNext(a.keys, Reaches(a), minSize, i);
    if a.keys[i] in visited {
      SeenKey(a, i);
      return visited, clusters;
    }
    var component := ComponentAt(a, i, visited);
    visited' := visited + component;
    clusters' := if |component| >= minSize then clusters + [component] else clusters;
  }

  /** Terminates on every adjacency, and returns exactly the parts that its keys, in order,
      reach for the first time, the small ones left out. */
  method FindClusters(a: Adjacency, minSize: int) returns (clusters: seq<set<Id>>)
    requires a.Valid()
    ensures clusters == Expected(a, minSize)
  {
    var visited: set<Id> := {};
    clusters := [];
    for i := 0 to |a.keys|
      invariant SoFar(a, minSize, i, visited, clusters)
    {
      visited, clusters := VisitKey(a, minSize, i, visited, clusters);
    }
  }

  lemma {:induction false} FirstsMembers(keys: seq<Id>, r: seq<set<Id>>, minSize: int, i: nat, c: set<Id>)
    requires i <= |r| == |keys|
    ensures c in Firsts(keys, r, minSize, i) <==>
            exists j :: 0 <= j < i && Starts(keys, r, minSize, j) && c == Fresh(r, j)
  {
    if i > 0 {
      FirstsMembers(keys, r, minSize, i - 1, c);
    }
  }

  lemma {:induction false} SeenGrows(r: seq<set<Id>>, i: nat, j: nat)
    requires i <= j <= |r|
    ensures Seen(r, i) <= Seen(r, j)
    decreases j - i
  {
    if i < j {
      SeenGrows(r, i, j - 1);
    }
  }

  predicate PairwiseDisjoint(cs: seq<set<Id>>) {
    forall m, n :: 0 <= m < n < |cs| ==> cs[m] !! cs[n]
  }

  predicate Within(cs: seq<set<Id>>, s: set<Id>, minSize: int) {
    forall n :: 0 <= n < |cs| ==> cs[n] <= s && |cs[n]| >= minSize
  }

  /** The clusters are pairwise disjoint whatever the sets are, and each fits in what has
      been seen so far. */
  lemma {:induction false} FirstsDisjoint(keys: seq<Id>, r: seq<set<Id>>, minSize: int, i: nat)
    requires i <= |r| == |keys|
    ensures PairwiseDisjoint(Firsts(keys, r, minSize, i))
    ensures Within(Firsts(keys, r, minSize, i), Seen(r, i), minSize)
  {
    if i > 0 {
      FirstsDisjoint(keys, r, minSize, i - 1);
      AddDisjoint(Firsts(keys, r, minSize, i - 1), Fresh(r, i - 1), Seen(r, i - 1), Seen(r, i), minSize);
    }
  }

  lemma AddDisjoint(cs: seq<set<Id>>, c: set<Id>, s: set<Id>, s': set<Id>, minSize: int)
    requires PairwiseDisjoint(cs) && Within(cs, s, minSize)
    requires c !! s && s <= s' && c <= s'
    ensures Within(cs, s', minSize)
    ensures |c| >= minSize ==> PairwiseDisjoint(cs + [c]) && Within(cs + [c], s', minSize)
  {
  }

  /** On any adjacency the clusters are pairwise disjoint, non-empty and large enough. */
  lemma ClustersDisjoint(a: Adjacency, minSize: int)
    requires a.Valid()
    ensures PairwiseDisjoint(Expected(a, minSize))
    ensures forall c :: c in Expected(a, minSize) ==> c != {} && |c| >= minSize
  {
    FirstsDisjoint(a.keys, Reaches(a), minSize, |a.keys|);
    forall c | c in Expected(a, minSize)
      ensures c != {} && |c| >= minSize
    {
      ClusterHasItsKey(a, minSize, c);
    }
  }

  /** The first key of the one cluster stands before every key of the other. */
  ghost predicate KeyedBefore(keys: seq<Id>, c: set<Id>, d: set<Id>) {
    exists i :: 0 <= i < |keys| && keys[i] in c && forall j :: 0 <= j <= i ==> keys[j] !in d
  }

  ghost predicate HoldOwnKeys(keys: seq<Id>, r: seq<set<Id>>) {
    |r| == |keys| && forall k :: 0 <= k < |keys| ==> keys[k] in r[k]
  }

  /** The clusters come in the order of their first keys. */
  lemma ClustersInKeyOrder(a: Adjacency, minSize: int, m: nat, n: nat)
    requires a.Valid() && m < n < |Expected(a, minSize)|
    ensures KeyedBefore(a.keys, Expected(a, minSize)[m], Expected(a, minSize)[n])
  {
    forall k | 0 <= k < |a.keys|
      ensures a.keys[k] in Reaches(a)[k]
    {
      KeyInOwnReach(a, k);
    }
    FirstsInOrder(a.keys, Reaches(a), minSize, |a.keys|, m, n);
  }

  lemma {:induction false} FirstsInOrder(keys: seq<Id>, r: seq<set<Id>>, minSize: int, i: nat, m: nat, n: nat)
    requires HoldOwnKeys(keys, r) && i <= |r| && m < n < |Firsts(keys, r, minSize, i)|
    ensures KeyedBefore(keys, Firsts(keys, r, minSize, i)[m], Firsts(keys, r, minSize, i)[n])
  {
    var earlier := Firsts(keys, r, minSize, i - 1);
    if n < |earlier| {
      FirstsInOrder(keys, r, minSize, i - 1, m, n);
    } else {
      assert earlier[m] in earlier;
      EarlierIsBefore(keys, r, minSize, i - 1, earlier[m]);
    }
  }

  lemma EarlierIsBefore(keys: seq<Id>, r: seq<set<Id>>, minSize: int, i: nat, c: set<Id>)
    requires HoldOwnKeys(keys, r) && i < |r| && c in Firsts(keys, r, minSize, i)
    ensures KeyedBefore(keys, c, Fresh(r, i))
  {
    FirstsMembers(keys, r, minSize, i, c);
    var j :| 0 <= j < i && Starts(keys, r, minSize, j) && c == Fresh(r, j);
    forall k | 0 <= k <= j
      ensures keys[k] !in Fresh(r, i)
    {
      SeenGrows(r, k + 1, i);
    }
    assert keys[j] in c;
  }

  lemma ClusterHasItsKey(a: Adjacency, minSize: int, c: set<Id>)
    requires a.Valid() && c in Expected(a, minSize)
    ensures |c| >= minSize && exists k :: k in a.keys && k in c
  {
    FirstsMembers(a.keys, Reaches(a), minSize, |a.keys|, c);
    var j :| 0 <= j < |a.keys| && Starts(a.keys, Reaches(a), minSize, j) && c == Fresh(Reaches(a), j);
    KeyInOwnReach(a, j);
    assert a.keys[j] in a.keys && a.keys[j] in c;
  }

  lemma KeyInOwnReach(a: Adjacency, j: nat)
    requires a.Valid() && j < |a.keys|
    ensures a.keys[j] in Reaches(a)[j]
  {
    assert a.keys[j] in a.keys;
    ReachRefl(a, a.keys[j]);
  }

  // ---------------------------------------------------------------------------
  // Connected components
  // ---------------------------------------------------------------------------

  ghost predicate Symmetric(a: Adjacency) {
    forall u, v :: Edge(a, u, v) ==> Edge(a, v, u)
  }

  /** Whatever is reached reaches back. */
  ghost predicate Mutual(a: Adjacency) {
    forall u, v :: u in Nodes(a) && Reach(a, u, v) ==> Reach(a, v, u)
  }

  lemma {:induction false} ReachAfterEdge(a: Adjacency, u: Id, v: Id, w: Id, n: nat)
    requires Edge(a, u, v) && ReachIn(a, v, w, n)
    ensures ReachIn(a, u, w, n + 1)
    decreases n
  {
    if n == 0 {
      assert ReachIn(a, u, u, 0);
    } else {
      var x :| ReachIn(a, v, x, n - 1) && Edge(a, x, w);
      ReachAfterEdge(a, u, v, x, n - 1);
    }
  }

  lemma {:induction false} ReachSymmetric(a: Adjacency, u: Id, v: Id, n: nat)
    requires Symmetric(a) && ReachIn(a, u, v, n)
    ensures ReachIn(a, v, u, n)
    decreases n
  {
    if n > 0 {
      var w :| ReachIn(a, u, w, n - 1) && Edge(a, w, v);
      ReachSymmetric(a, u, w, n - 1);
      ReachAfterEdge(a, v, w, u, n - 1);
    }
  }

  /** Symmetric lists are one way to be mutual. */
  lemma SymmetricIsMutual(a: Adjacency)
    requires Symmetric(a)
    ensures Mutual(a)
  {
    forall u, v | u in Nodes(a) && Reach(a, u, v)
      ensures Reach(a, v, u)
    {
      var n: nat :| ReachIn(a, u, v, n);
      ReachSymmetric(a, u, v, n);
    }
  }

  /** A directed cycle is another. */
  lemma CycleIsMutual(a: Adjacency, x: Id, y: Id, z: Id)
    requires x != y && y != z && z != x && a == Adjacency([x, y, z], map[x := [y], y := [z], z := [x]])
    ensures Mutual(a) && !Symmetric(a)
  {
    assert a.Get(x) == [y] && a.Get(y) == [z] && a.Get(z) == [x];
    RingIsMutual(a, x, y, z);
    assert Edge(a, x, y) && !Edge(a, y, x);
  }

  lemma RingIsMutual(a: Adjacency, x: Id, y: Id, z: Id)
    requires a.lists.Keys == {x, y, z} && a.Get(x) == [y] && a.Get(y) == [z] && a.Get(z) == [x]
    ensures Mutual(a)
  {
    var ring := {x, y, z};
    RingReach(a, x, y, z);
    assert Closed(a, ring);
    assert Nodes(a) <= ring;
    forall u, v | u in Nodes(a) && Reach(a, u, v)
      ensures Reach(a, v, u)
    {
      var n: nat :| ReachIn(a, u, v, n);
      StaysInside(a, ring, u, v, n);
    }
  }

  lemma RingReach(a: Adjacency, x: Id, y: Id, z: Id)
    requires Edge(a, x, y) && Edge(a, y, z) && Edge(a, z, x)
    ensures forall u, v :: u in {x, y, z} && v in {x, y, z} ==> Reach(a, u, v)
  {
    ReachesTwoOn(a, x, y, z);
    ReachesTwoOn(a, y, z, x);
    ReachesTwoOn(a, z, x, y);
  }

  lemma ReachesTwoOn(a: Adjacency, x: Id, y: Id, z: Id)
    requires Edge(a, x, y) && Edge(a, y, z)
    ensures Reach(a, x, x) && Reach(a, x, y) && Reach(a, x, z)
  {
    ReachRefl(a, x);
    ReachStep(a, x, x, y);
    ReachStep(a, x, y, z);
  }

  /** A set is a connected component: it holds exactly what any one of its members reaches,
      so no edge leaves it and a path leads from any of its members to any other. */
  ghost predicate IsComponent(a: Adjacency, c: set<Id>) {
    && (exists k :: k in c && k in a.lists)
    && (forall u :: u in c ==> ReachSet(a, u) == c)
  }

  ghost predicate ReachedBack(a: Adjacency, k: Id) {
    forall v :: v in ReachSet(a, k) ==> Reach(a, v, k)
  }

  lemma ReachInSet(a: Adjacency, u: Id, v: Id)
    requires u in Nodes(a) && Reach(a, u, v)
    ensures v in ReachSet(a, u)
  {
    ReachRefl(a, u);
    ReachSetClosed(a, u);
    var n: nat :| ReachIn(a, u, v, n);
    StaysInside(a, ReachSet(a, u), u, v, n);
  }

  lemma ReachSetIsComponent(a: Adjacency, u: Id)
    requires u in a.lists && ReachedBack(a, u)
    ensures IsComponent(a, ReachSet(a, u))
  {
    var c := ReachSet(a, u);
    ReachRefl(a, u);
    ReachSetClosed(a, u);
    assert u in c;
    forall v | v in c
      ensures ReachSet(a, v) == c
    {
      ClosedHoldsReach(a, c, v);
      ReachSetClosed(a, v);
      ReachInSet(a, v, u);
      ClosedHoldsReach(a, ReachSet(a, v), u);
    }
  }

  /** Of what an earlier key reaches, nothing reaches a key that is fresh; so what a fresh
      key reaches is fresh as well where it all reaches back. */
  lemma FreshWhole(a: Adjacency, j: nat)
    requires a.Valid() && j < |a.keys| && a.keys[j] !in Seen(Reaches(a), j) && ReachedBack(a, a.keys[j])
    ensures Fresh(Reaches(a), j) == ReachSet(a, a.keys[j])
  {
    var seen, key := Seen(Reaches(a), j), a.keys[j];
    ReachesClosed(a);
    SeenClosed(a, Reaches(a), j);
    forall v | v in ReachSet(a, key)
      ensures v !in seen
    {
      var n: nat :| ReachIn(a, v, key, n);
      if v in seen {
        StaysInside(a, seen, v, key, n);
      }
    }
  }

  /** A cluster is a connected component if and only if all that its key reaches reaches
      back to the key: on any adjacency, for any minimum. */
  lemma ClusterIsComponentExactly(a: Adjacency, minSize: int, j: nat)
    requires a.Valid() && j < |a.keys| && Starts(a.keys, Reaches(a), minSize, j)
    ensures IsComponent(a, Fresh(Reaches(a), j)) <==> ReachedBack(a, a.keys[j])
  {
    assert a.keys[j] in a.keys;
    KeyInOwnReach(a, j);
    if ReachedBack(a, a.keys[j]) {
      FreshWhole(a, j);
      ReachSetIsComponent(a, a.keys[j]);
    }
    if IsComponent(a, Fresh(Reaches(a), j)) {
      assert a.keys[j] in Fresh(Reaches(a), j);
    }
  }

  /** The first of the sets that holds `u`. */
  lemma {:induction false} FirstHolder(r: seq<set<Id>>, i: nat, u: Id) returns (j: nat)
    requires i <= |r| && u in Seen(r, i)
    ensures j < i && u in Fresh(r, j)
  {
    if u in Seen(r, i - 1) {
      j := FirstHolder(r, i - 1, u);
    } else {
      j := i - 1;
    }
  }

  /** A fresh part and a later one have nothing in common. */
  lemma FreshOnce(r: seq<set<Id>>, i: nat, j: nat, u: Id)
    requires i < |r| && j < |r| && u in Fresh(r, i) && u in Fresh(r, j)
    ensures i == j
  {
    if i < j {
      SeenGrows(r, i + 1, j);
    } else if j < i {
      SeenGrows(r, j + 1, i);
    }
  }

  lemma FirstKeyReaching(a: Adjacency, k: Id) returns (j: nat)
    requires a.Valid() && k in a.lists
    ensures j < |a.keys| && k in Fresh(Reaches(a), j) && k in ReachSet(a, a.keys[j])
  {
    var r := Reaches(a);
    assert k in a.keys;
    var m :| 0 <= m < |a.keys| && a.keys[m] == k;
    KeyInOwnReach(a, m);
    HeldIsSeen(r, m, k);
    j := FirstHolder(r, |r|, k);
  }

  lemma HeldIsSeen(r: seq<set<Id>>, m: nat, k: Id)
    requires m < |r| && k in r[m]
    ensures k in Seen(r, |r|)
  {
    SeenGrows(r, m + 1, |r|);
  }

  /** The part a key of a component starts is the component. */
  lemma ComponentStarts(a: Adjacency, c: set<Id>, j: nat)
    requires a.Valid() && IsComponent(a, c)
    requires j < |a.keys| && a.keys[j] in c && a.keys[j] !in Seen(Reaches(a), j)
    ensures Fresh(Reaches(a), j) == c
  {
    assert ReachSet(a, a.keys[j]) == c;
    forall v | v in ReachSet(a, a.keys[j])
      ensures Reach(a, v, a.keys[j])
    {
      assert a.keys[j] in ReachSet(a, v);
    }
    FreshWhole(a, j);
  }

  /** Conversely, a large enough component is a cluster if and only if some key of it is
      reached by no earlier key. */
  lemma ComponentIsClusterExactly(a: Adjacency, minSize: int, c: set<Id>)
    requires a.Valid() && IsComponent(a, c) && |c| >= minSize
    ensures c in Expected(a, minSize) <==>
            exists j :: 0 <= j < |a.keys| && a.keys[j] in c && a.keys[j] !in Seen(Reaches(a), j)
  {
    var r := Reaches(a);
    FirstsMembers(a.keys, r, minSize, |a.keys|, c);
    if c in Expected(a, minSize) {
      var j :| 0 <= j < |a.keys| && Starts(a.keys, r, minSize, j) && c == Fresh(r, j);
      KeyInOwnReach(a, j);
    }
    if j :| 0 <= j < |a.keys| && a.keys[j] in c && a.keys[j] !in Seen(r, j) {
      ComponentStarts(a, c, j);
      assert Starts(a.keys, r, minSize, j);
    }
  }

  /** On a mutual adjacency, symmetric or not, the result is exactly the connected components
      with at least `minSize` members (each once, since they are disjoint and non-empty). */
  lemma ClustersAreComponents(a: Adjacency, minSize: int, c: set<Id>)
    requires a.Valid() && Mutual(a)
    ensures c in Expected(a, minSize) <==> IsComponent(a, c) && |c| >= minSize
  {
    FirstsMembers(a.keys, Reaches(a), minSize, |a.keys|, c);
    if c in Expected(a, minSize) {
      var j :| 0 <= j < |a.keys| && Starts(a.keys, Reaches(a), minSize, j) && c == Fresh(Reaches(a), j);
      assert a.keys[j] in a.keys;
      ClusterIsComponentExactly(a, minSize, j);
    }
    if IsComponent(a, c) && |c| >= minSize {
      var j := FirstKeyOfComponent(a, c);
      ComponentIsClusterExactly(a, minSize, c);
    }
  }

  lemma FirstKeyOfComponent(a: Adjacency, c: set<Id>) returns (j: nat)
    requires a.Valid() && Mutual(a) && IsComponent(a, c)
    ensures j < |a.keys| && a.keys[j] in c && a.keys[j] !in Seen(Reaches(a), j)
  {
    var r := Reaches(a);
    var k :| k in c && k in a.lists;
    j := FirstKeyReaching(a, k);
    var key := a.keys[j];
    assert key in a.keys;
    ReachInSet(a, k, key);
    ReachesClosed(a);
    SeenClosed(a, r, j);
    var n: nat :| ReachIn(a, key, k, n);
    if key in Seen(r, j) {
      StaysInside(a, Seen(r, j), key, k, n);
    }
  }

  /** With nothing left out for its size, every cluster is a connected component if and only
      if the adjacency is mutual. */
  lemma AllComponentsExactly(a: Adjacency, minSize: int)
    requires a.Valid() && minSize <= 1
    ensures (forall c :: c in Expected(a, minSize) ==> IsComponent(a, c)) <==> Mutual(a)
  {
    if Mutual(a) {
      forall c | c in Expected(a, minSize)
        ensures IsComponent(a, c)
      {
        ClustersAreComponents(a, minSize, c);
      }
    }
    if forall c :: c in Expected(a, minSize) ==> IsComponent(a, c) {
      forall u, v | u in Nodes(a) && Reach(a, u, v)
        ensures Reach(a, v, u)
      {
        SomeClusterHolds(a, minSize, u);
        var c :| c in Expected(a, minSize) && u in c;
        ReachInSet(a, u, v);
        assert u in ReachSet(a, v);
      }
    }
  }

  /** Nothing the adjacency mentions is left out but for the size of its part. */
  lemma SomeClusterHolds(a: Adjacency, minSize: int, u: Id)
    requires a.Valid() && minSize <= 1 && u in Nodes(a)
    ensures exists c :: c in Expected(a, minSize) && u in c
  {
    var r := Reaches(a);
    NodeIsReached(a, u);
    var j := FirstHolder(r, |r|, u);
    if a.keys[j] in Seen(r, j) {
      ReachesClosed(a);
      SeenClosed(a, r, j);
      ClosedHoldsReach(a, Seen(r, j), a.keys[j]);
      assert false;
    }
    var c := Fresh(r, j);
    assert |c| >= 1;
    FirstsMembers(a.keys, r, minSize, |a.keys|, c);
  }

  lemma NodeIsReached(a: Adjacency, u: Id)
    requires a.Valid() && u in Nodes(a)
    ensures u in Seen(Reaches(a), |a.keys|)
  {
    var k :| k in a.lists && (u == k || Edge(a, k, u));
    ReachRefl(a, k);
    if u != k {
      ReachStep(a, k, k, u);
    }
    assert k in a.keys;
    var m :| 0 <= m < |a.keys| && a.keys[m] == k;
    HeldIsSeen(Reaches(a), m, u);
  }

  /** Where one key reaches another and not back, the order of the keys decides: whatever the
      lists are, with the one first the two share a cluster, with the other first none. */
  lemma FirstKeyDecides(a: Adjacency, b: Adjacency, u: Id, v: Id)
    requires a.Valid() && b.Valid() && a.lists == b.lists
    requires a.keys != [] && a.keys[0] == u && b.keys != [] && b.keys[0] == v
    requires Reach(a, u, v) && !Reach(a, v, u)
    ensures exists c :: c in Expected(a, 1) && u in c && v in c
    ensures forall c :: c in Expected(b, 1) ==> !(u in c && v in c)
  {
    FirstCluster(a, u);
    assert u in a.lists;
    ReachRefl(a, u);
    ReachInSet(a, u, v);
    forall c | c in Expected(b, 1) && u in c && v in c
      ensures false
    {
      SecondOrder(a, b, u, v, c);
    }
  }

  lemma FirstCluster(a: Adjacency, u: Id)
    requires a.Valid() && a.keys != [] && a.keys[0] == u
    ensures ReachSet(a, u) in Expected(a, 1)
  {
    KeyInOwnReach(a, 0);
    assert Fresh(Reaches(a), 0) == ReachSet(a, u);
    assert |ReachSet(a, u)| >= 1;
    FirstsMembers(a.keys, Reaches(a), 1, |a.keys|, ReachSet(a, u));
  }

  /** What the lists alone determine does not depend on the order of the keys. */
  lemma {:induction false} SameReachIn(a: Adjacency, b: Adjacency, u: Id, v: Id, n: nat)
    requires a.lists == b.lists && ReachIn(b, u, v, n)
    ensures ReachIn(a, u, v, n)
    decreases n
  {
    if n > 0 {
      var w :| ReachIn(b, u, w, n - 1) && Edge(b, w, v);
      SameReachIn(a, b, u, w, n - 1);
      assert Edge(a, w, v);
    }
  }

  lemma SecondOrder(a: Adjacency, b: Adjacency, u: Id, v: Id, c: set<Id>)
    requires b.Valid() && a.lists == b.lists && b.keys != [] && b.keys[0] == v
    requires c in Expected(b, 1) && u in c && v in c
    ensures Reach(a, v, u)
  {
    var r := Reaches(b);
    FirstsMembers(b.keys, r, 1, |b.keys|, c);
    var j :| 0 <= j < |b.keys| && Starts(b.keys, r, 1, j) && c == Fresh(r, j);
    KeyInOwnReach(b, 0);
    FreshOnce(r, 0, j, v);
    var n: nat :| ReachIn(b, v, u, n);
    SameReachIn(a, b, v, u, n);
  }

  // ---------------------------------------------------------------------------
  // Where the adjacency comes from
  // ---------------------------------------------------------------------------

  datatype Hit = Hit(ref: Id, score: real)

  /** One in-scope hit of the drawer's own search that is close enough to be an edge. */
  predicate Links(h: Hit, drawer: Id, scope: set<Id>, threshold: real) {
    h.ref != "" && h.ref != drawer && h.ref in scope && h.score >= threshold
  }

  function IdsOf(drawers: seq<Id>): seq<Id> {
    if drawers == [] then []
    else
      var rest := IdsOf(drawers[..|drawers| - 1]);
      if drawers[|drawers| - 1] in rest then rest else rest + [drawers[|drawers| - 1]]
  }

  lemma {:induction false} IdsDistinct(drawers: seq<Id>)
    ensures forall d :: d in IdsOf(drawers) <==> d in drawers
    ensures forall i, j :: 0 <= i < j < |IdsOf(drawers)| ==> IdsOf(drawers)[i] != IdsOf(drawers)[j]
  {
    if drawers != [] {
      IdsDistinct(drawers[..|drawers| - 1]);
      assert drawers == drawers[..|drawers| - 1] + [drawers[|drawers| - 1]];
    }
  }

  /** The keys come in the order in which the drawers are first listed. */
  lemma {:induction false} IdsInOrder(drawers: seq<Id>, m: nat, n: nat)
    requires m < n < |IdsOf(drawers)|
    ensures exists p :: 0 <= p < |drawers| && drawers[p] == IdsOf(drawers)[m] && IdsOf(drawers)[n] !in drawers[..p + 1]
  {
    var front, last := drawers[..|drawers| - 1], drawers[|drawers| - 1];
    if n < |IdsOf(front)| {
      IdsInOrder(front, m, n);
      var p :| 0 <= p < |front| && front[p] == IdsOf(front)[m] && IdsOf(front)[n] !in front[..p + 1];
      assert drawers[..p + 1] == front[..p + 1];
    } else {
      IdsDistinct(front);
      assert IdsOf(front)[m] in front;
      var p :| 0 <= p < |front| && front[p] == IdsOf(front)[m];
      assert drawers[p] == front[p];
      forall i | 0 <= i < p + 1
        ensures drawers[i] != last
      {
        assert front[i] in front && last !in IdsOf(front);
      }
    }
  }

  function Scope(drawers: seq<Id>): set<Id> {
    set d | d in drawers
  }

  ghost predicate Linked(drawers: seq<Id>, results: seq<Option<seq<Hit>>>, threshold: real, n: nat, u: Id, v: Id)
    requires |drawers| == |results| && n <= |drawers|
  {
    exists i, h :: 0 <= i < n && drawers[i] == u && results[i].Some? && h in results[i].value
                   && h.ref == v && Links(h, u, Scope(drawers), threshold)
  }

  /** A search made for the one found the other, with at least that score. */
  ghost predicate FoundCloseEnough(drawers: seq<Id>, results: seq<Option<seq<Hit>>>, threshold: real, u: Id, v: Id)
    requires |drawers| == |results|
  {
    exists i, h :: 0 <= i < |drawers| && drawers[i] == u && results[i].Some? && h in results[i].value
                   && h.ref == v && h.score >= threshold
  }

  lemma LinkedIsFound(drawers: seq<Id>, results: seq<Option<seq<Hit>>>, threshold: real, u: Id, v: Id)
    requires |drawers| == |results|
    ensures Linked(drawers, results, threshold, |drawers|, u, v) <==>
            v != "" && v != u && v in drawers && FoundCloseEnough(drawers, results, threshold, u, v)
  {
    if v != "" && v != u && v in drawers && FoundCloseEnough(drawers, results, threshold, u, v) {
      var i, h :| 0 <= i < |drawers| && drawers[i] == u && results[i].Some? && h in results[i].value
                  && h.ref == v && h.score >= threshold;
      assert Links(h, u, Scope(drawers), threshold);
    }
  }

  /** Each drawer's list holds exactly the other in-scope drawers that its own searches found
      close enough, without repeats; a failed search (None) only adds nothing. */
  method BuildAdjacency(drawers: seq<Id>, results: seq<Option<seq<Hit>>>, threshold: real) returns (a: Adjacency)
    requires |drawers| == |results|
    ensures a.Valid() && a.keys == IdsOf(drawers)
    ensures forall u, v :: Edge(a, u, v) <==>
              v != "" && v != u && v in drawers && FoundCloseEnough(drawers, results, threshold, u, v)
    ensures forall u :: u in a.lists ==> NoRepeats(a.lists[u]) && u !in a.lists[u]
    ensures Nodes(a) == a.lists.Keys
  {
    var keys := IdsOf(drawers);
    IdsDistinct(drawers);
    var lists := map k | k in keys :: [];
    var scope := Scope(drawers);
    for i := 0 to |drawers|
      invariant forall k :: k in lists <==> k in drawers
      invariant ListsSoFar(lists, drawers, results, threshold, i)
    {
      assert drawers[i] in drawers;
      if results[i].Some? {
        var list := AddHits(lists[drawers[i]], results[i].value, drawers[i], scope, threshold);
        ListsNext(lists, list, drawers, results, threshold, i);
        lists := lists[drawers[i] := list];
      } else {
        LinkedNext(drawers, results, threshold, i);
      }
    }
    a := Adjacency(keys, lists);
    LinkedInScope(drawers, results, threshold);
    forall u, v
      ensures Linked(drawers, results, threshold, |drawers|, u, v) <==>
              v != "" && v != u && v in drawers && FoundCloseEnough(drawers, results, threshold, u, v)
    {
      LinkedIsFound(drawers, results, threshold, u, v);
    }
  }

  /** The lists hold what the first `n` searches found. */
  ghost predicate ListsSoFar(lists: map<Id, seq<Id>>, drawers: seq<Id>, results: seq<Option<seq<Hit>>>,
                             threshold: real, n: nat)
    requires |drawers| == |results| && n <= |drawers|
  {
    forall u :: u in lists ==>
      NoRepeats(lists[u]) && forall v :: v in lists[u] <==> Linked(drawers, results, threshold, n, u, v)
  }

  lemma ListsNext(lists: map<Id, seq<Id>>, list: seq<Id>, drawers: seq<Id>, results: seq<Option<seq<Hit>>>,
                  threshold: real, i: nat)
    requires |drawers| == |results| && i < |drawers| && drawers[i] in lists
    requires ListsSoFar(lists, drawers, results, threshold, i) && NoRepeats(list)
    requires forall v :: v in list <==> v in lists[drawers[i]] || Found(drawers, results[i], threshold, drawers[i], v)
    ensures ListsSoFar(lists[drawers[i] := list], drawers, results, threshold, i + 1)
  {
    LinkedNext(drawers, results, threshold, i);
  }

  lemma LinkedInScope(drawers: seq<Id>, results: seq<Option<seq<Hit>>>, threshold: real)
    requires |drawers| == |results|
    ensures forall u, v :: Linked(drawers, results, threshold, |drawers|, u, v) ==>
              u in drawers && v in drawers && u != v
  {
  }

  ghost predicate NoRepeats(s: seq<Id>) {
    forall i, j :: 0 <= i < j < |s| ==> s[i] != s[j]
  }

  lemma LinkedNext(drawers: seq<Id>, results: seq<Option<seq<Hit>>>, threshold: real, i: nat)
    requires |drawers| == |results| && i < |drawers|
    ensures forall u, v :: Linked(drawers, results, threshold, i + 1, u, v) <==>
              || Linked(drawers, results, threshold, i, u, v)
              || (drawers[i] == u && Found(drawers, results[i], threshold, u, v))
  {
  }

  ghost predicate Found(drawers: seq<Id>, result: Option<seq<Hit>>, threshold: real, u: Id, v: Id) {
    result.Some? && exists h :: h in result.value && h.ref == v && Links(h, u, Scope(drawers), threshold)
  }

  method AddHits(list: seq<Id>, hits: seq<Hit>, drawer: Id, scope: set<Id>, threshold: real) returns (r: seq<Id>)
    requires NoRepeats(list)
    ensures NoRepeats(r)
    ensures forall v :: v in r <==>
              v in list || exists h :: h in hits && h.ref == v && Links(h, drawer, scope, threshold)
  {
    r := list;
    for i := 0 to |hits|
      invariant NoRepeats(r)
      invariant forall v :: v in r <==>
                  v in list || exists h :: h in hits[..i] && h.ref == v && Links(h, drawer, scope, threshold)
    {
      var h := hits[i];
      assert forall g :: g in hits[..i + 1] <==> g in hits[..i] || g == h;
      if h.ref == "" || h.ref == drawer || h.ref !in scope {
        continue;
      }
      if h.score >= threshold && h.ref !in r {
        r := r + [h.ref];
      }
    }
    assert hits[..|hits|] == hits;
  }
}
