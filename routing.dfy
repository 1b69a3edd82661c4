/**
 * The several-routes search: for each pair of an origin alias and a
 * destination alias, a best-first enumeration of simple paths over a heap of
 * `(cost, path)` entries, collecting the paths that reach the destination
 * until the requested number of routes is reached.
 */
module Routing {
  import opened Wrappers
  import opened Network
  import opened Text
  import Order

  /** A heap entry, and a collected route: its total time and its path. */
  datatype Entry = Entry(cost: int, path: seq<Code>)

  /** Python's `<` on the `(cost, path)` tuples the heap holds. */
  predicate EntryLess(x: Entry, y: Entry)
  {
    x.cost < y.cost || (x.cost == y.cost && Order.PathLess(x.path, y.path))
  }

  /** The tuple order is a strict total order, so the heap's minimum is unique. */
  lemma EntryLessOrder()
    ensures forall x :: !EntryLess(x, x)
    ensures forall x, y, z :: EntryLess(x, y) && EntryLess(y, z) ==> EntryLess(x, z)
    ensures forall x, y :: x != y ==> EntryLess(x, y) || EntryLess(y, x)
  {
    Order.PathLessOrder();
  }

  /** `heapq.heappop`: removes and returns the least entry. */
  method PopMin(queue: set<Entry>) returns (e: Entry)
    requires queue != {}
    ensures e in queue
    ensures forall x | x in queue && x != e :: EntryLess(e, x)
  {
    EntryLessOrder();
    var rest := queue;
    e :| e in rest;
    rest := rest - {e};
    while rest != {}
      invariant rest <= queue && e in queue && e !in rest
      invariant forall x | x in queue && x !in rest && x != e :: EntryLess(e, x)
      decreases rest
    {
      var x :| x in rest;
      if EntryLess(x, e) {
        e := x;
      }
      rest := rest - {x};
    }
  }

  // ---------------------------------------------------------------------------
  // Paths and their cost

  function Last(p: seq<Code>): Code
    requires |p| > 0
  {
    p[|p| - 1]
  }

  function Parent(p: seq<Code>): seq<Code>
    requires |p| > 0
  {
    p[..|p| - 1]
  }

  /** `G[a][b].get("tiempo", 0)`. */
  function Weight(edges: map<Key, Edge>, a: Code, b: Code): int
  {
    if KeyOf(a, b) in edges then edges[KeyOf(a, b)].time.GetOr(0) else 0
  }

  /** The sum of the times of the path's edges, a missing time counting as 0. */
  function PathCost(edges: map<Key, Edge>, p: seq<Code>): int
    decreases |p|
  {
    if |p| < 2 then 0 else PathCost(edges, Parent(p)) + Weight(edges, p[|p| - 2], p[|p| - 1])
  }

  predicate NonNegative(edges: map<Key, Edge>)
  {
    forall k | k in edges :: edges[k].time.GetOr(0) >= 0
  }

  /** No code occurs twice: a simple path, or an alias list without repeats. */
  predicate Distinct(p: seq<Code>)
  {
    forall i, j :: 0 <= i < j < |p| ==> p[i] != p[j]
  }

  ghost predicate Adjacent(edges: map<Key, Edge>, p: seq<Code>)
  {
    forall i :: 0 <= i < |p| - 1 ==> KeyOf(p[i], p[i + 1]) in edges
  }

  /** A simple path of the graph that starts at `o`. */
  ghost predicate IsWalkFrom(nodes: set<Code>, edges: map<Key, Edge>, p: seq<Code>, o: Code)
  {
    && |p| > 0 && p[0] == o
    && (forall i :: 0 <= i < |p| ==> p[i] in nodes)
    && Distinct(p)
    && Adjacent(edges, p)
  }

  /** A simple path of the graph from `o` to `d`. */
  ghost predicate IsRoute(nodes: set<Code>, edges: map<Key, Edge>, p: seq<Code>, o: Code, d: Code)
  {
    IsWalkFrom(nodes, edges, p, o) && Last(p) == d
  }

  lemma PathCostSnoc(edges: map<Key, Edge>, p: seq<Code>, v: Code)
    requires |p| > 0
    ensures PathCost(edges, p + [v]) == PathCost(edges, p) + Weight(edges, Last(p), v)
  {
    assert Parent(p + [v]) == p;
  }

  /** With no negative time, a path costs at least as much as any of its prefixes. */
  lemma {:induction false} PathCostPrefix(edges: map<Key, Edge>, p: seq<Code>, k: nat)
    requires NonNegative(edges) && 1 <= k <= |p|
    ensures PathCost(edges, p[..k]) <= PathCost(edges, p)
    decreases |p|
  {
    if k < |p| {
      var init := Parent(p);
      assert init[..k] == p[..k];
      PathCostPrefix(edges, init, k);
      var key := KeyOf(p[|p| - 2], p[|p| - 1]);
      assert key in edges ==> edges[key].time.GetOr(0) >= 0;
    } else {
      assert p[..k] == p;
    }
  }

  lemma WalkExtend(nodes: set<Code>, edges: map<Key, Edge>, p: seq<Code>, o: Code, v: Code)
    requires IsWalkFrom(nodes, edges, p, o)
    requires v in nodes && KeyOf(Last(p), v) in edges && v !in p
    ensures IsWalkFrom(nodes, edges, p + [v], o) && Parent(p + [v]) == p
  {
    var q := p + [v];
    assert forall i :: 0 <= i < |p| ==> q[i] == p[i];
    assert Parent(q) == p;
  }

  // ---------------------------------------------------------------------------
  // Expanding an entry

  /** `G.neighbors(n)`. */
  function Neighbors(nodes: set<Code>, edges: map<Key, Edge>, n: Code): set<Code>
  {
    set m | m in nodes && KeyOf(n, m) in edges
  }

  /** The entries pushed for the neighbours in `vs` of the path's last code that are not on it. */
  function ChildrenVia(edges: map<Key, Edge>, e: Entry, vs: set<Code>): set<Entry>
    requires |e.path| > 0
  {
    set v | v in vs && v !in e.path :: Entry(e.cost + Weight(edges, Last(e.path), v), e.path + [v])
  }

  function Children(nodes: set<Code>, edges: map<Key, Edge>, e: Entry): set<Entry>
    requires |e.path| > 0
  {
    ChildrenVia(edges, e, Neighbors(nodes, edges, Last(e.path)))
  }

  /** The inner loop: one `heappush` per neighbour that is not already on the path. */
  method Expand(nodes: set<Code>, edges: map<Key, Edge>, queue: set<Entry>, e: Entry) returns (q: set<Entry>)
    requires |e.path| > 0
    ensures q == queue + Children(nodes, edges, e)
  {
    var last := Last(e.path);
    var all := Neighbors(nodes, edges, last);
    var pending := all;
    q := queue;
    while pending != {}
      invariant pending <= all
      invariant q == queue + ChildrenVia(edges, e, all - pending)
      decreases pending
    {
      var v :| v in pending;
      ghost var done := all - pending;
      if v !in e.path {
        q := q + {Entry(e.cost + Weight(edges, last, v), e.path + [v])};
      }
      assert all - (pending - {v}) == done + {v};
      assert ChildrenVia(edges, e, done + {v}) == ChildrenVia(edges, e, done)
        + (if v !in e.path then {Entry(e.cost + Weight(edges, last, v), e.path + [v])} else {});
      pending := pending - {v};
    }
    assert all - pending == all;
  }

  // ---------------------------------------------------------------------------
  // The state of one search and what each step keeps

  function PathsOf(batch: seq<Entry>): set<seq<Code>>
  {
    set i | 0 <= i < |batch| :: batch[i].path
  }

  function QueuePaths(queue: set<Entry>): set<seq<Code>>
  {
    set x | x in queue :: x.path
  }

  /** Every queued entry is a simple path from `o` with its cost, not yet popped, whose parent was. */
  ghost predicate QueueOk(nodes: set<Code>, edges: map<Key, Edge>, o: Code, queue: set<Entry>, visited: set<seq<Code>>)
  {
    forall x | x in queue ::
      && IsWalkFrom(nodes, edges, x.path, o) && x.cost == PathCost(edges, x.path)
      && x.path !in visited && (|x.path| > 1 ==> Parent(x.path) in visited)
  }

  ghost predicate VisitedOk(nodes: set<Code>, edges: map<Key, Edge>, o: Code, visited: set<seq<Code>>)
  {
    forall p | p in visited :: IsWalkFrom(nodes, edges, p, o) && (|p| > 1 ==> Parent(p) in visited)
  }

  /** The routes collected are exactly the popped paths that end at `d`, each once. */
  ghost predicate BatchOk(nodes: set<Code>, edges: map<Key, Edge>, o: Code, d: Code, visited: set<seq<Code>>, batch: seq<Entry>)
  {
    && (forall i | 0 <= i < |batch| ::
          batch[i].path in visited && IsRoute(nodes, edges, batch[i].path, o, d)
          && batch[i].cost == PathCost(edges, batch[i].path))
    && (forall p | p in visited && |p| > 0 && Last(p) == d :: p in PathsOf(batch))
    && (forall i, j | 0 <= i < j < |batch| :: batch[i].path != batch[j].path)
  }

  /**
   * A path is accounted for: popped already, or extended from a queued prefix,
   * or cut off because a shorter prefix reached the destination.
   */
  ghost predicate Covered(paths: set<seq<Code>>, visited: set<seq<Code>>, d: Code, p: seq<Code>)
  {
    || p in visited
    || (exists k :: 1 <= k <= |p| && p[..k] in paths)
    || (exists k :: 1 <= k < |p| && p[..k] in visited && p[k - 1] == d)
  }

  ghost predicate CoverOk(nodes: set<Code>, edges: map<Key, Edge>, o: Code, d: Code, queue: set<Entry>, visited: set<seq<Code>>)
  {
    forall p | IsWalkFrom(nodes, edges, p, o) :: Covered(QueuePaths(queue), visited, d, p)
  }

  ghost predicate CostSorted(batch: seq<Entry>)
  {
    forall i, j | 0 <= i < j < |batch| :: batch[i].cost <= batch[j].cost
  }

  /** Collected routes in cost order, none dearer than what is still queued. */
  ghost predicate OrderOk(queue: set<Entry>, batch: seq<Entry>)
  {
    CostSorted(batch) && forall i, x | 0 <= i < |batch| && x in queue :: batch[i].cost <= x.cost
  }

  ghost predicate SearchOk(nodes: set<Code>, edges: map<Key, Edge>, o: Code, d: Code, queue: set<Entry>, visited: set<seq<Code>>, batch: seq<Entry>)
  {
    && QueueOk(nodes, edges, o, queue, visited)
    && VisitedOk(nodes, edges, o, visited)
    && BatchOk(nodes, edges, o, d, visited, batch)
    && CoverOk(nodes, edges, o, d, queue, visited)
    && (NonNegative(edges) ==> OrderOk(queue, batch))
  }

  /** The queue after popping `e`: its children pushed unless it reached `d`. */
  ghost function Popped(nodes: set<Code>, edges: map<Key, Edge>, d: Code, queue: set<Entry>, e: Entry): set<Entry>
    requires |e.path| > 0
  {
    if Last(e.path) == d then queue - {e} else (queue - {e}) + Children(nodes, edges, e)
  }

  function Collected(batch: seq<Entry>, e: Entry, d: Code): seq<Entry>
    requires |e.path| > 0
  {
    if Last(e.path) == d then batch + [e] else batch
  }

  lemma InitialState(nodes: set<Code>, edges: map<Key, Edge>, o: Code, d: Code)
    requires o in nodes
    ensures SearchOk(nodes, edges, o, d, {Entry(0, [o])}, {}, [])
  {
    var queue := {Entry(0, [o])};
    assert QueuePaths(queue) == {[o]};
    forall p | IsWalkFrom(nodes, edges, p, o) ensures Covered(QueuePaths(queue), {}, d, p) {
      assert p[..1] == [o];
    }
  }

  lemma StepQueue(nodes: set<Code>, edges: map<Key, Edge>, o: Code, d: Code, queue: set<Entry>, visited: set<seq<Code>>, e: Entry)
    requires QueueOk(nodes, edges, o, queue, visited) && VisitedOk(nodes, edges, o, visited) && e in queue
    ensures |e.path| > 0
    ensures QueueOk(nodes, edges, o, Popped(nodes, edges, d, queue, e), visited + {e.path})
    ensures VisitedOk(nodes, edges, o, visited + {e.path})
  {
    var v1 := visited + {e.path};
    forall x | x in queue - {e} ensures x.path !in v1 {
      assert x.cost == PathCost(edges, x.path) && e.cost == PathCost(edges, e.path);
    }
    if Last(e.path) != d {
      forall c | c in Children(nodes, edges, e)
        ensures IsWalkFrom(nodes, edges, c.path, o) && c.cost == PathCost(edges, c.path)
        ensures c.path !in v1 && Parent(c.path) in v1
      {
        var v :| v in Neighbors(nodes, edges, Last(e.path)) && v !in e.path
          && c == Entry(e.cost + Weight(edges, Last(e.path), v), e.path + [v]);
        WalkExtend(nodes, edges, e.path, o, v);
        PathCostSnoc(edges, e.path, v);
      }
    }
  }

  lemma StepBatch(nodes: set<Code>, edges: map<Key, Edge>, o: Code, d: Code, queue: set<Entry>, visited: set<seq<Code>>, batch: seq<Entry>, e: Entry)
    requires QueueOk(nodes, edges, o, queue, visited) && BatchOk(nodes, edges, o, d, visited, batch) && e in queue
    ensures |e.path| > 0
    ensures BatchOk(nodes, edges, o, d, visited + {e.path}, Collected(batch, e, d))
  {
    var b1 := Collected(batch, e, d);
    var v1 := visited + {e.path};
    if Last(e.path) == d {
      assert b1[|batch|] == e;
      assert forall i | 0 <= i < |batch| :: b1[i] == batch[i];
      assert e.path in PathsOf(b1);
      forall p | p in v1 && |p| > 0 && Last(p) == d ensures p in PathsOf(b1) {
        if p != e.path {
          var i :| 0 <= i < |batch| && batch[i].path == p;
          assert b1[i].path == p;
        }
      }
    }
  }

  /** A route cannot have a proper prefix that already ends at its destination. */
  lemma NoEarlyArrival(nodes: set<Code>, edges: map<Key, Edge>, p: seq<Code>, o: Code, d: Code)
    requires IsRoute(nodes, edges, p, o, d)
    ensures forall j | 0 <= j < |p| - 1 :: p[j] != d
  {
    assert p[|p| - 1] == d;
  }

  lemma StepCover(nodes: set<Code>, edges: map<Key, Edge>, o: Code, d: Code, queue: set<Entry>, visited: set<seq<Code>>, e: Entry)
    requires QueueOk(nodes, edges, o, queue, visited) && CoverOk(nodes, edges, o, d, queue, visited) && e in queue
    ensures |e.path| > 0
    ensures CoverOk(nodes, edges, o, d, Popped(nodes, edges, d, queue, e), visited + {e.path})
  {
    var q1 := Popped(nodes, edges, d, queue, e);
    var v1 := visited + {e.path};
    forall p | IsWalkFrom(nodes, edges, p, o) ensures Covered(QueuePaths(q1), v1, d, p) {
      if p !in visited && !(exists k :: 1 <= k < |p| && p[..k] in visited && p[k - 1] == d) {
        var k :| 1 <= k <= |p| && p[..k] in QueuePaths(queue);
        var x :| x in queue && x.path == p[..k];
        if x != e {
          assert x in q1;
          assert p[..k] in QueuePaths(q1);
        } else if k == |p| {
          assert p == e.path;
        } else if Last(e.path) == d {
          assert p[..k] in v1 && p[k - 1] == d;
        } else {
          ChildCovered(nodes, edges, o, d, queue, e, p, k);
        }
      }
    }
  }

  /** A path extending the popped entry by one code is covered by a pushed child. */
  lemma ChildCovered(nodes: set<Code>, edges: map<Key, Edge>, o: Code, d: Code, queue: set<Entry>, e: Entry, p: seq<Code>, k: nat)
    requires IsWalkFrom(nodes, edges, p, o) && |e.path| > 0 && Last(e.path) != d
    requires 1 <= k < |p| && e.path == p[..k]
    ensures p[..k + 1] in QueuePaths(Popped(nodes, edges, d, queue, e))
  {
    var v := p[k];
    assert p[k - 1] == Last(e.path);
    assert KeyOf(p[k - 1], p[k]) in edges;
    assert v in Neighbors(nodes, edges, Last(e.path));
    assert v !in e.path;
    var c := Entry(e.cost + Weight(edges, Last(e.path), v), e.path + [v]);
    assert c in Children(nodes, edges, e);
    assert p[..k + 1] == e.path + [v];
    assert c in Popped(nodes, edges, d, queue, e);
  }

  lemma StepOrder(nodes: set<Code>, edges: map<Key, Edge>, o: Code, d: Code, queue: set<Entry>, visited: set<seq<Code>>, batch: seq<Entry>, e: Entry)
    requires NonNegative(edges) && OrderOk(queue, batch)
    requires QueueOk(nodes, edges, o, queue, visited) && e in queue
    requires forall x | x in queue && x != e :: EntryLess(e, x)
    ensures |e.path| > 0
    ensures OrderOk(Popped(nodes, edges, d, queue, e), Collected(batch, e, d))
  {
    var q1 := Popped(nodes, edges, d, queue, e);
    var b1 := Collected(batch, e, d);
    forall x | x in q1 ensures e.cost <= x.cost {
      if x !in queue {
        var v :| v in Neighbors(nodes, edges, Last(e.path)) && v !in e.path
          && x == Entry(e.cost + Weight(edges, Last(e.path), v), e.path + [v]);
        var key := KeyOf(Last(e.path), v);
        assert edges[key].time.GetOr(0) >= 0;
      }
    }
    if Last(e.path) == d {
      assert forall i | 0 <= i < |batch| :: b1[i] == batch[i];
      assert b1[|batch|] == e;
    }
  }

  /** One iteration of the search keeps its state, and adds a new simple path to the popped ones. */
  lemma Step(nodes: set<Code>, edges: map<Key, Edge>, o: Code, d: Code, queue: set<Entry>, visited: set<seq<Code>>, batch: seq<Entry>, e: Entry)
    requires SearchOk(nodes, edges, o, d, queue, visited, batch) && e in queue
    requires forall x | x in queue && x != e :: EntryLess(e, x)
    requires visited <= Arrangements(nodes)
    ensures |e.path| > 0 && e.path !in visited
    ensures SearchOk(nodes, edges, o, d, Popped(nodes, edges, d, queue, e), visited + {e.path}, Collected(batch, e, d))
    ensures visited + {e.path} <= Arrangements(nodes)
    ensures |visited + {e.path}| <= |Arrangements(nodes)|
  {
    StepQueue(nodes, edges, o, d, queue, visited, e);
    StepBatch(nodes, edges, o, d, queue, visited, batch, e);
    StepCover(nodes, edges, o, d, queue, visited, e);
    if NonNegative(edges) {
      StepOrder(nodes, edges, o, d, queue, visited, batch, e);
    }
    DistinctInArrangements(e.path, nodes);
    SubsetCardinality(visited + {e.path}, Arrangements(nodes));
  }

  /** When the queue runs dry, every route from `o` to `d` has been collected. */
  lemma ExhaustedFindsAll(nodes: set<Code>, edges: map<Key, Edge>, o: Code, d: Code, visited: set<seq<Code>>, batch: seq<Entry>)
    requires BatchOk(nodes, edges, o, d, visited, batch) && CoverOk(nodes, edges, o, d, {}, visited)
    ensures forall p | IsRoute(nodes, edges, p, o, d) :: p in PathsOf(batch)
  {
    assert QueuePaths({}) == {};
    forall p | IsRoute(nodes, edges, p, o, d) ensures p in PathsOf(batch) {
      assert Covered(QueuePaths({}), visited, d, p);
      NoEarlyArrival(nodes, edges, p, o, d);
    }
  }

  /** With no negative time, a route not collected costs at least as much as every collected one. */
  lemma UncollectedCostMore(nodes: set<Code>, edges: map<Key, Edge>, o: Code, d: Code, queue: set<Entry>, visited: set<seq<Code>>, batch: seq<Entry>)
    requires NonNegative(edges) && SearchOk(nodes, edges, o, d, queue, visited, batch)
    ensures forall p | IsRoute(nodes, edges, p, o, d) && p !in PathsOf(batch) ::
      forall i | 0 <= i < |batch| :: batch[i].cost <= PathCost(edges, p)
  {
    forall p, i | IsRoute(nodes, edges, p, o, d) && p !in PathsOf(batch) && 0 <= i < |batch|
      ensures batch[i].cost <= PathCost(edges, p)
    {
      assert Covered(QueuePaths(queue), visited, d, p);
      NoEarlyArrival(nodes, edges, p, o, d);
      var k :| 1 <= k <= |p| && p[..k] in QueuePaths(queue);
      var x :| x in queue && x.path == p[..k];
      PathCostPrefix(edges, p, k);
    }
  }

  // ---------------------------------------------------------------------------
  // The search

  /** The simple paths over `ns`: the sequences of distinct members of `ns`. */
  ghost function Arrangements(ns: set<Code>): set<seq<Code>>
    decreases ns
  {
    {[]} + set x, q | x in ns && q in Arrangements(ns - {x}) :: [x] + q
  }

  lemma {:induction false} DistinctInArrangements(p: seq<Code>, ns: set<Code>)
    requires Distinct(p) && forall i :: 0 <= i < |p| ==> p[i] in ns
    ensures p in Arrangements(ns)
    decreases ns
  {
    if p != [] {
      var x, q := p[0], p[1..];
      assert forall i :: 0 <= i < |q| ==> q[i] == p[i + 1];
      assert forall i :: 0 <= i < |q| ==> q[i] in ns - {x};
      DistinctInArrangements(q, ns - {x});
      assert p == [x] + q;
    }
  }

  lemma SubsetCardinality<T>(a: set<T>, b: set<T>)
    requires a <= b
    ensures |a| <= |b|
  {
    assert b == a + (b - a);
  }

  /**
   * The search for one origin alias `o` and one destination alias `d`, with
   * room for `room` more routes. The `visitados` test of the source never
   * fires (each path is pushed at most once); it is proved unnecessary here.
   */
  method SearchPair(nodes: set<Code>, edges: map<Key, Edge>, o: Code, d: Code, room: int) returns (batch: seq<Entry>)
    requires o in nodes
    ensures room <= 0 ==> batch == []
    ensures |batch| <= room || batch == []
    ensures forall i | 0 <= i < |batch| ::
      IsRoute(nodes, edges, batch[i].path, o, d) && batch[i].cost == PathCost(edges, batch[i].path)
    ensures forall i, j | 0 <= i < j < |batch| :: batch[i].path != batch[j].path
    ensures |batch| < room ==> forall p | IsRoute(nodes, edges, p, o, d) :: p in PathsOf(batch)
    ensures NonNegative(edges) ==> CostSorted(batch)
    ensures NonNegative(edges) ==> forall p | IsRoute(nodes, edges, p, o, d) && p !in PathsOf(batch) ::
      forall i | 0 <= i < |batch| :: batch[i].cost <= PathCost(edges, p)
  {
    var queue: set<Entry> := {Entry(0, [o])};
    ghost var visited: set<seq<Code>> := {};
    batch := [];
    InitialState(nodes, edges, o, d);
    while queue != {} && |batch| < room
      invariant SearchOk(nodes, edges, o, d, queue, visited, batch)
      invariant |batch| <= room || batch == []
      invariant visited <= Arrangements(nodes)
      decreases |Arrangements(nodes)| - |visited|
    {
      var e := PopMin(queue);
      assert e.path !in visited;
      Step(nodes, edges, o, d, queue, visited, batch, e);
      visited := visited + {e.path};
      if Last(e.path) == d {
        batch := batch + [e];
        queue := queue - {e};
      } else {
        queue := Expand(nodes, edges, queue - {e}, e);
      }
    }
    SearchDone(nodes, edges, o, d, room, queue, visited, batch);
  }

  /** What the state at the end of the search gives: the guarantees `SearchPair` promises. */
  lemma SearchDone(nodes: set<Code>, edges: map<Key, Edge>, o: Code, d: Code, room: int,
                   queue: set<Entry>, visited: set<seq<Code>>, batch: seq<Entry>)
    requires SearchOk(nodes, edges, o, d, queue, visited, batch)
    requires queue == {} || |batch| >= room
    ensures forall i | 0 <= i < |batch| ::
      IsRoute(nodes, edges, batch[i].path, o, d) && batch[i].cost == PathCost(edges, batch[i].path)
    ensures forall i, j | 0 <= i < j < |batch| :: batch[i].path != batch[j].path
    ensures |batch| < room ==> forall p | IsRoute(nodes, edges, p, o, d) :: p in PathsOf(batch)
    ensures NonNegative(edges) ==> CostSorted(batch)
    ensures NonNegative(edges) ==> forall p | IsRoute(nodes, edges, p, o, d) && p !in PathsOf(batch) ::
      forall i | 0 <= i < |batch| :: batch[i].cost <= PathCost(edges, p)
  {
    if queue == {} {
      ExhaustedFindsAll(nodes, edges, o, d, visited, batch);
    }
    if NonNegative(edges) {
      UncollectedCostMore(nodes, edges, o, d, queue, visited, batch);
    }
  }

  /** The guarantees of one pair's search, as `SearchPair` states them. */
  ghost predicate BatchSpec(nodes: set<Code>, edges: map<Key, Edge>, o: Code, d: Code, room: int, batch: seq<Entry>)
  {
    && (|batch| <= room || batch == [])
    && (forall i | 0 <= i < |batch| ::
          IsRoute(nodes, edges, batch[i].path, o, d) && batch[i].cost == PathCost(edges, batch[i].path))
    && (forall i, j | 0 <= i < j < |batch| :: batch[i].path != batch[j].path)
    && (|batch| < room ==> AllFound(nodes, edges, o, d, batch))
    && (NonNegative(edges) ==> CostSorted(batch))
  }

  /** Every route from `o` to `d` is among the paths of `found`. */
  ghost predicate AllFound(nodes: set<Code>, edges: map<Key, Edge>, o: Code, d: Code, found: seq<Entry>)
  {
    forall p | IsRoute(nodes, edges, p, o, d) :: p in PathsOf(found)
  }

  // ---------------------------------------------------------------------------
  // All alias pairs

  datatype Outcome = UnknownOrigin | UnknownDestination | Routes(found: seq<Entry>)

  /** The pair `(a, b)` of alias indices is searched before the pair `(a', b')`. */
  predicate Before(t: (int, int), a: int, b: int)
  {
    t.0 < a || (t.0 == a && t.1 < b)
  }

  /**
   * `found[i]` was collected by the search of the pair `tags[i]`: a route
   * between those aliases; routes of one pair are distinct and, with no
   * negative time, in cost order.
   */
  ghost predicate Tagged(nodes: set<Code>, edges: map<Key, Edge>, origins: seq<Code>, destinations: seq<Code>,
                         count: int, found: seq<Entry>, tags: seq<(int, int)>)
  {
    && |tags| == |found| && (|found| <= count || found == [])
    && (forall i | 0 <= i < |found| ::
          && 0 <= tags[i].0 < |origins| && 0 <= tags[i].1 < |destinations|
          && IsRoute(nodes, edges, found[i].path, origins[tags[i].0], destinations[tags[i].1])
          && found[i].cost == PathCost(edges, found[i].path))
    && (forall i, j | 0 <= i < j < |found| && tags[i] == tags[j] ::
          found[i].path != found[j].path && (NonNegative(edges) ==> found[i].cost <= found[j].cost))
  }

  /** While the cap is not reached, every route of every pair searched so far was collected. */
  ghost predicate Exhausted(nodes: set<Code>, edges: map<Key, Edge>, origins: seq<Code>, destinations: seq<Code>,
                            count: int, found: seq<Entry>, a: int, b: int)
  {
    |found| < count ==>
      forall i, j | 0 <= i < |origins| && 0 <= j < |destinations| && Before((i, j), a, b) ::
        AllFound(nodes, edges, origins[i], destinations[j], found)
  }

  lemma AppendBatch(nodes: set<Code>, edges: map<Key, Edge>, origins: seq<Code>, destinations: seq<Code>, count: int,
                    found: seq<Entry>, tags: seq<(int, int)>, a: int, b: int, batch: seq<Entry>)
    requires 0 <= a < |origins| && 0 <= b < |destinations|
    requires Tagged(nodes, edges, origins, destinations, count, found, tags)
    requires forall i | 0 <= i < |tags| :: Before(tags[i], a, b)
    requires Exhausted(nodes, edges, origins, destinations, count, found, a, b)
    requires BatchSpec(nodes, edges, origins[a], destinations[b], count - |found|, batch)
    ensures Tagged(nodes, edges, origins, destinations, count, found + batch, tags + seq(|batch|, _ => (a, b)))
    ensures var t1 := tags + seq(|batch|, _ => (a, b)); forall i | 0 <= i < |t1| :: Before(t1[i], a, b + 1)
    ensures Exhausted(nodes, edges, origins, destinations, count, found + batch, a, b + 1)
  {
    var f1, t1 := found + batch, tags + seq(|batch|, _ => (a, b));
    assert forall i | 0 <= i < |found| :: f1[i] == found[i] && t1[i] == tags[i];
    assert forall i | |found| <= i < |f1| :: f1[i] == batch[i - |found|] && t1[i] == (a, b);
    assert PathsOf(found) <= PathsOf(f1) && PathsOf(batch) <= PathsOf(f1) by {
      forall p | p in PathsOf(batch) ensures p in PathsOf(f1) {
        var i :| 0 <= i < |batch| && batch[i].path == p;
        assert f1[|found| + i].path == p;
      }
    }
    if |f1| < count {
      forall i, j | 0 <= i < |origins| && 0 <= j < |destinations| && Before((i, j), a, b + 1)
        ensures AllFound(nodes, edges, origins[i], destinations[j], f1)
      {
        if Before((i, j), a, b) {
          assert AllFound(nodes, edges, origins[i], destinations[j], found);
        } else {
          assert (i, j) == (a, b);
          assert AllFound(nodes, edges, origins[i], destinations[j], batch);
        }
      }
    }
  }

  /** The inner `for d in destinos` loop, for the origin alias `origins[a]`. */
  method SearchOrigin(nodes: set<Code>, edges: map<Key, Edge>, origins: seq<Code>, destinations: seq<Code>, count: int,
                      a: int, found0: seq<Entry>, ghost tags0: seq<(int, int)>)
    returns (found: seq<Entry>, ghost tags: seq<(int, int)>)
    requires 0 <= a < |origins| && origins[a] in nodes
    requires Tagged(nodes, edges, origins, destinations, count, found0, tags0)
    requires forall i | 0 <= i < |tags0| :: tags0[i].0 < a
    requires Exhausted(nodes, edges, origins, destinations, count, found0, a, 0)
    ensures Tagged(nodes, edges, origins, destinations, count, found, tags)
    ensures forall i | 0 <= i < |tags| :: tags[i].0 < a + 1
    ensures Exhausted(nodes, edges, origins, destinations, count, found, a + 1, 0)
    ensures |found0| <= |found| && found[..|found0|] == found0
  {
    found, tags := found0, tags0;
    var b := 0;
    while b < |destinations|
      invariant 0 <= b <= |destinations|
      invariant Tagged(nodes, edges, origins, destinations, count, found, tags)
      invariant forall i | 0 <= i < |tags| :: Before(tags[i], a, b)
      invariant Exhausted(nodes, edges, origins, destinations, count, found, a, b)
      invariant |found0| <= |found| && found[..|found0|] == found0
    {
      var batch := SearchPair(nodes, edges, origins[a], destinations[b], count - |found|);
      AppendBatch(nodes, edges, origins, destinations, count, found, tags, a, b, batch);
      found, tags := found + batch, tags + seq(|batch|, _ => (a, b));
      b := b + 1;
    }
    assert forall i | 0 <= i < |tags| :: 0 <= tags[i].1 < |destinations| && tags[i].0 < a + 1;
    if |found| < count {
      forall i, j | 0 <= i < |origins| && 0 <= j < |destinations| && Before((i, j), a + 1, 0)
        ensures AllFound(nodes, edges, origins[i], destinations[j], found)
      {
        assert Before((i, j), a, |destinations|);
      }
    }
  }

  /** With duplicate-free alias lists, routes with the same two ends come from the same pair. */
  lemma Untag(nodes: set<Code>, edges: map<Key, Edge>, origins: seq<Code>, destinations: seq<Code>, count: int,
              found: seq<Entry>, tags: seq<(int, int)>)
    requires Tagged(nodes, edges, origins, destinations, count, found, tags)
    requires Distinct(origins) && Distinct(destinations)
    ensures forall i, j | 0 <= i < j < |found| :: found[i].path != found[j].path
    ensures NonNegative(edges) ==> forall i, j | 0 <= i < j < |found| && SameEnds(found[i].path, found[j].path) ::
      found[i].cost <= found[j].cost
  {
    forall i, j | 0 <= i < j < |found| && SameEnds(found[i].path, found[j].path) ensures tags[i] == tags[j] {
      assert origins[tags[i].0] == origins[tags[j].0];
      assert destinations[tags[i].1] == destinations[tags[j].1];
    }
  }

  predicate SameEnds(p: seq<Code>, q: seq<Code>)
  {
    |p| > 0 && |q| > 0 && p[0] == q[0] && Last(p) == Last(q)
  }

  /**
   * `calcular_multiples_caminos` up to its report: the aliases of both names,
   * then one search per (origin alias, destination alias) pair, in order, all
   * sharing the cap of `count` routes.
   */
  method FindRoutes(nodes: set<Code>, edges: map<Key, Edge>, groups: map<string, seq<Code>>,
                    originName: string, destinationName: string, count: int) returns (r: Outcome)
    requires Aliases(groups, destinationName) != [] ==> forall c | c in Aliases(groups, originName) :: c in nodes
    ensures r == UnknownOrigin <==> Aliases(groups, originName) == []
    ensures r == UnknownDestination <==> Aliases(groups, originName) != [] && Aliases(groups, destinationName) == []
    ensures r.Routes? ==> |r.found| <= count || r.found == []
    ensures r.Routes? ==> forall i | 0 <= i < |r.found| ::
      && |r.found[i].path| > 0
      && r.found[i].path[0] in Aliases(groups, originName)
      && Last(r.found[i].path) in Aliases(groups, destinationName)
      && IsRoute(nodes, edges, r.found[i].path, r.found[i].path[0], Last(r.found[i].path))
      && r.found[i].cost == PathCost(edges, r.found[i].path)
    ensures r.Routes? && |r.found| < count ==>
      forall o, d | o in Aliases(groups, originName) && d in Aliases(groups, destinationName) ::
        AllFound(nodes, edges, o, d, r.found)
    ensures r.Routes? && Distinct(Aliases(groups, originName)) && Distinct(Aliases(groups, destinationName)) ==>
      forall i, j | 0 <= i < j < |r.found| :: r.found[i].path != r.found[j].path
    ensures (r.Routes? && Distinct(Aliases(groups, originName)) && Distinct(Aliases(groups, destinationName))
             && NonNegative(edges)) ==>
      forall i, j | 0 <= i < j < |r.found| && SameEnds(r.found[i].path, r.found[j].path) ::
        r.found[i].cost <= r.found[j].cost
  {
    var origins := Aliases(groups, originName);
    var destinations := Aliases(groups, destinationName);
    if origins == [] {
      return UnknownOrigin;
    }
    if destinations == [] {
      return UnknownDestination;
    }
    var found: seq<Entry> := [];
    ghost var tags: seq<(int, int)> := [];
    var a := 0;
    while a < |origins|
      invariant 0 <= a <= |origins|
      invariant Tagged(nodes, edges, origins, destinations, count, found, tags)
      invariant forall i | 0 <= i < |tags| :: tags[i].0 < a
      invariant Exhausted(nodes, edges, origins, destinations, count, found, a, 0)
    {
      found, tags := SearchOrigin(nodes, edges, origins, destinations, count, a, found, tags);
      a := a + 1;
    }
    if Distinct(origins) && Distinct(destinations) {
      Untag(nodes, edges, origins, destinations, count, found, tags);
    }
    if |found| < count {
      forall o, d | o in origins && d in destinations ensures AllFound(nodes, edges, o, d, found) {
        var i :| 0 <= i < |origins| && origins[i] == o;
        var j :| 0 <= j < |destinations| && destinations[j] == d;
        assert Before((i, j), |origins|, 0);
      }
    }
    r := Routes(found);
  }

  /** Every code of a name's group is a node of the graph built from the same rows. */
  lemma {:induction false} CodesNamedAreNodes(stations: seq<Station>, name: string)
    ensures forall c | c in CodesNamed(stations, name) :: c in NodeNames(stations)
  {
    if stations != [] {
      CodesNamedAreNodes(stations[..|stations| - 1], name);
    }
  }

  /** In the program, groups and nodes come from the same rows, so `FindRoutes`'s precondition holds. */
  lemma AliasesAreNodes(stations: seq<Station>, name: string)
    ensures forall c | c in Aliases(GroupByName(stations), name) :: c in NodeNames(stations)
  {
    GroupByNameSpec(stations, Upper(name));
    CodesNamedAreNodes(stations, Upper(name));
  }

  // ---------------------------------------------------------------------------
  // The report

  function EntryCost(e: Entry): int
  {
    e.cost
  }

  /** `sorted(caminos, key=lambda x: x[1])`: listing order, by time, ties in collection order. */
  function Ranked(found: seq<Entry>): (r: seq<Entry>)
    ensures Order.SortedBy(r, EntryCost)
    ensures multiset(r) == multiset(found)
    ensures forall t :: Order.WithKey(r, EntryCost, t) == Order.WithKey(found, EntryCost, t)
  {
    Order.SortBy(found, EntryCost)
  }

  /** `t // 60` and `t % 60` on Python integers: floor division and a remainder in [0, 60). */
  function MinutesSeconds(t: int): (r: (int, int))
    ensures r.0 * 60 + r.1 == t && 0 <= r.1 < 60
  {
    (t / 60, t % 60)
  }

  /**
   * The listing of one route: the name of each stop, the time of each leg,
   * and the running total, which ends at the route's cost. Every stop is a
   * node, and every node has a name, so the `'???'` default never applies.
   */
  method Report(names: map<Code, string>, edges: map<Key, Edge>, path: seq<Code>)
    returns (stops: seq<string>, legs: seq<int>, total: int)
    requires forall k | 0 <= k < |path| :: path[k] in names
    requires Adjacent(edges, path)
    ensures |stops| == |path| && forall k | 0 <= k < |path| :: stops[k] == names[path[k]]
    ensures |legs| == (if path == [] then 0 else |path| - 1)
    ensures forall k {:trigger legs[k]} | 0 <= k < |legs| :: k + 1 < |path| && legs[k] == Weight(edges, path[k], path[k + 1])
    ensures total == PathCost(edges, path)
  {
    stops, legs, total := [], [], 0;
    var i := 0;
    while i < |path|
      invariant 0 <= i <= |path|
      invariant |stops| == i && forall k | 0 <= k < i :: stops[k] == names[path[k]]
      invariant |legs| <= i && (i < |path| ==> |legs| == i) && (i > 0 ==> |legs| >= i - 1)
      invariant forall k {:trigger legs[k]} | 0 <= k < |legs| :: k + 1 < |path| && legs[k] == Weight(edges, path[k], path[k + 1])
      invariant total == Sum(legs)
    {
      stops := stops + [names[path[i]]];
      if i < |path| - 1 {
        var leg := Weight(edges, path[i], path[i + 1]);
        assert Sum(legs + [leg]) == Sum(legs) + leg by {
          assert (legs + [leg])[..|legs|] == legs;
        }
        legs := legs + [leg];
        total := total + leg;
      }
      i := i + 1;
    }
    LegsSum(edges, path, legs);
  }

  function Sum(xs: seq<int>): int
  {
    if xs == [] then 0 else Sum(xs[..|xs| - 1]) + xs[|xs| - 1]
  }

  /** The leg times of a path add up to its cost. */
  lemma {:induction false} LegsSum(edges: map<Key, Edge>, path: seq<Code>, legs: seq<int>)
    requires |legs| == (if path == [] then 0 else |path| - 1)
    requires forall k {:trigger legs[k]} | 0 <= k < |legs| :: k + 1 < |path| && legs[k] == Weight(edges, path[k], path[k + 1])
    ensures Sum(legs) == PathCost(edges, path)
    decreases |path|
  {
    if |path| >= 2 {
      var init := Parent(path);
      var l0 := legs[..|legs| - 1];
      forall k {:trigger l0[k]} | 0 <= k < |l0| ensures k + 1 < |init| && l0[k] == Weight(edges, init[k], init[k + 1]) {
        assert legs[k] == Weight(edges, path[k], path[k + 1]);
      }
      LegsSum(edges, init, l0);
      assert legs[|legs| - 1] == Weight(edges, path[|path| - 2], path[|path| - 1]);
    }
  }
}
