/** Finite directed graphs: reachability, acyclicity, and what flows from a node along all paths. */
module Graphs {

  /** Each node with its direct successors. */
  type Graph<T(==)> = map<T, set<T>>

  ghost predicate WellFormed<T>(g: Graph<T>) {
    forall u :: u in g ==> g[u] <= g.Keys
  }

  ghost predicate Closed<T>(g: Graph<T>, nodes: set<T>) {
    nodes <= g.Keys && forall u :: u in nodes ==> g[u] <= nodes
  }

  ghost function Successors<T>(g: Graph<T>, nodes: set<T>): set<T>
    requires nodes <= g.Keys
  {
    set u, v | u in nodes && v in g[u] :: v
  }

  /** The least closed set around some nodes. */
  ghost function Closure<T>(g: Graph<T>, nodes: set<T>): (all: set<T>)
    requires WellFormed(g) && nodes <= g.Keys
    ensures nodes <= all && Closed(g, all)
    decreases g.Keys - nodes
  {
    var next := nodes + Successors(g, nodes);
    if next == nodes then nodes
    else
      assert nodes < next;
      Closure(g, next)
  }

  lemma {:induction false} ClosureIsLeast<T>(g: Graph<T>, nodes: set<T>, closed: set<T>)
    requires WellFormed(g) && nodes <= closed && Closed(g, closed)
    ensures Closure(g, nodes) <= closed
    decreases g.Keys - nodes
  {
    var next := nodes + Successors(g, nodes);
    if next == nodes {
    } else {
      assert nodes < next;
      ClosureIsLeast(g, next, closed);
    }
  }

  /** Every node that a value put into u is forwarded to, u included. */
  ghost function Reach<T>(g: Graph<T>, u: T): (all: set<T>)
    requires WellFormed(g) && u in g
    ensures u in all && Closed(g, all)
  {
    Closure(g, {u})
  }

  lemma ReachIsLeast<T>(g: Graph<T>, u: T, closed: set<T>)
    requires WellFormed(g) && Closed(g, closed) && u in closed
    ensures Reach(g, u) <= closed
  {
    ClosureIsLeast(g, {u}, closed);
  }

  /** u itself, and what its successors reach. */
  lemma ReachUnfolds<T>(g: Graph<T>, u: T)
    requires WellFormed(g) && u in g
    ensures Reach(g, u) == {u} + (set w, v | w in g[u] && v in Reach(g, w) :: v)
  {
    var step := {u} + (set w, v | w in g[u] && v in Reach(g, w) :: v);
    forall v | v in step
      ensures g[v] <= step
    {
      if v != u {
        var w :| w in g[u] && v in Reach(g, w);
      } else {
        forall w | w in g[u]
          ensures w in step
        {
          assert w in Reach(g, w);
        }
      }
    }
    ReachIsLeast(g, u, step);
    forall w | w in g[u]
      ensures Reach(g, w) <= Reach(g, u)
    {
      ReachIsLeast(g, w, Reach(g, u));
    }
  }

  /** The nodes that one of their own successors comes back to. */
  ghost function Looping<T>(g: Graph<T>): set<T>
    requires WellFormed(g)
  {
    set u | u in g && ComesBack(g, u)
  }

  ghost predicate ComesBack<T>(g: Graph<T>, u: T)
    requires WellFormed(g) && u in g
  {
    exists w :: w in g[u] && u in Reach(g, w)
  }

  ghost predicate Acyclic<T>(g: Graph<T>)
    requires WellFormed(g)
  {
    Looping(g) == {}
  }

  ghost predicate Dag<T>(g: Graph<T>) {
    WellFormed(g) && Acyclic(g)
  }

  /** How many nodes a node reaches: it shrinks along every edge of an acyclic graph. */
  ghost function Depth<T>(g: Graph<T>, u: T): nat
    requires WellFormed(g) && u in g
  {
    |Reach(g, u)|
  }

  lemma DepthShrinks<T>(g: Graph<T>, u: T)
    requires Dag(g) && u in g
    ensures forall w :: w in g[u] ==> Depth(g, w) < Depth(g, u)
  {
    assert u !in Looping(g);
    forall w | w in g[u]
      ensures Depth(g, w) < Depth(g, u)
    {
      ReachIsLeast(g, w, Reach(g, u));
      SmallerSet(Reach(g, w), Reach(g, u));
    }
  }

  lemma {:induction false} SmallerSet<T>(small: set<T>, large: set<T>)
    requires small < large
    ensures |small| < |large|
  {
    assert large == small + (large - small);
  }

  /** The sum of some numbers. */
  ghost function Sum<T>(nodes: set<T>, value: map<T, nat>): nat
    requires nodes <= value.Keys
  {
    if nodes == {} then 0
    else
      var u :| u in nodes;
      value[u] + Sum(nodes - {u}, value)
  }

  /** Any element can be taken out first. */
  lemma {:induction false} SumTakes<T>(nodes: set<T>, value: map<T, nat>, u: T)
    requires nodes <= value.Keys && u in nodes
    ensures Sum(nodes, value) == value[u] + Sum(nodes - {u}, value)
    decreases |nodes|
  {
    var first :| first in nodes && Sum(nodes, value) == value[first] + Sum(nodes - {first}, value);
    if first == u {
    } else {
      SumTakes(nodes - {first}, value, u);
      SumTakes(nodes - {u}, value, first);
      assert nodes - {first} - {u} == nodes - {u} - {first};
    }
  }

  lemma {:induction false} SumAgrees<T>(nodes: set<T>, a: map<T, nat>, b: map<T, nat>)
    requires nodes <= a.Keys && nodes <= b.Keys && forall u :: u in nodes ==> a[u] == b[u]
    ensures Sum(nodes, a) == Sum(nodes, b)
    decreases |nodes|
  {
    if nodes == {} {
    } else {
      var u :| u in nodes;
      SumTakes(nodes, a, u);
      SumTakes(nodes, b, u);
      SumAgrees(nodes - {u}, a, b);
    }
  }

  lemma {:induction false} SumAdds<T>(nodes: set<T>, a: map<T, nat>, b: map<T, nat>, c: map<T, nat>)
    requires nodes <= a.Keys && nodes <= b.Keys && nodes <= c.Keys
    requires forall u :: u in nodes ==> c[u] == a[u] + b[u]
    ensures Sum(nodes, c) == Sum(nodes, a) + Sum(nodes, b)
    decreases |nodes|
  {
    if nodes == {} {
    } else {
      var u :| u in nodes;
      SumTakes(nodes, a, u);
      SumTakes(nodes, b, u);
      SumTakes(nodes, c, u);
      SumAdds(nodes - {u}, a, b, c);
    }
  }

  /** What arrives in total when one unit is put into u, every node forwards what it receives to
      each of its successors, and each arrival at v counts weight[v]. */
  ghost function Flow<T>(g: Graph<T>, weight: map<T, nat>, u: T): nat
    requires Dag(g) && u in g && g.Keys <= weight.Keys
    decreases Depth(g, u)
  {
    DepthShrinks(g, u);
    weight[u] + Sum(g[u], map w | w in g[u] :: Flow(g, weight, w))
  }

  ghost function Onward<T>(g: Graph<T>, weight: map<T, nat>, nodes: set<T>): map<T, nat>
    requires Dag(g) && nodes <= g.Keys && g.Keys <= weight.Keys
  {
    map w | w in nodes :: Flow(g, weight, w)
  }

  /** Counts the arrivals at the marked nodes. */
  function Mark<T(==)>(nodes: set<T>, marked: set<T>): map<T, nat> {
    map u | u in nodes :: if u in marked then 1 else 0
  }

  /** How many paths lead from u to v. */
  ghost function Paths<T>(g: Graph<T>, u: T, v: T): nat
    requires Dag(g) && u in g
  {
    Flow(g, Mark(g.Keys, {v}), u)
  }

  ghost function PathsTo<T>(g: Graph<T>, u: T, ends: set<T>): map<T, nat>
    requires Dag(g) && u in g
  {
    map v | v in ends :: Paths(g, u, v)
  }

  lemma FlowUnfolds<T>(g: Graph<T>, weight: map<T, nat>, u: T)
    requires Dag(g) && u in g && g.Keys <= weight.Keys
    ensures Flow(g, weight, u) == weight[u] + Passed(g, weight, g[u])
  {
  }

  /** What has arrived when one unit has been put into each of these nodes. */
  ghost function Passed<T>(g: Graph<T>, weight: map<T, nat>, nodes: set<T>): nat
    requires Dag(g) && nodes <= g.Keys <= weight.Keys
  {
    Sum(nodes, Onward(g, weight, nodes))
  }

  lemma PassedGrows<T>(g: Graph<T>, weight: map<T, nat>, nodes: set<T>, w: T)
    requires Dag(g) && nodes <= g.Keys <= weight.Keys && w in g && w !in nodes
    ensures Passed(g, weight, nodes + {w}) == Passed(g, weight, nodes) + Flow(g, weight, w)
  {
    var after := Onward(g, weight, nodes + {w});
    SumTakes(nodes + {w}, after, w);
    assert nodes + {w} - {w} == nodes;
    SumAgrees(nodes, after, Onward(g, weight, nodes));
  }

  /** What arrives at each of several sets of nodes, when one unit is put into u. */
  ghost function Arrive<T, K>(g: Graph<T>, ends: map<K, set<T>>, u: T): (counts: map<K, nat>)
    requires Dag(g) && u in g
    ensures counts.Keys == ends.Keys
  {
    map k | k in ends :: Flow(g, Mark(g.Keys, ends[k]), u)
  }

  ghost function ArriveFrom<T, K>(g: Graph<T>, ends: map<K, set<T>>, nodes: set<T>): (counts: map<K, nat>)
    requires Dag(g) && nodes <= g.Keys
    ensures counts.Keys == ends.Keys
  {
    map k | k in ends :: Passed(g, Mark(g.Keys, ends[k]), nodes)
  }

  function Holding<T(==), K(==)>(ends: map<K, set<T>>, u: T): (counts: map<K, nat>)
    ensures counts.Keys == ends.Keys
  {
    map k | k in ends :: if u in ends[k] then 1 else 0
  }

  function Plus<K(==)>(a: map<K, nat>, b: map<K, nat>): map<K, nat>
    requires a.Keys == b.Keys
  {
    map k | k in a :: a[k] + b[k]
  }

  lemma ArriveFromGrows<T, K>(g: Graph<T>, ends: map<K, set<T>>, nodes: set<T>, w: T)
    requires Dag(g) && nodes <= g.Keys && w in g && w !in nodes
    ensures ArriveFrom(g, ends, nodes + {w}) == Plus(ArriveFrom(g, ends, nodes), Arrive(g, ends, w))
  {
    hide Passed, Flow;
    forall k | k in ends
      ensures ArriveFrom(g, ends, nodes + {w})[k] == Plus(ArriveFrom(g, ends, nodes), Arrive(g, ends, w))[k]
    {
      PassedGrows(g, Mark(g.Keys, ends[k]), nodes, w);
    }
  }

  lemma ArriveUnfolds<T, K>(g: Graph<T>, ends: map<K, set<T>>, u: T)
    requires Dag(g) && u in g
    ensures Arrive(g, ends, u) == Plus(Holding(ends, u), ArriveFrom(g, ends, g[u]))
  {
    hide Passed, Flow;
    forall k | k in ends
      ensures Arrive(g, ends, u)[k] == Plus(Holding(ends, u), ArriveFrom(g, ends, g[u]))[k]
    {
      FlowUnfolds(g, Mark(g.Keys, ends[k]), u);
    }
  }

  lemma {:induction false} FlowAdds<T>(g: Graph<T>, a: map<T, nat>, b: map<T, nat>, c: map<T, nat>, u: T)
    requires Dag(g) && u in g
    requires g.Keys <= a.Keys && g.Keys <= b.Keys && g.Keys <= c.Keys
    requires forall v :: v in g ==> c[v] == a[v] + b[v]
    ensures Flow(g, c, u) == Flow(g, a, u) + Flow(g, b, u)
    decreases Depth(g, u)
  {
    FlowUnfolds(g, a, u);
    FlowUnfolds(g, b, u);
    FlowUnfolds(g, c, u);
    DepthShrinks(g, u);
    forall w | w in g[u]
      ensures Flow(g, c, w) == Flow(g, a, w) + Flow(g, b, w)
    {
      FlowAdds(g, a, b, c, w);
    }
    SumAdds(g[u], Onward(g, a, g[u]), Onward(g, b, g[u]), Onward(g, c, g[u]));
  }

  lemma {:induction false} NoFlow<T>(g: Graph<T>, u: T)
    requires Dag(g) && u in g
    ensures Flow(g, Mark(g.Keys, {}), u) == 0
    decreases Depth(g, u)
  {
    var none := Mark(g.Keys, {});
    FlowAdds(g, none, none, none, u);
  }

  /** Arrivals at a set of nodes are the arrivals at each of them. */
  lemma {:induction false} FlowIntoSet<T>(g: Graph<T>, ends: set<T>, u: T)
    requires Dag(g) && u in g
    ensures Flow(g, Mark(g.Keys, ends), u) == Sum(ends, PathsTo(g, u, ends))
    decreases |ends|
  {
    if ends == {} {
      NoFlow(g, u);
    } else {
      var v :| v in ends;
      FlowIntoSet(g, ends - {v}, u);
      FlowAdds(g, Mark(g.Keys, ends - {v}), Mark(g.Keys, {v}), Mark(g.Keys, ends), u);
      SumTakes(ends, PathsTo(g, u, ends), v);
      SumAgrees(ends - {v}, PathsTo(g, u, ends), PathsTo(g, u, ends - {v}));
    }
  }

  ghost function Sources<T>(g: Graph<T>, v: T): set<T> {
    set u | u in g && v in g[u]
  }

  lemma {:induction false} SumOfMark<T>(nodes: set<T>, all: set<T>, v: T)
    requires nodes <= all
    ensures Sum(nodes, Mark(all, {v})) == if v in nodes then 1 else 0
    decreases |nodes|
  {
    if nodes == {} {
    } else {
      var u :| u in nodes;
      SumTakes(nodes, Mark(all, {v}), u);
      SumOfMark(nodes - {u}, all, v);
    }
  }

  /** The last step of a path: what arrives at v was put into v, or was forwarded by a source. */
  lemma {:induction false} FlowByLastStep<T>(g: Graph<T>, u: T, v: T)
    requires Dag(g) && u in g
    ensures Paths(g, u, v) == (if u == v then 1 else 0) + Flow(g, Mark(g.Keys, Sources(g, v)), u)
    decreases Depth(g, u)
  {
    var at, before := Mark(g.Keys, {v}), Mark(g.Keys, Sources(g, v));
    FlowUnfolds(g, at, u);
    FlowUnfolds(g, before, u);
    DepthShrinks(g, u);
    forall w | w in g[u]
      ensures Flow(g, at, w) == (if w == v then 1 else 0) + Flow(g, before, w)
    {
      FlowByLastStep(g, w, v);
    }
    SumAdds(g[u], at, Onward(g, before, g[u]), Onward(g, at, g[u]));
    SumOfMark(g[u], g.Keys, v);
  }

  ghost predicate Weighs<T>(g: Graph<T>, weight: map<T, nat>, u: T)
    requires WellFormed(g) && u in g && g.Keys <= weight.Keys
  {
    exists v :: v in Reach(g, u) && weight[v] > 0
  }

  /** Something flows exactly when a weight is reached. */
  lemma {:induction false} FlowReaches<T>(g: Graph<T>, weight: map<T, nat>, u: T)
    requires Dag(g) && u in g && g.Keys <= weight.Keys
    ensures Flow(g, weight, u) > 0 <==> Weighs(g, weight, u)
    decreases Depth(g, u)
  {
    FlowUnfolds(g, weight, u);
    DepthShrinks(g, u);
    forall w | w in g[u]
      ensures Flow(g, weight, w) > 0 <==> Weighs(g, weight, w)
    {
      FlowReaches(g, weight, w);
    }
    SumPositive(g[u], Onward(g, weight, g[u]));
    WeighsUnfolds(g, weight, u);
  }

  lemma WeighsUnfolds<T>(g: Graph<T>, weight: map<T, nat>, u: T)
    requires WellFormed(g) && u in g && g.Keys <= weight.Keys
    ensures Weighs(g, weight, u) <==> weight[u] > 0 || exists w :: w in g[u] && Weighs(g, weight, w)
  {
    ReachUnfolds(g, u);
    if Weighs(g, weight, u) && weight[u] == 0 {
      var v :| v in Reach(g, u) && weight[v] > 0;
      var w :| w in g[u] && v in Reach(g, w);
      assert Weighs(g, weight, w);
    }
  }

  /** A path leads to exactly the nodes that are reached. */
  lemma PathsReach<T>(g: Graph<T>, u: T, v: T)
    requires Dag(g) && u in g
    ensures Paths(g, u, v) > 0 <==> v in Reach(g, u)
  {
    FlowReaches(g, Mark(g.Keys, {v}), u);
  }

  lemma {:induction false} SumPositive<T>(nodes: set<T>, value: map<T, nat>)
    requires nodes <= value.Keys
    ensures Sum(nodes, value) > 0 <==> exists u :: u in nodes && value[u] > 0
    decreases |nodes|
  {
    if nodes == {} {
    } else {
      var u :| u in nodes;
      SumTakes(nodes, value, u);
      SumPositive(nodes - {u}, value);
    }
  }

  /** What v has received after one push into each of the given nodes, in turn. */
  ghost function Received<T>(g: Graph<T>, origins: seq<T>, v: T): nat
    requires Dag(g) && forall u :: u in origins ==> u in g
  {
    if origins == [] then 0
    else Received(g, origins[..|origins| - 1], v) + Paths(g, origins[|origins| - 1], v)
  }

  ghost function ReceivedBy<T>(g: Graph<T>, origins: seq<T>, nodes: set<T>): map<T, nat>
    requires Dag(g) && forall u :: u in origins ==> u in g
  {
    map v | v in nodes :: Received(g, origins, v)
  }

  /** Flow equation for a run of pushes: received is pushed directly, plus all that the sources
      have received. */
  lemma {:induction false} FlowEquation<T>(g: Graph<T>, origins: seq<T>, v: T)
    requires Dag(g) && forall u :: u in origins ==> u in g
    ensures Received(g, origins, v)
        == multiset(origins)[v] + Sum(Sources(g, v), ReceivedBy(g, origins, Sources(g, v)))
  {
    var sources := Sources(g, v);
    if origins == [] {
      SumPositive(sources, ReceivedBy(g, origins, sources));
    } else {
      var before, u := origins[..|origins| - 1], origins[|origins| - 1];
      assert origins == before + [u];
      FlowEquation(g, before, v);
      FlowByLastStep(g, u, v);
      FlowIntoSet(g, sources, u);
      SumAdds(sources, ReceivedBy(g, before, sources), PathsTo(g, u, sources), ReceivedBy(g, origins, sources));
    }
  }

  /** What arrives at a set of nodes after a run of pushes, such as those an output subscribes to. */
  ghost function Arrivals<T>(g: Graph<T>, origins: seq<T>, ends: set<T>): nat
    requires Dag(g) && forall u :: u in origins ==> u in g
  {
    if origins == [] then 0
    else Arrivals(g, origins[..|origins| - 1], ends) + Flow(g, Mark(g.Keys, ends), origins[|origins| - 1])
  }

  lemma {:induction false} ArrivalsAreReceived<T>(g: Graph<T>, origins: seq<T>, ends: set<T>)
    requires Dag(g) && forall u :: u in origins ==> u in g
    ensures Arrivals(g, origins, ends) == Sum(ends, ReceivedBy(g, origins, ends))
  {
    if origins == [] {
      SumPositive(ends, ReceivedBy(g, origins, ends));
    } else {
      var before, u := origins[..|origins| - 1], origins[|origins| - 1];
      ArrivalsAreReceived(g, before, ends);
      FlowIntoSet(g, ends, u);
      SumAdds(ends, ReceivedBy(g, before, ends), PathsTo(g, u, ends), ReceivedBy(g, origins, ends));
    }
  }

  /** Whether forwarding from u, with the nodes in `held` already on the way, comes to a node that
      is on the way. */
  ghost predicate Relocks<T>(g: Graph<T>, held: set<T>, u: T)
    requires WellFormed(g) && u in g && held <= g.Keys
    decreases g.Keys - held
  {
    u in held || exists w :: w in g[u] && Relocks(g, held + {u}, w)
  }

  ghost predicate CycleFrom<T>(g: Graph<T>, u: T)
    requires WellFormed(g) && u in g
  {
    exists x, y :: x in Reach(g, u) && y in g[x] && x in Reach(g, y)
  }

  lemma {:induction false} NoRelockNoCycle<T>(g: Graph<T>, held: set<T>, u: T)
    requires WellFormed(g) && u in g && held <= g.Keys && !Relocks(g, held, u)
    ensures Reach(g, u) !! held && !CycleFrom(g, u)
    decreases g.Keys - held
  {
    ReachUnfolds(g, u);
    forall w | w in g[u]
      ensures Reach(g, w) !! held + {u} && !CycleFrom(g, w)
    {
      NoRelockNoCycle(g, held + {u}, w);
    }
    forall x, y | x in Reach(g, u) && y in g[x]
      ensures x !in Reach(g, y)
    {
      if x != u {
        var w :| w in g[u] && x in Reach(g, w);
        assert !CycleFrom(g, w);
      }
    }
  }

  lemma {:induction false} NoCycleNoRelock<T>(g: Graph<T>, held: set<T>, u: T)
    requires WellFormed(g) && u in g && held <= g.Keys && Reach(g, u) !! held && !CycleFrom(g, u)
    ensures !Relocks(g, held, u)
    decreases g.Keys - held
  {
    forall w | w in g[u]
      ensures !Relocks(g, held + {u}, w)
    {
      ReachIsLeast(g, w, Reach(g, u));
      NoCycleNoRelock(g, held + {u}, w);
    }
  }

  /** Recursive forwarding asks for a lock it holds if and only if it can reach a cycle. */
  lemma RelocksIffCycle<T>(g: Graph<T>, u: T)
    requires WellFormed(g) && u in g
    ensures Relocks(g, {}, u) <==> CycleFrom(g, u)
  {
    if Relocks(g, {}, u) {
      if !CycleFrom(g, u) {
        NoCycleNoRelock(g, {}, u);
      }
    } else {
      NoRelockNoCycle(g, {}, u);
    }
  }
}
