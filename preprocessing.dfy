/** Pre-processing of a road graph (edge capacities and raw destination
    attraction weights) and the barrier update of the drive graph. */
module Preprocessing {
  import opened Graph

  /** Road length, in metres, one vehicle occupies. */
  const VehicleSpace: real := 7.0

  /** Routing weight that takes an edge out of shortest-path consideration. */
  const BarrierWeight: real := 999999.0

  /** Multiplier of a central node's attraction in the morning. */
  const MorningCentralFactor: real := 8.0

  function Max(a: int, b: int): int { if a < b then b else a }

  /** Python's int() on a float: truncation toward zero. */
  function Trunc(x: real): (r: int)
    ensures x >= 0.0 ==> 0 <= r && r as real <= x < (r + 1) as real
    ensures x < 0.0 ==> r <= 0 && (r - 1) as real < x <= r as real
  {
    if x >= 0.0 then x.Floor else -((-x).Floor)
  }

  /** Capacity of an edge of the given length. */
  function Capacity(length: real): int
  {
    Max(1, Trunc(length / VehicleSpace))
  }

  /** The capacity is max(1, floor(length / 7)): at least one vehicle, and
      for an edge of at least 7 metres, the number of whole 7-metre slots. */
  lemma CapacitySpec(length: real)
    ensures Capacity(length) >= 1
    ensures Capacity(length) == Max(1, (length / VehicleSpace).Floor)
    ensures length >= VehicleSpace ==>
      VehicleSpace * Capacity(length) as real <= length < VehicleSpace * (Capacity(length) + 1) as real
    ensures length < 2.0 * VehicleSpace ==> Capacity(length) == 1
  {
    var q := length / VehicleSpace;
    assert length == VehicleSpace * q;
    if q < 0.0 {
      assert q.Floor < 0;
    }
  }

  /** An edge's data with its capacity attribute (re)computed from its length
      (1.0 when the length is missing). */
  function WithCapacity(d: EdgeData): EdgeData
  {
    d["capacity" := Capacity(Get(d, "length", 1.0)) as real]
  }

  /** The edges after the capacity pass. */
  function WithCapacities(edges: map<EdgeKey, EdgeData>): map<EdgeKey, EdgeData>
  {
    map e | e in edges :: WithCapacity(edges[e])
  }

  /** After the capacity pass every edge has capacity max(1, floor(length/7)),
      at least 1, and no other attribute and no edge changed. */
  lemma {:induction false} WithCapacitiesSpec(edges: map<EdgeKey, EdgeData>)
    ensures WithCapacities(edges).Keys == edges.Keys
    ensures forall e :: e in edges ==>
      && "capacity" in WithCapacities(edges)[e]
      && WithCapacities(edges)[e]["capacity"] >= 1.0
      && WithCapacities(edges)[e]["capacity"] == Max(1, (Get(edges[e], "length", 1.0) / VehicleSpace).Floor) as real
      && WithCapacities(edges)[e].Keys == edges[e].Keys + {"capacity"}
      && forall a :: a in edges[e] && a != "capacity" ==> WithCapacities(edges)[e][a] == edges[e][a]
  {
    forall e | e in edges
      ensures WithCapacities(edges)[e]["capacity"] >= 1.0
      ensures WithCapacities(edges)[e]["capacity"] == Max(1, (Get(edges[e], "length", 1.0) / VehicleSpace).Floor) as real
    {
      CapacitySpec(Get(edges[e], "length", 1.0));
    }
  }

  /** Running the capacity pass twice gives the same graph as running it once. */
  lemma {:induction false} WithCapacitiesIdempotent(edges: map<EdgeKey, EdgeData>)
    ensures WithCapacities(WithCapacities(edges)) == WithCapacities(edges)
  {
    var once := WithCapacities(edges);
    var twice := WithCapacities(once);
    assert twice.Keys == edges.Keys == once.Keys;
    forall e | e in edges
      ensures twice[e] == once[e]
    {
      CapacityIdempotent(edges[e]);
    }
  }

  /** The same, for one edge's data. */
  lemma CapacityIdempotent(d: EdgeData)
    ensures WithCapacity(WithCapacity(d)) == WithCapacity(d)
  {
    assert Get(WithCapacity(d), "length", 1.0) == Get(d, "length", 1.0);
  }

  /** Raw attraction weight of one node: degree + 1, times 8 for a central
      node when the time of day is "Morning". */
  function NodeWeight(edges: map<EdgeKey, EdgeData>, n: Node, timeOfDay: string, central: set<Node>): real
  {
    var w := Degree(edges, n) as real + 1.0;
    if timeOfDay == "Morning" && n in central then w * MorningCentralFactor else w
  }

  /** Raw attraction weights, parallel to the node list. */
  function RawWeights(nodes: seq<Node>, edges: map<EdgeKey, EdgeData>, timeOfDay: string, central: set<Node>)
    : (w: seq<real>)
    ensures |w| == |nodes|
  {
    seq(|nodes|, i requires 0 <= i < |nodes| => NodeWeight(edges, nodes[i], timeOfDay, central))
  }

  /** Every raw weight is positive, is degree + 1 or eight times that, and is
      multiplied exactly when the time of day is "Morning" and the node is
      central; in particular any other time of day leaves every node at
      degree + 1. */
  lemma RawWeightsSpec(nodes: seq<Node>, edges: map<EdgeKey, EdgeData>, timeOfDay: string, central: set<Node>)
    ensures forall i :: 0 <= i < |nodes| ==>
      var w, d := RawWeights(nodes, edges, timeOfDay, central)[i], Degree(edges, nodes[i]) as real + 1.0;
      && w >= d > 0.0
      && (w == 8.0 * d <==> timeOfDay == "Morning" && nodes[i] in central)
      && (w == d <==> !(timeOfDay == "Morning" && nodes[i] in central))
  {
  }

  /** A node's weight grows with its degree. */
  lemma {:induction false} NodeWeightMonotone(edges: map<EdgeKey, EdgeData>, m: Node, n: Node,
                                              timeOfDay: string, central: set<Node>)
    requires Degree(edges, m) <= Degree(edges, n)
    requires m in central <==> n in central
    ensures NodeWeight(edges, m, timeOfDay, central) <= NodeWeight(edges, n, timeOfDay, central)
  {
  }

  /** The state of the capacity pass with `todo` still to visit: the
      visited edges hold their new data, the others their original data. */
  ghost predicate CapacityPassAt(original: map<EdgeKey, EdgeData>, current: map<EdgeKey, EdgeData>,
                                 todo: set<EdgeKey>)
  {
    && todo <= original.Keys
    && current.Keys == original.Keys
    && forall e :: e in original ==> current[e] == if e in todo then original[e] else WithCapacity(original[e])
  }

  /** Visiting one more edge advances the pass. */
  lemma CapacityPassStep(original: map<EdgeKey, EdgeData>, current: map<EdgeKey, EdgeData>,
                         todo: set<EdgeKey>, e: EdgeKey)
    requires CapacityPassAt(original, current, todo) && e in todo
    ensures e in current
    ensures CapacityPassAt(original, current[e := WithCapacity(current[e])], todo - {e})
  {
  }

  /** With nothing left to visit, the pass is complete. */
  lemma CapacityPassEnd(original: map<EdgeKey, EdgeData>, current: map<EdgeKey, EdgeData>)
    requires CapacityPassAt(original, current, {})
    ensures current == WithCapacities(original)
  {
  }

  /** The in-place capacity pass over every edge, followed by the raw
      weights (their normalisation into probabilities is not modelled). */
  method PreProcessing(graph: RoadGraph, timeOfDay: string, central: set<Node>)
    returns (nIds: seq<Node>, weights: seq<real>)
    modifies graph
    ensures graph.edges == WithCapacities(old(graph.edges))
    ensures nIds == graph.nodes
    ensures weights == RawWeights(graph.nodes, graph.edges, timeOfDay, central)
  {
    ghost var original := graph.edges;
    var todo := graph.edges.Keys;
    while todo != {}
      invariant CapacityPassAt(original, graph.edges, todo)
      decreases |todo|
    {
      var e := Pick(todo);
      CapacityPassStep(original, graph.edges, todo, e);
      var data := graph.edges[e];
      graph.edges := graph.edges[e := data["capacity" := Capacity(Get(data, "length", 1.0)) as real]];
      todo := todo - {e};
    }
    CapacityPassEnd(original, graph.edges);
    nIds := graph.nodes;
    weights := RawWeights(nIds, graph.edges, timeOfDay, central);
  }

  /** The routing-weight update a barrier makes to the listed edges. */
  function Block(edges: map<EdgeKey, EdgeData>, s: set<EdgeKey>): map<EdgeKey, EdgeData>
  {
    map e | e in edges :: if e in s then edges[e]["weight" := BarrierWeight] else edges[e]
  }

  /** The edges after barriers at the given nearest nodes: every edge leaving
      one of them (all parallel keys) is blocked. */
  function Barred(edges: map<EdgeKey, EdgeData>, barrierNodes: seq<Node>): map<EdgeKey, EdgeData>
  {
    Block(edges, set e | e in edges.Keys && e.u in barrierNodes)
  }

  /** No barrier, no change; otherwise exactly the outgoing edges of the
      selected nodes get weight 999999 and every other edge, incoming edges
      of those nodes included, is unchanged; no attribute but the weight
      changes and no edge is added or removed. */
  lemma BarredSpec(edges: map<EdgeKey, EdgeData>, barrierNodes: seq<Node>)
    ensures barrierNodes == [] ==> Barred(edges, barrierNodes) == edges
    ensures Barred(edges, barrierNodes).Keys == edges.Keys
    ensures forall e :: e in edges && e.u in barrierNodes ==>
      Barred(edges, barrierNodes)[e] == edges[e]["weight" := BarrierWeight]
    ensures forall e :: e in edges && e.u !in barrierNodes ==>
      Barred(edges, barrierNodes)[e] == edges[e]
  {
  }

  /** Barriers and the capacity pass touch different attributes, so applying
      barriers before pre-processing leaves every capacity as it would be
      without them. */
  lemma {:induction false} BarriersKeepCapacities(edges: map<EdgeKey, EdgeData>, barrierNodes: seq<Node>)
    ensures WithCapacities(Barred(edges, barrierNodes)) == Barred(WithCapacities(edges), barrierNodes)
  {
    var lhs, rhs := WithCapacities(Barred(edges, barrierNodes)), Barred(WithCapacities(edges), barrierNodes);
    assert lhs.Keys == edges.Keys == rhs.Keys;
    forall e | e in edges
      ensures lhs[e] == rhs[e]
    {
      BarriersKeepCapacity(edges, barrierNodes, e);
    }
  }

  /** The same, one edge at a time. */
  lemma BarriersKeepCapacity(edges: map<EdgeKey, EdgeData>, barrierNodes: seq<Node>, e: EdgeKey)
    requires e in edges
    ensures e in Barred(edges, barrierNodes) && e in WithCapacities(edges)
    ensures WithCapacities(Barred(edges, barrierNodes))[e] == Barred(WithCapacities(edges), barrierNodes)[e]
  {
    if e.u in barrierNodes {
      WeightCapacityCommute(edges[e]);
    }
  }

  lemma WeightCapacityCommute(d: EdgeData)
    ensures WithCapacity(d["weight" := BarrierWeight]) == WithCapacity(d)["weight" := BarrierWeight]
  {
    assert Get(d["weight" := BarrierWeight], "length", 1.0) == Get(d, "length", 1.0);
  }

  /** Applying the same barriers twice is the same as applying them once. */
  lemma {:induction false} BarredIdempotent(edges: map<EdgeKey, EdgeData>, barrierNodes: seq<Node>)
    ensures Barred(Barred(edges, barrierNodes), barrierNodes) == Barred(edges, barrierNodes)
  {
    var b := Barred(edges, barrierNodes);
    forall e | e in edges && e.u in barrierNodes
      ensures b[e]["weight" := BarrierWeight] == b[e]
    {
    }
  }

  /** Some element of a non-empty set (the iteration order of the source's
      dictionaries is not modelled). */
  method Pick<T>(s: set<T>) returns (x: T)
    requires s != {}
    ensures x in s
  {
    x :| x in s;
  }

  /** Blocking in two rounds blocks the union. */
  lemma {:induction false} BlockTwice(edges: map<EdgeKey, EdgeData>, s1: set<EdgeKey>, s2: set<EdgeKey>)
    ensures Block(Block(edges, s1), s2) == Block(edges, s1 + s2)
  {
    var lhs, rhs := Block(Block(edges, s1), s2), Block(edges, s1 + s2);
    assert lhs.Keys == rhs.Keys;
    forall e | e in edges
      ensures lhs[e] == rhs[e]
    {
      if e in s1 && e in s2 {
        assert edges[e]["weight" := BarrierWeight]["weight" := BarrierWeight] == edges[e]["weight" := BarrierWeight];
      }
    }
  }

  /** The edges from `target` to any of `heads`. */
  function EdgesTo(edges: map<EdgeKey, EdgeData>, target: Node, heads: set<Node>): set<EdgeKey>
  {
    set e | e in edges.Keys && e.u == target && e.v in heads
  }

  lemma BlockKeys(edges: map<EdgeKey, EdgeData>, s: set<EdgeKey>)
    ensures Block(edges, s).Keys == edges.Keys
  {
  }

  /** Barring one more present edge is one update of its routing weight. */
  lemma BlockOne(edges: map<EdgeKey, EdgeData>, s: set<EdgeKey>, e: EdgeKey)
    requires e in edges
    ensures e in Block(edges, s)
    ensures Block(edges, s)[e := Block(edges, s)[e]["weight" := BarrierWeight]] == Block(edges, s + {e})
  {
    BlockTwice(edges, s, {e});
    var b := Block(edges, s);
    assert b[e := b[e]["weight" := BarrierWeight]] == Block(b, {e});
  }

  /** Inner loop: every parallel edge from `target` to `neighbor`. */
  method BlockParallelEdges(graph: RoadGraph, target: Node, neighbor: Node)
    modifies graph
    ensures graph.edges == Block(old(graph.edges), EdgesTo(old(graph.edges), target, {neighbor}))
  {
    ghost var original := graph.edges;
    ghost var parallel := EdgesTo(original, target, {neighbor});
    var todo := set e | e in graph.edges.Keys && e.u == target && e.v == neighbor;
    while todo != {}
      invariant todo <= parallel
      invariant graph.edges == Block(original, parallel - todo)
      decreases |todo|
    {
      var e := Pick(todo);
      BlockOne(original, parallel - todo, e);
      graph.edges := graph.edges[e := graph.edges[e]["weight" := BarrierWeight]];
      assert (parallel - todo) + {e} == parallel - (todo - {e});
      todo := todo - {e};
    }
  }

  /** Middle loop: every successor of `target`. */
  method BlockOutgoing(graph: RoadGraph, target: Node)
    modifies graph
    ensures graph.edges == Block(old(graph.edges), OutEdges(old(graph.edges), target))
  {
    ghost var original := graph.edges;
    var neighbors := set e | e in graph.edges.Keys && e.u == target :: e.v;
    ghost var done: set<Node> := {};
    while neighbors != {}
      invariant graph.edges == Block(original, EdgesTo(original, target, done))
      invariant neighbors !! done
      invariant forall e :: e in original && e.u == target ==> e.v in neighbors || e.v in done
      decreases |neighbors|
    {
      var neighbor := Pick(neighbors);
      ghost var before := EdgesTo(original, target, done);
      ghost var batch := EdgesTo(original, target, {neighbor});
      BlockKeys(original, before);
      BlockParallelEdges(graph, target, neighbor);
      assert EdgesTo(Block(original, before), target, {neighbor}) == batch;
      BlockTwice(original, before, batch);
      neighbors := neighbors - {neighbor};
      done := done + {neighbor};
      assert before + batch == EdgesTo(original, target, done);
    }
    assert EdgesTo(original, target, done) == OutEdges(original, target);
  }

  /** The in-place barrier update: for each selected node, for each of its
      successors, for each parallel edge key, set the routing weight. */
  method ApplyBarriers(graph: RoadGraph, barrierNodes: seq<Node>)
    modifies graph
    ensures graph.edges == Barred(old(graph.edges), barrierNodes)
  {
    if |barrierNodes| == 0 {
      assert Barred(graph.edges, barrierNodes) == graph.edges;
      return;
    }
    ghost var original := graph.edges;
    assert Barred(original, barrierNodes[..0]) == original;
    for i := 0 to |barrierNodes|
      invariant graph.edges == Barred(original, barrierNodes[..i])
    {
      var target := barrierNodes[i];
      ghost var before := set e | e in original.Keys && e.u in barrierNodes[..i];
      BlockKeys(original, before);
      BlockOutgoing(graph, target);
      assert OutEdges(Block(original, before), target) == OutEdges(original, target);
      BlockTwice(original, before, OutEdges(original, target));
      assert barrierNodes[..i + 1] == barrierNodes[..i] + [target];
      assert before + OutEdges(original, target) == set e | e in original.Keys && e.u in barrierNodes[..i + 1];
    }
    assert barrierNodes[..|barrierNodes|] == barrierNodes;
  }
}
