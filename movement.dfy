/** The movement check run before an agent is stepped: traffic lights at
    controlled intersections and stochastic congestion on the next edge. */
module Movement {
  import opened Graph
  import opened Agents
  import opened Traffic

  /** Capacity used when an edge's data has no "capacity" entry. */
  const DefaultCapacity: real := 5.0

  /** A node of degree greater than two is a controlled intersection; the
      light only gates movement there. */
  predicate LightPermits(edges: map<EdgeKey, EdgeData>, u: Node, v: Node, tick: int)
  {
    Degree(edges, u) <= 2 || IsGreenLight(u, v, tick)
  }

  /** The capacity the congestion rule compares against: the one of the
      parallel edge with key 0, or 5 when that edge has no capacity entry.
      None when the edge is missing or its data dictionary is empty, in which
      case no congestion rule applies. */
  function RuleCapacity(edges: map<EdgeKey, EdgeData>, u: Node, v: Node): Option<real>
  {
    var key := EdgeKey(u, v, 0);
    if key in edges && |edges[key]| > 0 then Some(Get(edges[key], "capacity", DefaultCapacity))
    else None
  }

  /** The snapshot load on (u, v) exceeds the capacity the rule uses. */
  predicate OverCapacity(edges: map<EdgeKey, EdgeData>, occupancy: map<Edge, real>, u: Node, v: Node)
  {
    var cap := RuleCapacity(edges, u, v);
    cap.Some? && Get(occupancy, (u, v), 0.0) > cap.value
  }

  /** May the agent move on this tick? `refuseDraw` stands for the random draw
      falling below 0.7, which is only consulted when the edge is over capacity. */
  function ValidateMovement(agent: AgentState, edges: map<EdgeKey, EdgeData>,
                            occupancy: map<Edge, real>, tick: int, refuseDraw: bool): (ok: bool)
    ensures agent.kind == Pedestrian ==> ok
    ensures agent.kind != Pedestrian && agent.currentStep >= |agent.path| - 1 ==> !ok
    ensures agent.kind != Pedestrian && agent.currentStep < |agent.path| - 1 ==>
      var u, v := agent.path[agent.currentStep], agent.path[agent.currentStep + 1];
      && (Degree(edges, u) > 2 && !IsGreenLight(u, v, tick) ==> !ok)
      && (LightPermits(edges, u, v, tick) && !OverCapacity(edges, occupancy, u, v) ==> ok)
      && (LightPermits(edges, u, v, tick) && !refuseDraw ==> ok)
      && (ok <==> LightPermits(edges, u, v, tick) && !(OverCapacity(edges, occupancy, u, v) && refuseDraw))
  {
    if agent.kind == Pedestrian then true
    else if agent.currentStep >= |agent.path| - 1 then false
    else
      var u, v := agent.path[agent.currentStep], agent.path[agent.currentStep + 1];
      if Degree(edges, u) > 2 && !IsGreenLight(u, v, tick) then false
      else
        var key := EdgeKey(u, v, 0);
        if key in edges && |edges[key]| > 0 then
          var capacity := Get(edges[key], "capacity", DefaultCapacity);
          !(Get(occupancy, (u, v), 0.0) > capacity && refuseDraw)
        else true
  }

  /** With the default capacity, a vehicle whose next edge carries a load of
      at most 5 and whose light permits always moves. */
  lemma DefaultCapacityAdmits(agent: AgentState, edges: map<EdgeKey, EdgeData>,
                              occupancy: map<Edge, real>, tick: int, refuseDraw: bool)
    requires agent.kind != Pedestrian && agent.currentStep < |agent.path| - 1
    requires var u, v := agent.path[agent.currentStep], agent.path[agent.currentStep + 1];
      && LightPermits(edges, u, v, tick)
      && EdgeKey(u, v, 0) in edges && "capacity" !in edges[EdgeKey(u, v, 0)]
      && Get(occupancy, (u, v), 0.0) <= 5.0
    ensures ValidateMovement(agent, edges, occupancy, tick, refuseDraw)
  {
  }
}
