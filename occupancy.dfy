/** The occupancy snapshot: load per directed edge, in passenger-car
    equivalents, of the agents about to traverse it. */
module Occupancy {
  import opened Graph
  import opened Agents

  /** The edge an agent is about to traverse, if it is active and has one. */
  function NextEdge(s: AgentState): Option<Edge>
  {
    if s.active && s.currentStep < |s.path| - 1 then
      Some((s.path[s.currentStep], s.path[s.currentStep + 1]))
    else None
  }

  /** Passenger-car equivalent: a heavy vehicle counts three, any other agent
      (pedestrians included) counts one. */
  function Pce(s: AgentState): real
  {
    if s.IsHeavy() then 3.0 else 1.0
  }

  /** The occupancy table the fold over the agents builds, agent by agent. */
  function EdgeOccupancy(agents: seq<AgentState>): map<Edge, real>
    decreases |agents|
  {
    if |agents| == 0 then map[]
    else
      var m := EdgeOccupancy(agents[..|agents| - 1]);
      var a := agents[|agents| - 1];
      match NextEdge(a)
      case None => m
      case Some(e) => m[e := Get(m, e, 0.0) + Pce(a)]
  }

  /** How many of the agents are about to traverse `e` and are (or are not) heavy. */
  function CountOn(agents: seq<AgentState>, e: Edge, heavy: bool): nat
    decreases |agents|
  {
    if |agents| == 0 then 0
    else
      var a := agents[0];
      (if NextEdge(a) == Some(e) && a.IsHeavy() == heavy then 1 else 0)
        + CountOn(agents[1..], e, heavy)
  }

  lemma {:induction false} CountOnSnoc(agents: seq<AgentState>, e: Edge, heavy: bool)
    requires |agents| > 0
    ensures var a := agents[|agents| - 1];
      CountOn(agents, e, heavy) == CountOn(agents[..|agents| - 1], e, heavy)
        + (if NextEdge(a) == Some(e) && a.IsHeavy() == heavy then 1 else 0)
    decreases |agents|
  {
    if |agents| > 1 {
      CountOnSnoc(agents[1..], e, heavy);
      assert agents[1..][..|agents[1..]| - 1] == agents[..|agents| - 1][1..];
    }
  }

  lemma {:induction false} CountOnPositive(agents: seq<AgentState>, e: Edge)
    ensures CountOn(agents, e, true) + CountOn(agents, e, false) > 0
        <==> exists k :: 0 <= k < |agents| && NextEdge(agents[k]) == Some(e)
    decreases |agents|
  {
    if |agents| > 0 {
      CountOnPositive(agents[1..], e);
      if NextEdge(agents[0]) != Some(e) {
        forall k | 0 <= k < |agents| && NextEdge(agents[k]) == Some(e)
          ensures 0 <= k - 1 < |agents[1..]| && NextEdge(agents[1..][k - 1]) == Some(e)
        {
        }
      } else {
        assert NextEdge(agents[0]) == Some(e);
      }
      forall k | 0 <= k < |agents[1..]| && NextEdge(agents[1..][k]) == Some(e)
        ensures NextEdge(agents[k + 1]) == Some(e)
      {
      }
    }
  }

  /** The table holds exactly the edges some agent is about to traverse, and
      each holds three per heavy vehicle plus one per other agent on it;
      inactive agents and agents at their last node contribute nothing. */
  lemma {:induction false} EdgeOccupancyLoad(agents: seq<AgentState>, e: Edge)
    ensures e in EdgeOccupancy(agents) <==> exists k :: 0 <= k < |agents| && NextEdge(agents[k]) == Some(e)
    ensures Get(EdgeOccupancy(agents), e, 0.0)
         == 3.0 * CountOn(agents, e, true) as real + CountOn(agents, e, false) as real
    decreases |agents|
  {
    CountOnPositive(agents, e);
    if |agents| > 0 {
      var init := agents[..|agents| - 1];
      EdgeOccupancyLoad(init, e);
      CountOnSnoc(agents, e, true);
      CountOnSnoc(agents, e, false);
      CountOnPositive(init, e);
    }
  }

  /** The load test: a truck and a car both about to traverse (1, 2) give 4.0. */
  lemma TruckPlusCarLoad()
    ensures var truck := Init("T1", [1, 2], [Coord(0.0, 0.0), Coord(0.0, 0.0)], HeavyVehicle);
      var car := Init("C1", [1, 2], [Coord(0.0, 0.0), Coord(0.0, 0.0)], Vehicle);
      EdgeOccupancy([truck, car]) == map[(1, 2) := 4.0]
  {
    var truck := Init("T1", [1, 2], [Coord(0.0, 0.0), Coord(0.0, 0.0)], HeavyVehicle);
    var car := Init("C1", [1, 2], [Coord(0.0, 0.0), Coord(0.0, 0.0)], Vehicle);
    assert [truck, car][..1] == [truck];
    assert [truck][..0] == [];
    assert NextEdge(truck) == Some((1, 2)) && NextEdge(car) == Some((1, 2));
    assert EdgeOccupancy([truck]) == map[(1, 2) := 3.0];
  }

  /** The loop that builds the occupancy dictionary. */
  method GetEdgeOccupancy(allAgents: seq<Agent>) returns (occupancy: map<Edge, real>)
    requires forall a :: a in allAgents ==> a.Valid()
    ensures occupancy == EdgeOccupancy(Snapshot(allAgents))
  {
    occupancy := map[];
    var i := 0;
    while i < |allAgents|
      invariant 0 <= i <= |allAgents|
      invariant occupancy == EdgeOccupancy(Snapshot(allAgents)[..i])
    {
      var agent := allAgents[i];
      ghost var snap := Snapshot(allAgents);
      assert snap[..i + 1][..i] == snap[..i] && snap[..i + 1][i] == agent.State();
      assert agent.isHeavy == agent.State().IsHeavy() by {
        assert agent.Valid();
      }
      if agent.active && agent.currentStep < |agent.path| - 1 {
        var u, v := agent.path[agent.currentStep], agent.path[agent.currentStep + 1];
        var weight := if agent.isHeavy then 3.0 else 1.0;
        occupancy := occupancy[(u, v) := Get(occupancy, (u, v), 0.0) + weight];
      }
      i := i + 1;
    }
    assert Snapshot(allAgents)[..i] == Snapshot(allAgents);
  }
}
