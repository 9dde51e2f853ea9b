/** The main runner once the two graphs are loaded and the routing tasks are
    drawn: barriers and preprocessing on the graphs, the routing pool, the
    agents built from the successful routes, and the tick loop. */
module Runner {
  import opened Graph
  import opened Agents
  import opened Preprocessing
  import opened Routing
  import opened Simulation

  /** The initial agent values the runner builds from the routing pool. */
  function Population(tasks: seq<RoutingTask>, routes: seq<Option<seq<Node>>>,
                      driveCoords: map<Node, Coord>, walkCoords: map<Node, Coord>): seq<AgentState>
    requires |routes| == |tasks|
  {
    InitialStates(RouteAll(tasks, routes, driveCoords, walkCoords))
  }

  /** Tasks with distinct ids (the runner names them "v_i" and "p_j") give a
      population with distinct ids, so the run's records never repeat a
      (tick, agent) pair. */
  lemma TaskIdsGiveUniqueRecords(tasks: seq<RoutingTask>, routes: seq<Option<seq<Node>>>,
                                 driveCoords: map<Node, Coord>, walkCoords: map<Node, Coord>,
                                 edges: map<EdgeKey, EdgeData>, refuse: Draws, n: nat)
    requires |routes| == |tasks|
    requires forall i, j :: 0 <= i < j < |tasks| ==> tasks[i].agentId != tasks[j].agentId
    ensures UniqueLog(RunRecords(Population(tasks, routes, driveCoords, walkCoords), edges, refuse, n))
  {
    var results := RouteAll(tasks, routes, driveCoords, walkCoords);
    SurvivorIdsDistinct(results);
    RecordsUnique(InitialStates(results), edges, refuse, n);
  }

  /** A task whose worker yields no result (no route, a failed path search,
      or a path node without coordinates) never appears in the records of
      the run. */
  lemma UnroutedNeverRecorded(tasks: seq<RoutingTask>, routes: seq<Option<seq<Node>>>,
                              driveCoords: map<Node, Coord>, walkCoords: map<Node, Coord>,
                              edges: map<EdgeKey, EdgeData>, refuse: Draws, n: nat, k: nat)
    requires |routes| == |tasks| && k < |tasks| && RouteAll(tasks, routes, driveCoords, walkCoords)[k].None?
    requires forall i, j :: 0 <= i < j < |tasks| ==> tasks[i].agentId != tasks[j].agentId
    ensures forall r :: r in RunRecords(Population(tasks, routes, driveCoords, walkCoords), edges, refuse, n) ==>
      r.agentId != tasks[k].agentId
  {
    var init := Population(tasks, routes, driveCoords, walkCoords);
    UnroutedTaskHasNoAgent(tasks, routes, driveCoords, walkCoords, k);
    var history := (t: nat) => RunAgents(init, edges, refuse, t);
    forall t, j | 0 < t <= n && 0 <= j < |history(t)|
      ensures history(t)[j].id != tasks[k].agentId
    {
      RunKeepsIds(init, edges, refuse, t);
      assert init[j] in init;
    }
    LogOmits(history, 0, n, tasks[k].agentId);
  }

  /** The runner: barriers on the drive graph, the capacity pass on both
      graphs, one agent per successful route, then `duration` ticks on the
      drive graph. The routes stand for what the path library returns for
      each task on the barred, preprocessed graph. */
  method RunSimulation(gDrive: RoadGraph, gWalk: RoadGraph, barriers: seq<Node>, timeOfDay: string,
                       centralDrive: set<Node>, centralWalk: set<Node>,
                       tasks: seq<RoutingTask>, routes: seq<Option<seq<Node>>>,
                       driveCoords: map<Node, Coord>, walkCoords: map<Node, Coord>,
                       duration: int, refuse: Draws)
    returns (simulationData: seq<Record>)
    requires gDrive != gWalk
    requires |routes| == |tasks|
    modifies gDrive, gWalk
    ensures gDrive.edges == WithCapacities(Barred(old(gDrive.edges), barriers))
    ensures gWalk.edges == WithCapacities(old(gWalk.edges))
    ensures simulationData == RunRecords(Population(tasks, routes, driveCoords, walkCoords), gDrive.edges,
                                         refuse, if duration < 0 then 0 else duration)
  {
    if |barriers| > 0 {
      ApplyBarriers(gDrive, barriers);
    } else {
      BarredSpec(gDrive.edges, barriers);
    }
    var nodesD, weightsD := PreProcessing(gDrive, timeOfDay, centralDrive);
    var nodesW, weightsW := PreProcessing(gWalk, timeOfDay, centralWalk);
    var results := RouteAll(tasks, routes, driveCoords, walkCoords);
    forall r | Some(r) in results
      ensures ParallelCoords(r)
    {
      var k :| 0 <= k < |results| && results[k] == Some(r);
    }
    var allAgents := BuildAgents(results);
    simulationData := RunTicks(allAgents, gDrive.edges, duration, refuse);
  }
}
