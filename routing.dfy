/** Turning routing tasks into agents: the per-task path worker and the
    filtering of failed tasks before the tick loop. */
module Routing {
  import opened Graph
  import opened Agents

  /** Which of the two graphs a task is routed on. */
  datatype Network = Drive | Walk

  /** One origin/destination request; `weightType` names the edge attribute
      the path library minimises ("weight" for vehicles, "length" for
      pedestrians). */
  datatype RoutingTask = RoutingTask(network: Network, agentId: string, origin: Node, target: Node,
                                     weightType: string, kind: Kind)

  /** A successful worker result: the node path and its coordinates. */
  datatype RouteResult = RouteResult(id: string, path: seq<Node>, coords: seq<Coord>, kind: Kind)

  ghost predicate ParallelCoords(r: RouteResult)
  {
    |r.coords| == |r.path|
  }

  /** The path worker. `route` is what the path library yields for the task:
      None when no path exists or the library raised. A node without
      coordinates raises too, and any exception degrades to None. */
  function ComputePathWorker(task: RoutingTask, route: Option<seq<Node>>, coordOf: map<Node, Coord>)
    : (r: Option<RouteResult>)
    ensures r.Some? <==> route.Some? && route.value != [] && forall n :: n in route.value ==> n in coordOf
    ensures r.Some? ==>
      && r.value.id == task.agentId && r.value.kind == task.kind && r.value.path == route.value
      && ParallelCoords(r.value)
      && forall i :: 0 <= i < |r.value.path| ==>
           r.value.path[i] in coordOf && r.value.coords[i] == coordOf[r.value.path[i]]
  {
    match route
    case None => None
    case Some(path) =>
      if path != [] && forall n :: n in path ==> n in coordOf then
        Some(RouteResult(task.agentId, path, seq(|path|, i requires 0 <= i < |path| => coordOf[path[i]]), task.kind))
      else None
  }

  /** The worker applied to every task (the pool's order-preserving map),
      each on the coordinates of its own graph. */
  function RouteAll(tasks: seq<RoutingTask>, routes: seq<Option<seq<Node>>>,
                    driveCoords: map<Node, Coord>, walkCoords: map<Node, Coord>)
    : (r: seq<Option<RouteResult>>)
    requires |routes| == |tasks|
    ensures |r| == |tasks|
    ensures forall k :: 0 <= k < |r| && r[k].Some? ==> ParallelCoords(r[k].value) && r[k].value.id == tasks[k].agentId
  {
    seq(|tasks|, k requires 0 <= k < |tasks| =>
      ComputePathWorker(tasks[k], routes[k], if tasks[k].network == Drive then driveCoords else walkCoords))
  }

  /** The results that are not None, in order. */
  function Survivors(results: seq<Option<RouteResult>>): (r: seq<RouteResult>)
    decreases |results|
  {
    if |results| == 0 then []
    else (if results[0].Some? then [results[0].value] else []) + Survivors(results[1..])
  }

  /** Exactly the successful results survive, and no more of them than tasks. */
  lemma {:induction false} SurvivorsSpec(results: seq<Option<RouteResult>>)
    ensures |Survivors(results)| <= |results|
    ensures forall x :: x in Survivors(results) <==> Some(x) in results
    ensures (forall k :: 0 <= k < |results| ==> results[k].None?) <==> Survivors(results) == []
    decreases |results|
  {
    if |results| > 0 {
      SurvivorsSpec(results[1..]);
      assert results == [results[0]] + results[1..];
      if results[0].None? {
        assert (forall k :: 0 <= k < |results| ==> results[k].None?)
           <==> (forall k :: 0 <= k < |results[1..]| ==> results[1..][k].None?);
      }
    }
  }

  /** Distinct task ids give agents with distinct ids. */
  lemma {:induction false} SurvivorIdsDistinct(results: seq<Option<RouteResult>>)
    requires forall j, k :: 0 <= j < k < |results| && results[j].Some? && results[k].Some? ==>
      results[j].value.id != results[k].value.id
    ensures forall j, k :: 0 <= j < k < |Survivors(results)| ==>
      Survivors(results)[j].id != Survivors(results)[k].id
    decreases |results|
  {
    if |results| > 0 {
      var rest := results[1..];
      SurvivorIdsDistinct(rest);
      SurvivorsSpec(rest);
      if results[0].Some? {
        forall x | x in Survivors(rest)
          ensures x.id != results[0].value.id
        {
          var k :| 0 <= k < |rest| && rest[k] == Some(x);
          assert results[k + 1] == Some(x);
        }
        var s := Survivors(results);
        assert s == [results[0].value] + Survivors(rest);
        forall j, k | 0 <= j < k < |s|
          ensures s[j].id != s[k].id
        {
          if j == 0 {
            assert s[k] in Survivors(rest);
          } else {
            assert s[j] == Survivors(rest)[j - 1] && s[k] == Survivors(rest)[k - 1];
          }
        }
      }
    }
  }

  /** The agents the tick loop starts from. */
  function InitialStates(results: seq<Option<RouteResult>>): (r: seq<AgentState>)
    ensures |r| == |Survivors(results)|
    ensures forall k :: 0 <= k < |r| ==> r[k].id == Survivors(results)[k].id
  {
    var s := Survivors(results);
    seq(|s|, k requires 0 <= k < |s| => Init(s[k].id, s[k].path, s[k].coords, s[k].kind))
  }

  /** A task whose worker yields no result (no route, a failed path search,
      or a path node without coordinates) yields no agent: no initial agent
      carries its id. */
  lemma {:induction false} UnroutedTaskHasNoAgent(tasks: seq<RoutingTask>, routes: seq<Option<seq<Node>>>,
                                                  driveCoords: map<Node, Coord>, walkCoords: map<Node, Coord>, k: nat)
    requires |routes| == |tasks| && k < |tasks| && RouteAll(tasks, routes, driveCoords, walkCoords)[k].None?
    requires forall i, j :: 0 <= i < j < |tasks| ==> tasks[i].agentId != tasks[j].agentId
    ensures forall s :: s in InitialStates(RouteAll(tasks, routes, driveCoords, walkCoords)) ==>
      s.id != tasks[k].agentId
  {
    var results := RouteAll(tasks, routes, driveCoords, walkCoords);
    SurvivorsSpec(results);
    forall s | s in InitialStates(results)
      ensures s.id != tasks[k].agentId
    {
      var i :| 0 <= i < |InitialStates(results)| && InitialStates(results)[i] == s;
      var x := Survivors(results)[i];
      assert x in Survivors(results);
      var j :| 0 <= j < |results| && results[j] == Some(x);
      assert j != k;
    }
  }

  /** A task whose origin equals its destination, for which the path library
      yields the one-node path [origin], gives an agent that exists but is
      inactive from the start. */
  lemma DegenerateRouteInactive(task: RoutingTask, coordOf: map<Node, Coord>)
    requires task.target == task.origin && task.origin in coordOf
    ensures var r := ComputePathWorker(task, Some([task.origin]), coordOf);
      && r.Some?
      && !Init(r.value.id, r.value.path, r.value.coords, r.value.kind).active
  {
  }

  /** Build one agent object per successful result. */
  method BuildAgents(results: seq<Option<RouteResult>>) returns (allAgents: seq<Agent>)
    requires forall r :: Some(r) in results ==> ParallelCoords(r)
    ensures forall a :: a in allAgents ==> fresh(a) && a.Valid()
    ensures Distinct(allAgents)
    ensures Snapshot(allAgents) == InitialStates(results)
  {
    SurvivorsSpec(results);
    var survivors := Survivors(results);
    allAgents := [];
    for k := 0 to |survivors|
      invariant |allAgents| == k
      invariant forall a :: a in allAgents ==> fresh(a) && a.Valid()
      invariant Distinct(allAgents)
      invariant forall i :: 0 <= i < k ==> allAgents[i].State() == InitialStates(results)[i]
    {
      var r := survivors[k];
      assert r in survivors;
      var agent := new Agent(r.id, r.path, r.coords, r.kind);
      DistinctSnoc(allAgents, agent);
      allAgents := allAgents + [agent];
    }
  }
}
