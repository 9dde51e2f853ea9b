/** An agent walking a fixed node path one index at a time. */
module Agents {
  import opened Graph

  /** The three agent kinds (the source's type tag strings). */
  datatype Kind = Vehicle | HeavyVehicle | Pedestrian

  /** A resolved (lat, lon) coordinate of a path node. */
  datatype Coord = Coord(lat: real, lon: real)

  /** The value of an agent object: its immutable route and its mutable cursor. */
  datatype AgentState = AgentState(
    id: string,
    kind: Kind,
    path: seq<Node>,
    pathCoords: seq<Coord>,
    active: bool,
    currentStep: nat,
    currentNode: Option<Node>,
    stuckTicks: nat,
    ticksAlive: nat)
  {
    predicate IsHeavy() { kind == HeavyVehicle }
  }

  /** The agent invariant: the cursor never passes the last path index, an
      active agent still has an edge ahead of it, and once the agent has moved
      (or while it is active) `currentNode` is the node under the cursor. */
  ghost predicate WellFormed(s: AgentState)
  {
    && |s.pathCoords| == |s.path|
    && (s.currentStep == 0 || s.currentStep < |s.path|)
    && (s.active ==> s.currentStep < |s.path| - 1)
    && ((s.active || s.currentStep > 0) ==> s.currentNode == Some(s.path[s.currentStep]))
  }

  /** A freshly created agent. */
  function Init(id: string, path: seq<Node>, pathCoords: seq<Coord>, kind: Kind): (s: AgentState)
    ensures s.active <==> |path| > 1
    ensures s.currentStep == 0 && s.stuckTicks == 0 && s.ticksAlive == 0
    ensures s.currentNode == (if |path| > 1 then Some(path[0]) else None)
    ensures s.id == id && s.kind == kind && s.path == path && s.pathCoords == pathCoords
    ensures |pathCoords| == |path| ==> WellFormed(s)
  {
    var active := |path| > 1;
    AgentState(id, kind, path, pathCoords, active, 0,
               if active then Some(path[0]) else None, 0, 0)
  }

  /** One call of the agent's step. */
  function Stepped(s: AgentState): (r: AgentState)
  {
    if !s.active then s
    else if s.currentStep < |s.path| - 1 then
      var next := s.currentStep + 1;
      s.(currentStep := next, currentNode := Some(s.path[next]),
         active := next != |s.path| - 1)
    else s.(active := false)
  }

  /** What a step does to a well-formed agent: nothing when inactive;
      otherwise the cursor moves exactly one index, the current node follows
      it, and the agent deactivates exactly on reaching the last index. */
  lemma StepSpec(s: AgentState)
    requires WellFormed(s)
    ensures WellFormed(Stepped(s))
    ensures !s.active ==> Stepped(s) == s
    ensures s.active ==>
      && Stepped(s).currentStep == s.currentStep + 1
      && Stepped(s).currentNode == Some(s.path[Stepped(s).currentStep])
      && (Stepped(s).active <==> Stepped(s).currentStep < |s.path| - 1)
    ensures Stepped(s).id == s.id && Stepped(s).kind == s.kind && Stepped(s).path == s.path
    ensures Stepped(s).pathCoords == s.pathCoords && Stepped(s).stuckTicks == s.stuckTicks
    ensures Stepped(s).ticksAlive == s.ticksAlive
  {
  }

  /** `n` consecutive steps. */
  function Steps(s: AgentState, n: nat): AgentState
    decreases n
  {
    if n == 0 then s else Steps(Stepped(s), n - 1)
  }

  /** A well-formed active agent stepped the remaining number of times ends
      inactive on the last node of its path, and never overshoots. */
  lemma {:induction false} StepsReachEnd(s: AgentState)
    requires WellFormed(s) && s.active
    ensures var r := Steps(s, |s.path| - 1 - s.currentStep);
      && !r.active
      && r.currentStep == |s.path| - 1
      && r.currentNode == Some(s.path[|s.path| - 1])
    decreases |s.path| - s.currentStep
  {
    StepSpec(s);
    var t := Stepped(s);
    if t.active {
      StepsReachEnd(t);
    }
  }

  /** An agent object; `path`, `pathCoords` and the kind never change. */
  class Agent {
    const id: string
    const path: seq<Node>
    const pathCoords: seq<Coord>
    const kind: Kind
    const isHeavy: bool
    var active: bool
    var currentStep: nat
    var currentNode: Option<Node>
    var stuckTicks: nat
    var ticksAlive: nat

    /** The value this object currently holds. */
    function State(): AgentState
      reads this
    {
      AgentState(id, kind, path, pathCoords, active, currentStep, currentNode, stuckTicks, ticksAlive)
    }

    ghost predicate Valid()
      reads this
    {
      isHeavy == (kind == HeavyVehicle) && WellFormed(State())
    }

    constructor (agentId: string, path: seq<Node>, pathCoords: seq<Coord>, kind: Kind)
      requires |pathCoords| == |path|
      ensures Valid()
      ensures State() == Init(agentId, path, pathCoords, kind)
    {
      this.id := agentId;
      this.path := path;
      this.pathCoords := pathCoords;
      this.kind := kind;
      this.active := |path| > 1;
      this.currentStep := 0;
      this.currentNode := if |path| > 1 then Some(path[0]) else None;
      this.stuckTicks := 0;
      this.ticksAlive := 0;
      this.isHeavy := kind == HeavyVehicle;
    }

    method Step()
      modifies this
      ensures old(Valid()) ==> Valid()
      ensures State() == Stepped(old(State()))
    {
      if !active {
        return;
      }
      if currentStep < |path| - 1 {
        currentStep := currentStep + 1;
        currentNode := Some(path[currentStep]);
        if currentStep == |path| - 1 {
          active := false;
        }
      } else {
        active := false;
      }
      if old(Valid()) {
        StepSpec(old(State()));
      }
    }
  }

  /** The values of a sequence of agent objects. */
  function Snapshot(agents: seq<Agent>): seq<AgentState>
    reads set a | a in agents
  {
    seq(|agents|, k reads agents => if 0 <= k < |agents| then agents[k].State() else Init("", [], [], Vehicle))
  }

  /** No agent object occurs twice in the population. */
  ghost predicate Distinct(agents: seq<Agent>)
    decreases |agents|
  {
    |agents| == 0 || (agents[0] !in agents[1..] && Distinct(agents[1..]))
  }

  /** Distinct populations are exactly those whose positions hold pairwise
      different objects. */
  lemma {:induction false} DistinctPairwise(agents: seq<Agent>)
    ensures Distinct(agents) <==> forall j, k :: 0 <= j < k < |agents| ==> agents[j] != agents[k]
    decreases |agents|
  {
    if |agents| > 0 {
      var rest := agents[1..];
      DistinctPairwise(rest);
      if Distinct(agents) {
        forall j, k | 0 <= j < k < |agents|
          ensures agents[j] != agents[k]
        {
          if j == 0 {
            assert agents[k] == rest[k - 1];
          } else {
            assert agents[j] == rest[j - 1] && agents[k] == rest[k - 1];
          }
        }
      }
      if forall j, k :: 0 <= j < k < |agents| ==> agents[j] != agents[k] {
        forall j, k | 0 <= j < k < |rest|
          ensures rest[j] != rest[k]
        {
          assert rest[j] == agents[j + 1] && rest[k] == agents[k + 1];
        }
        forall k | 0 <= k < |rest|
          ensures rest[k] != agents[0]
        {
          assert rest[k] == agents[k + 1];
        }
      }
    }
  }

  /** Appending an object not yet present keeps a population distinct. */
  lemma {:induction false} DistinctSnoc(agents: seq<Agent>, a: Agent)
    requires Distinct(agents) && a !in agents
    ensures Distinct(agents + [a])
    decreases |agents|
  {
    if |agents| > 0 {
      DistinctSnoc(agents[1..], a);
      assert (agents + [a])[1..] == agents[1..] + [a];
    }
  }
}
