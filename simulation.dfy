/** The discrete-time simulation loop: occupancy refreshed every fifth tick,
    each active agent validated and stepped in turn, and a trajectory record
    taken on every fifth tick. */
module Simulation {
  import opened Graph
  import opened Agents
  import opened Occupancy
  import opened Movement

  /** One trajectory sample. */
  datatype Record = Record(tick: nat, agentId: string, lat: real, lon: real, kind: Kind)

  /** The random draw oracle: `refuse(tick, j)` stands for the draw made when
      the j-th agent is validated at `tick` falling below 0.7. */
  type Draws = (nat, nat) -> bool

  /** Occupancy is recomputed on ticks divisible by this and reused between. */
  const RefreshPeriod := 5

  /** Records are taken on tick 0 and on ticks divisible by this. */
  const SamplePeriod := 5

  /** What one tick does to one agent. */
  function Advance(s: AgentState, edges: map<EdgeKey, EdgeData>, occupancy: map<Edge, real>,
                   tick: nat, refuseDraw: bool): AgentState
  {
    if !s.active then s
    else if ValidateMovement(s, edges, occupancy, tick, refuseDraw) then
      var once := Stepped(s);
      if s.kind != Pedestrian && once.active then Stepped(once) else once
    else s.(stuckTicks := s.stuckTicks + 1)
  }

  /** The record an agent leaves after its turn in `tick`: one when it is
      still active and the tick is sampled, none otherwise. */
  function Sample(s: AgentState, tick: nat): seq<Record>
  {
    if s.active && (tick == 0 || tick % SamplePeriod == 0) && s.currentStep < |s.pathCoords| then
      var c := s.pathCoords[s.currentStep];
      [Record(tick, s.id, c.lat, c.lon, s.kind)]
    else []
  }

  /** All agents after their turn in `tick`, against one occupancy snapshot. */
  function TickAgents(agents: seq<AgentState>, edges: map<EdgeKey, EdgeData>, occupancy: map<Edge, real>,
                      tick: nat, refuse: Draws): seq<AgentState>
  {
    seq(|agents|, j requires 0 <= j < |agents| => Advance(agents[j], edges, occupancy, tick, refuse(tick, j)))
  }

  /** The records of one tick, in agent order. */
  function TickRecords(after: seq<AgentState>, tick: nat): seq<Record>
    decreases |after|
  {
    if |after| == 0 then []
    else TickRecords(after[..|after| - 1], tick) + Sample(after[|after| - 1], tick)
  }

  /** Appending one tick's records keeps the log ordered. */
  lemma TickExtendsLog(prev: seq<Record>, after: seq<AgentState>, t: nat)
    requires OrderedLog(prev, t)
    ensures OrderedLog(prev + TickRecords(after, t), t + 1)
  {
    TickRecordsSpec(after, t);
    AppendTick(prev, TickRecords(after, t), t);
  }

  /** Appending one tick's records of agents with distinct ids keeps the log
      free of repeated (tick, agent id) pairs. */
  lemma TickExtendsUniqueLog(prev: seq<Record>, after: seq<AgentState>, t: nat)
    requires OrderedLog(prev, t) && UniqueLog(prev)
    requires forall j, k :: 0 <= j < k < |after| ==> after[j].id != after[k].id
    ensures UniqueLog(prev + TickRecords(after, t))
  {
    TickRecordsSpec(after, t);
    TickRecordsDistinct(after, t);
    AppendTickUnique(prev, TickRecords(after, t), t);
  }

  // ---------------------------------------------------------------------
  // The run, one field of the loop's state at a time

  /** The agents after the first `n` ticks. */
  function RunAgents(init: seq<AgentState>, edges: map<EdgeKey, EdgeData>, refuse: Draws, n: nat)
    : (r: seq<AgentState>)
    ensures |r| == |init|
    decreases n, 1
  {
    if n == 0 then init
    else TickAgents(RunAgents(init, edges, refuse, n - 1), edges, RunOccupancy(init, edges, refuse, n), n - 1, refuse)
  }

  /** The snapshot tick n - 1 validated against (empty before the first
      tick): recomputed from the agents as they stood at the start of a tick
      divisible by five, the previous one otherwise. */
  function RunOccupancy(init: seq<AgentState>, edges: map<EdgeKey, EdgeData>, refuse: Draws, n: nat)
    : map<Edge, real>
    decreases n, 0
  {
    if n == 0 then map[]
    else if (n - 1) % RefreshPeriod == 0 then EdgeOccupancy(RunAgents(init, edges, refuse, n - 1))
    else RunOccupancy(init, edges, refuse, n - 1)
  }

  /** The records of the first `n` ticks of a history, where `history(t)`
      is the population after its turns in tick t - 1. */
  function Log(history: nat -> seq<AgentState>, n: nat): seq<Record>
    decreases n
  {
    if n == 0 then [] else Log(history, n - 1) + TickRecords(history(n), n - 1)
  }

  /** The records of the first `n` ticks of the run. */
  function RunRecords(init: seq<AgentState>, edges: map<EdgeKey, EdgeData>, refuse: Draws, n: nat)
    : seq<Record>
  {
    Log((t: nat) => RunAgents(init, edges, refuse, t), n)
  }

  /** Tick n appends the records of the agents after their turns in it. */
  lemma RunRecordsStep(init: seq<AgentState>, edges: map<EdgeKey, EdgeData>, refuse: Draws, n: nat)
    ensures RunRecords(init, edges, refuse, n + 1)
         == RunRecords(init, edges, refuse, n) + TickRecords(RunAgents(init, edges, refuse, n + 1), n)
  {
  }

  // ---------------------------------------------------------------------
  // One agent in one tick

  /** An agent's turn: an inactive agent is untouched; an active one either
      moves (at least one index, at most one for a pedestrian and two for any
      other kind, never past its last index) or is refused, stays where it is,
      stays active and has its stuck counter raised by exactly one; nothing
      else of the agent changes and `ticksAlive` is never touched. */
  lemma AdvanceSpec(s: AgentState, edges: map<EdgeKey, EdgeData>, occupancy: map<Edge, real>,
                    tick: nat, refuseDraw: bool)
    requires WellFormed(s)
    ensures var r := Advance(s, edges, occupancy, tick, refuseDraw);
      var ok := ValidateMovement(s, edges, occupancy, tick, refuseDraw);
      && WellFormed(r)
      && (!s.active ==> r == s)
      && (s.active && ok ==>
            && s.currentStep < r.currentStep <= s.currentStep + (if s.kind == Pedestrian then 1 else 2)
            && r.stuckTicks == s.stuckTicks)
      && (s.active && !ok ==>
            r == s.(stuckTicks := s.stuckTicks + 1))
      && r.id == s.id && r.kind == s.kind && r.path == s.path && r.pathCoords == s.pathCoords
      && r.ticksAlive == s.ticksAlive
      && s.currentStep <= r.currentStep
  {
    if s.active && ValidateMovement(s, edges, occupancy, tick, refuseDraw) {
      StepSpec(s);
      StepSpec(Stepped(s));
    }
  }

  /** A vehicle or heavy vehicle allowed to move with at least two edges left
      moves exactly two indices; a pedestrian always moves exactly one. */
  lemma AdvanceDistance(s: AgentState, edges: map<EdgeKey, EdgeData>, occupancy: map<Edge, real>,
                        tick: nat, refuseDraw: bool)
    requires WellFormed(s) && s.active
    ensures s.kind == Pedestrian ==>
      Advance(s, edges, occupancy, tick, refuseDraw).currentStep == s.currentStep + 1
    ensures s.kind != Pedestrian && ValidateMovement(s, edges, occupancy, tick, refuseDraw)
            && s.currentStep + 2 < |s.path| ==>
      Advance(s, edges, occupancy, tick, refuseDraw).currentStep == s.currentStep + 2
  {
    StepSpec(s);
    StepSpec(Stepped(s));
  }

  // ---------------------------------------------------------------------
  // Records of one tick

  /** A well-formed agent leaves a record exactly when it is active on a tick
      divisible by five, and the record carries the tick, its id, its kind and
      the coordinate under its cursor. */
  lemma SampleSpec(s: AgentState, tick: nat)
    requires WellFormed(s)
    ensures |Sample(s, tick)| <= 1
    ensures |Sample(s, tick)| == 1 <==> s.active && tick % SamplePeriod == 0
    ensures forall r :: r in Sample(s, tick) ==>
      && r.tick == tick && r.agentId == s.id && r.kind == s.kind
      && r.lat == s.pathCoords[s.currentStep].lat && r.lon == s.pathCoords[s.currentStep].lon
  {
  }

  /** Every record of a tick carries that tick, the tick is divisible by five,
      and the record is the sample of one of the agents. */
  lemma {:induction false} TickRecordsSpec(after: seq<AgentState>, tick: nat)
    ensures forall r :: r in TickRecords(after, tick) ==>
      && r.tick == tick && tick % SamplePeriod == 0
      && exists k :: 0 <= k < |after| && r in Sample(after[k], tick)
    decreases |after|
  {
    if |after| > 0 {
      var init := after[..|after| - 1];
      TickRecordsSpec(init, tick);
      forall r | r in TickRecords(init, tick)
        ensures exists k :: 0 <= k < |after| && r in Sample(after[k], tick)
      {
        var k :| 0 <= k < |init| && r in Sample(init[k], tick);
        assert init[k] == after[k];
      }
    }
  }

  /** Within one tick, no agent id is recorded twice when the ids are distinct. */
  lemma {:induction false} TickRecordsDistinct(after: seq<AgentState>, tick: nat)
    requires forall j, k :: 0 <= j < k < |after| ==> after[j].id != after[k].id
    ensures forall a, b :: 0 <= a < b < |TickRecords(after, tick)| ==>
      TickRecords(after, tick)[a].agentId != TickRecords(after, tick)[b].agentId
    decreases |after|
  {
    if |after| > 0 {
      var n := |after| - 1;
      var init := after[..n];
      TickRecordsDistinct(init, tick);
      TickRecordsSpec(init, tick);
      var rs := TickRecords(after, tick);
      var prev := TickRecords(init, tick);
      forall a, b | 0 <= a < b < |rs|
        ensures rs[a].agentId != rs[b].agentId
      {
        if b >= |prev| {
          assert rs[b] == Sample(after[n], tick)[b - |prev|];
          assert rs[b].agentId == after[n].id;
          assert rs[a] == prev[a];
          assert rs[a] in prev;
          var k :| 0 <= k < |init| && rs[a] in Sample(init[k], tick);
          assert init[k] == after[k];
        } else {
          assert rs[a] == prev[a] && rs[b] == prev[b];
        }
      }
    }
  }

  // ---------------------------------------------------------------------
  // Appending the records of one tick to the earlier ones

  /** Records all taken on ticks divisible by five before `t`, in
      non-decreasing tick order, with no (tick, agent id) pair twice. */
  ghost predicate OrderedLog(rs: seq<Record>, t: nat)
  {
    && (forall a :: 0 <= a < |rs| ==> rs[a].tick < t && rs[a].tick % SamplePeriod == 0)
    && (forall a, b :: 0 <= a < b < |rs| ==> rs[a].tick <= rs[b].tick)
  }

  ghost predicate UniqueLog(rs: seq<Record>)
  {
    forall a, b :: 0 <= a < b < |rs| ==> rs[a].tick != rs[b].tick || rs[a].agentId != rs[b].agentId
  }

  lemma AppendTick(prev: seq<Record>, latest: seq<Record>, t: nat)
    requires OrderedLog(prev, t)
    requires forall r :: r in latest ==> r.tick == t && t % SamplePeriod == 0
    ensures OrderedLog(prev + latest, t + 1)
  {
    var rs := prev + latest;
    forall a | 0 <= a < |rs|
      ensures rs[a].tick < t + 1 && rs[a].tick % SamplePeriod == 0
    {
      if a >= |prev| {
        assert rs[a] in latest;
      }
    }
    forall a, b | 0 <= a < b < |rs|
      ensures rs[a].tick <= rs[b].tick
    {
      if b >= |prev| {
        assert rs[b] in latest;
        if a >= |prev| {
          assert rs[a] in latest;
        }
      }
    }
  }

  lemma AppendTickUnique(prev: seq<Record>, latest: seq<Record>, t: nat)
    requires UniqueLog(prev) && OrderedLog(prev, t)
    requires forall r :: r in latest ==> r.tick == t
    requires forall a, b :: 0 <= a < b < |latest| ==> latest[a].agentId != latest[b].agentId
    ensures UniqueLog(prev + latest)
  {
    var rs := prev + latest;
    forall a, b | 0 <= a < b < |rs|
      ensures rs[a].tick != rs[b].tick || rs[a].agentId != rs[b].agentId
    {
      if b >= |prev| {
        assert rs[b] == latest[b - |prev|];
        assert rs[b] in latest;
        if a >= |prev| {
          assert rs[a] == latest[a - |prev|];
        } else {
          assert rs[a] == prev[a];
        }
      } else {
        assert rs[a] == prev[a] && rs[b] == prev[b];
      }
    }
  }

  // ---------------------------------------------------------------------
  // The whole run

  ghost predicate AllWellFormed(agents: seq<AgentState>)
  {
    forall k :: 0 <= k < |agents| ==> WellFormed(agents[k])
  }

  /** Agent k after tick n - 1 is its turn applied to its value before it. */
  lemma RunAgentStep(init: seq<AgentState>, edges: map<EdgeKey, EdgeData>, refuse: Draws, n: nat, k: nat)
    requires 0 < n && k < |init|
    ensures RunAgents(init, edges, refuse, n)[k]
         == Advance(RunAgents(init, edges, refuse, n - 1)[k], edges, RunOccupancy(init, edges, refuse, n),
                    n - 1, refuse(n - 1, k))
  {
  }

  /** Two values of the same agent on the same trip: id, kind, path,
      coordinates and `ticksAlive` agree. */
  ghost predicate SameTrip(s: AgentState, t: AgentState)
  {
    s.id == t.id && s.kind == t.kind && s.path == t.path && s.pathCoords == t.pathCoords
    && s.ticksAlive == t.ticksAlive
  }

  /** The run keeps agent k well formed, and keeps its id, kind, path,
      coordinates and `ticksAlive`. */
  lemma {:induction false} AgentInvariant(init: seq<AgentState>, edges: map<EdgeKey, EdgeData>,
                                          refuse: Draws, n: nat, k: nat)
    requires k < |init| && WellFormed(init[k])
    ensures WellFormed(RunAgents(init, edges, refuse, n)[k])
    ensures SameTrip(RunAgents(init, edges, refuse, n)[k], init[k])
    decreases n
  {
    if n > 0 {
      AgentInvariant(init, edges, refuse, n - 1, k);
      RunAgentStep(init, edges, refuse, n, k);
      AdvanceSpec(RunAgents(init, edges, refuse, n - 1)[k], edges, RunOccupancy(init, edges, refuse, n),
                  n - 1, refuse(n - 1, k));
    }
  }

  /** The whole population stays well formed. */
  lemma RunPreserves(init: seq<AgentState>, edges: map<EdgeKey, EdgeData>, refuse: Draws, n: nat)
    requires AllWellFormed(init)
    ensures AllWellFormed(RunAgents(init, edges, refuse, n))
  {
    forall k | 0 <= k < |init|
      ensures WellFormed(RunAgents(init, edges, refuse, n)[k])
    {
      AgentInvariant(init, edges, refuse, n, k);
    }
  }

  /** Agent ids never change, well formed or not. */
  lemma {:induction false} RunKeepsIds(init: seq<AgentState>, edges: map<EdgeKey, EdgeData>, refuse: Draws, n: nat)
    ensures forall k :: 0 <= k < |init| ==> RunAgents(init, edges, refuse, n)[k].id == init[k].id
    decreases n
  {
    if n > 0 {
      RunKeepsIds(init, edges, refuse, n - 1);
      forall k | 0 <= k < |init|
        ensures RunAgents(init, edges, refuse, n)[k].id == init[k].id
      {
        RunAgentStep(init, edges, refuse, n, k);
      }
    }
  }

  /** Distinct agent ids stay distinct. */
  lemma RunIdsDistinct(init: seq<AgentState>, edges: map<EdgeKey, EdgeData>, refuse: Draws, n: nat)
    requires forall j, k :: 0 <= j < k < |init| ==> init[j].id != init[k].id
    ensures forall j, k :: 0 <= j < k < |init| ==>
      RunAgents(init, edges, refuse, n)[j].id != RunAgents(init, edges, refuse, n)[k].id
  {
    RunKeepsIds(init, edges, refuse, n);
  }

  /** An inactive agent is never modified again. */
  lemma {:induction false} InactiveStaysFrozen(init: seq<AgentState>, edges: map<EdgeKey, EdgeData>,
                                               refuse: Draws, n: nat, m: nat, k: nat)
    requires k < |init| && n <= m
    requires !RunAgents(init, edges, refuse, n)[k].active
    ensures RunAgents(init, edges, refuse, m)[k] == RunAgents(init, edges, refuse, n)[k]
    decreases m - n
  {
    if m > n {
      InactiveStaysFrozen(init, edges, refuse, n, m - 1, k);
      RunAgentStep(init, edges, refuse, m, k);
    }
  }

  /** Every agent's cursor only moves forward, by at most one index per tick
      for a pedestrian and two for any other kind. */
  lemma {:induction false} ProgressBounded(init: seq<AgentState>, edges: map<EdgeKey, EdgeData>,
                                           refuse: Draws, n: nat, k: nat)
    requires k < |init| && WellFormed(init[k])
    ensures init[k].currentStep <= RunAgents(init, edges, refuse, n)[k].currentStep
    ensures RunAgents(init, edges, refuse, n)[k].currentStep <= init[k].currentStep + 2 * n
    ensures init[k].kind == Pedestrian ==> RunAgents(init, edges, refuse, n)[k].currentStep <= init[k].currentStep + n
    decreases n
  {
    if n > 0 {
      ProgressBounded(init, edges, refuse, n - 1, k);
      AgentInvariant(init, edges, refuse, n - 1, k);
      var before := RunAgents(init, edges, refuse, n - 1)[k];
      RunAgentStep(init, edges, refuse, n, k);
      AdvanceSpec(before, edges, RunOccupancy(init, edges, refuse, n), n - 1, refuse(n - 1, k));
    }
  }

  /** The stuck counter of an active agent rises by exactly one in a tick
      where its movement is refused, and stays put in a tick where it moves. */
  lemma RunStuckTicks(init: seq<AgentState>, edges: map<EdgeKey, EdgeData>, refuse: Draws, n: nat, k: nat)
    requires 0 < n && k < |init|
    requires RunAgents(init, edges, refuse, n - 1)[k].active
    ensures RunAgents(init, edges, refuse, n)[k].stuckTicks
         == RunAgents(init, edges, refuse, n - 1)[k].stuckTicks
            + if ValidateMovement(RunAgents(init, edges, refuse, n - 1)[k], edges,
                                  RunOccupancy(init, edges, refuse, n), n - 1, refuse(n - 1, k))
              then 0 else 1
  {
    RunAgentStep(init, edges, refuse, n, k);
  }

  /** The last tick divisible by five at or before tick n - 1. */
  function LastRefresh(n: nat): nat
    requires n > 0
  {
    RefreshPeriod * ((n - 1) / RefreshPeriod)
  }

  /** The last refresh before tick n - 1 lies within the last five ticks; it
      is n - 1 itself or the same as for n - 1. */
  lemma RefreshArithmetic(n: nat)
    requires n > 0
    ensures n - RefreshPeriod <= LastRefresh(n) < n
    ensures (n - 1) % RefreshPeriod == 0 ==> LastRefresh(n) == n - 1
    ensures (n - 1) % RefreshPeriod != 0 ==> n > 1 && LastRefresh(n) == LastRefresh(n - 1)
  {
    var q := (n - 1) / RefreshPeriod;
    assert n - 1 == RefreshPeriod * q + (n - 1) % RefreshPeriod;
    if (n - 1) % RefreshPeriod != 0 {
      assert n - 2 == RefreshPeriod * q + ((n - 1) % RefreshPeriod - 1);
    }
  }

  /** The snapshot used at any tick is the occupancy of the agents as they
      stood at the start of the last tick divisible by five, so it is never
      more than four ticks old. */
  lemma {:induction false} OccupancyFromLastRefresh(init: seq<AgentState>, edges: map<EdgeKey, EdgeData>,
                                                    refuse: Draws, n: nat)
    requires n > 0
    ensures n - RefreshPeriod <= LastRefresh(n) < n
    ensures RunOccupancy(init, edges, refuse, n) == EdgeOccupancy(RunAgents(init, edges, refuse, LastRefresh(n)))
    decreases n
  {
    RefreshArithmetic(n);
    if (n - 1) % RefreshPeriod == 0 {
      assert RunOccupancy(init, edges, refuse, n) == EdgeOccupancy(RunAgents(init, edges, refuse, n - 1));
    } else {
      OccupancyFromLastRefresh(init, edges, refuse, n - 1);
      assert RunOccupancy(init, edges, refuse, n) == RunOccupancy(init, edges, refuse, n - 1);
    }
  }

  /** Any history's log holds only records of ticks divisible by five
      before the n-th, in non-decreasing tick order. */
  lemma {:induction false} LogOrdered(history: nat -> seq<AgentState>, n: nat)
    ensures OrderedLog(Log(history, n), n)
    decreases n
  {
    if n > 0 {
      LogOrdered(history, n - 1);
      TickExtendsLog(Log(history, n - 1), history(n), n - 1);
    }
  }

  /** A history whose populations never hold two agents with one id logs no
      (tick, agent id) pair twice. */
  lemma {:induction false} LogUnique(history: nat -> seq<AgentState>, n: nat)
    requires forall t, j, k :: 0 < t <= n && 0 <= j < k < |history(t)| ==> history(t)[j].id != history(t)[k].id
    ensures UniqueLog(Log(history, n))
    decreases n
  {
    if n > 0 {
      LogUnique(history, n - 1);
      LogOrdered(history, n - 1);
      TickExtendsUniqueLog(Log(history, n - 1), history(n), n - 1);
    }
  }

  /** An id that only belongs to inactive agents is not sampled in a tick. */
  lemma TickOmits(after: seq<AgentState>, tick: nat, id: string)
    requires forall j :: 0 <= j < |after| && after[j].id == id ==> !after[j].active
    ensures forall r :: r in TickRecords(after, tick) ==> r.agentId != id
  {
    TickRecordsSpec(after, tick);
    forall r | r in TickRecords(after, tick)
      ensures r.agentId != id
    {
      var j :| 0 <= j < |after| && r in Sample(after[j], tick);
    }
  }

  /** An id that only belongs to inactive agents after the turns of tick
      `from` onwards is not logged for tick `from` or any later tick. */
  lemma {:induction false} LogOmits(history: nat -> seq<AgentState>, from: nat, n: nat, id: string)
    requires forall t, j :: from < t <= n && 0 <= j < |history(t)| && history(t)[j].id == id ==> !history(t)[j].active
    ensures forall r :: r in Log(history, n) && r.tick >= from ==> r.agentId != id
    decreases n
  {
    if n > 0 {
      LogOmits(history, from, n - 1, id);
      if n - 1 >= from {
        TickOmits(history(n), n - 1, id);
      } else {
        TickRecordsSpec(history(n), n - 1);
      }
    }
  }

  /** Every record of the run was taken on a tick divisible by five before
      the n-th, and the records come in non-decreasing tick order. */
  lemma RecordsSampled(init: seq<AgentState>, edges: map<EdgeKey, EdgeData>, refuse: Draws, n: nat)
    ensures OrderedLog(RunRecords(init, edges, refuse, n), n)
  {
    LogOrdered((t: nat) => RunAgents(init, edges, refuse, t), n);
  }

  /** With distinct agent ids, no (tick, agent id) pair is recorded twice. */
  lemma RecordsUnique(init: seq<AgentState>, edges: map<EdgeKey, EdgeData>, refuse: Draws, n: nat)
    requires forall j, k :: 0 <= j < k < |init| ==> init[j].id != init[k].id
    ensures UniqueLog(RunRecords(init, edges, refuse, n))
  {
    var history := (t: nat) => RunAgents(init, edges, refuse, t);
    forall t, j, k | 0 < t <= n && 0 <= j < k < |history(t)|
      ensures history(t)[j].id != history(t)[k].id
    {
      RunIdsDistinct(init, edges, refuse, t);
    }
    LogUnique(history, n);
  }

  /** An agent that is inactive after the first n ticks (it reached the end
      of its path) leaves no record for tick n or any later tick. */
  lemma NoRecordAfterDeactivation(init: seq<AgentState>, edges: map<EdgeKey, EdgeData>,
                                  refuse: Draws, n: nat, m: nat, k: nat)
    requires k < |init| && !RunAgents(init, edges, refuse, n)[k].active
    requires forall i, j :: 0 <= i < j < |init| ==> init[i].id != init[j].id
    ensures forall r :: r in RunRecords(init, edges, refuse, m) && r.tick >= n ==> r.agentId != init[k].id
  {
    var history := (t: nat) => RunAgents(init, edges, refuse, t);
    forall t, j | n < t <= m && 0 <= j < |history(t)| && history(t)[j].id == init[k].id
      ensures !history(t)[j].active
    {
      RunKeepsIds(init, edges, refuse, t);
      InactiveStaysFrozen(init, edges, refuse, n, t, k);
    }
    LogOmits(history, n, m, init[k].id);
  }

  /** An agent that is inactive from the start (a path of fewer than two
      nodes) never appears in the records. */
  lemma InactiveNeverRecorded(init: seq<AgentState>, edges: map<EdgeKey, EdgeData>,
                              refuse: Draws, n: nat, k: nat)
    requires k < |init| && !init[k].active
    requires forall i, j :: 0 <= i < j < |init| ==> init[i].id != init[j].id
    ensures forall r :: r in RunRecords(init, edges, refuse, n) ==> r.agentId != init[k].id
  {
    NoRecordAfterDeactivation(init, edges, refuse, 0, n, k);
  }

  /** No agents, no records. */
  lemma {:induction false} EmptyPopulation(edges: map<EdgeKey, EdgeData>, refuse: Draws, n: nat)
    ensures RunAgents([], edges, refuse, n) == []
    ensures RunRecords([], edges, refuse, n) == []
    decreases n
  {
    if n > 0 {
      EmptyPopulation(edges, refuse, n - 1);
      RunRecordsStep([], edges, refuse, n - 1);
    }
  }

  // ---------------------------------------------------------------------
  // The loop itself

  /** One agent's turn inside a tick: skip it when inactive, otherwise
      validate, step once (twice unless a pedestrian still active) or count
      a stuck tick, and sample it on ticks divisible by five. */
  method TakeTurn(agent: Agent, edges: map<EdgeKey, EdgeData>, edgeOccupancy: map<Edge, real>, tick: nat, refuseDraw: bool)
    returns (sample: seq<Record>)
    requires agent.Valid()
    modifies agent
    ensures agent.Valid()
    ensures agent.State() == Advance(old(agent.State()), edges, edgeOccupancy, tick, refuseDraw)
    ensures sample == Sample(agent.State(), tick)
  {
    if !agent.active {
      return [];
    }
    if ValidateMovement(agent.State(), edges, edgeOccupancy, tick, refuseDraw) {
      agent.Step();
      if agent.kind != Pedestrian && agent.active {
        agent.Step();
      }
    } else {
      agent.stuckTicks := agent.stuckTicks + 1;
    }
    sample := [];
    if agent.active && (tick == 0 || tick % SamplePeriod == 0) {
      var c := agent.pathCoords[agent.currentStep];
      sample := [Record(tick, agent.id, c.lat, c.lon, agent.kind)];
    }
  }

  /** The loop state of a tick after the first `j` turns: those agents hold
      their values after the tick, the rest their values before it, and the
      samples are those of the first `j` agents. */
  ghost predicate TurnsTaken(allAgents: seq<Agent>, before: seq<AgentState>, after: seq<AgentState>,
                             samples: seq<Record>, tick: nat, j: nat)
    reads set a | a in allAgents
  {
    && j <= |allAgents| == |before| == |after|
    && (forall a :: a in allAgents ==> a.Valid())
    && (forall k :: 0 <= k < j ==> allAgents[k].State() == after[k])
    && (forall k :: j <= k < |allAgents| ==> allAgents[k].State() == before[k])
    && samples == TickRecords(after[..j], tick)
  }

  /** The j-th turn of a tick. */
  method NextTurn(allAgents: seq<Agent>, edges: map<EdgeKey, EdgeData>, edgeOccupancy: map<Edge, real>, tick: nat,
                  refuse: Draws, ghost before: seq<AgentState>, ghost after: seq<AgentState>,
                  samples: seq<Record>, j: nat)
    returns (samples': seq<Record>)
    requires forall i, k :: 0 <= i < k < |allAgents| ==> allAgents[i] != allAgents[k]
    requires TurnsTaken(allAgents, before, after, samples, tick, j) && j < |allAgents|
    requires after == TickAgents(before, edges, edgeOccupancy, tick, refuse)
    modifies allAgents[j]
    ensures TurnsTaken(allAgents, before, after, samples', tick, j + 1)
  {
    assert after[..j + 1][..j] == after[..j];
    var sample := TakeTurn(allAgents[j], edges, edgeOccupancy, tick, refuse(tick, j));
    samples' := samples + sample;
  }

  /** One tick of the loop: every agent takes its turn, in order, against
      one occupancy snapshot. */
  method TickAll(allAgents: seq<Agent>, edges: map<EdgeKey, EdgeData>, edgeOccupancy: map<Edge, real>, tick: nat, refuse: Draws)
    returns (samples: seq<Record>)
    requires forall j, k :: 0 <= j < k < |allAgents| ==> allAgents[j] != allAgents[k]
    requires forall a :: a in allAgents ==> a.Valid()
    modifies set a | a in allAgents
    ensures forall a :: a in allAgents ==> a.Valid()
    ensures Snapshot(allAgents) == TickAgents(old(Snapshot(allAgents)), edges, edgeOccupancy, tick, refuse)
    ensures samples == TickRecords(Snapshot(allAgents), tick)
  {
    ghost var before := Snapshot(allAgents);
    ghost var after := TickAgents(before, edges, edgeOccupancy, tick, refuse);
    samples := [];
    var j := 0;
    while j < |allAgents|
      invariant j <= |allAgents|
      invariant TurnsTaken(allAgents, before, after, samples, tick, j)
    {
      samples := NextTurn(allAgents, edges, edgeOccupancy, tick, refuse, before, after, samples, j);
      j := j + 1;
    }
    assert after[..|allAgents|] == after;
    assert Snapshot(allAgents) == after;
  }

  /** The snapshot the tick after the first `i` uses. */
  lemma OccupancyStep(init: seq<AgentState>, edges: map<EdgeKey, EdgeData>, refuse: Draws, i: nat,
                      agents: seq<AgentState>, occupancy: map<Edge, real>)
    requires agents == RunAgents(init, edges, refuse, i) && occupancy == RunOccupancy(init, edges, refuse, i)
    ensures (if i % RefreshPeriod == 0 then EdgeOccupancy(agents) else occupancy)
         == RunOccupancy(init, edges, refuse, i + 1)
  {
  }

  /** The agents after the tick following the first `i`. */
  lemma AgentsStep(init: seq<AgentState>, edges: map<EdgeKey, EdgeData>, refuse: Draws, i: nat,
                   agents: seq<AgentState>, occupancy: map<Edge, real>)
    requires agents == RunAgents(init, edges, refuse, i) && occupancy == RunOccupancy(init, edges, refuse, i + 1)
    ensures TickAgents(agents, edges, occupancy, i, refuse) == RunAgents(init, edges, refuse, i + 1)
  {
  }

  /** The records after the tick following the first `i`. */
  lemma RecordsStep(init: seq<AgentState>, edges: map<EdgeKey, EdgeData>, refuse: Draws, i: nat,
                    agents: seq<AgentState>, records: seq<Record>)
    requires agents == RunAgents(init, edges, refuse, i + 1) && records == RunRecords(init, edges, refuse, i)
    ensures records + TickRecords(agents, i) == RunRecords(init, edges, refuse, i + 1)
  {
    RunRecordsStep(init, edges, refuse, i);
  }

  /** One tick of the loop: refresh the snapshot on ticks divisible by five,
      then let every agent take its turn. */
  method NextTick(allAgents: seq<Agent>, edges: map<EdgeKey, EdgeData>, refuse: Draws, tick: nat,
                  edgeOccupancy: map<Edge, real>)
    returns (edgeOccupancy': map<Edge, real>, samples: seq<Record>)
    requires Distinct(allAgents)
    requires forall a :: a in allAgents ==> a.Valid()
    modifies set a | a in allAgents
    ensures forall a :: a in allAgents ==> a.Valid()
    ensures edgeOccupancy' == if tick % RefreshPeriod == 0 then EdgeOccupancy(old(Snapshot(allAgents))) else edgeOccupancy
    ensures Snapshot(allAgents) == TickAgents(old(Snapshot(allAgents)), edges, edgeOccupancy', tick, refuse)
    ensures samples == TickRecords(Snapshot(allAgents), tick)
  {
    edgeOccupancy' := edgeOccupancy;
    if tick % RefreshPeriod == 0 {
      edgeOccupancy' := GetEdgeOccupancy(allAgents);
    }
    DistinctPairwise(allAgents);
    samples := TickAll(allAgents, edges, edgeOccupancy', tick, refuse);
  }

  /** The loop's state after the first `i` ticks of the run from `init`. */
  ghost predicate Reached(init: seq<AgentState>, edges: map<EdgeKey, EdgeData>, refuse: Draws, i: nat,
                          agents: seq<AgentState>, occupancy: map<Edge, real>, records: seq<Record>)
  {
    && agents == RunAgents(init, edges, refuse, i)
    && occupancy == RunOccupancy(init, edges, refuse, i)
    && records == RunRecords(init, edges, refuse, i)
  }

  /** One more tick of the loop reaches the run's next state. */
  lemma TickReaches(init: seq<AgentState>, edges: map<EdgeKey, EdgeData>, refuse: Draws, i: nat,
                    agents: seq<AgentState>, occupancy: map<Edge, real>, records: seq<Record>,
                    agents': seq<AgentState>, occupancy': map<Edge, real>, samples: seq<Record>)
    requires Reached(init, edges, refuse, i, agents, occupancy, records)
    requires occupancy' == if i % RefreshPeriod == 0 then EdgeOccupancy(agents) else occupancy
    requires agents' == TickAgents(agents, edges, occupancy', i, refuse)
    requires samples == TickRecords(agents', i)
    ensures Reached(init, edges, refuse, i + 1, agents', occupancy', records + samples)
  {
    OccupancyStep(init, edges, refuse, i, agents, occupancy);
    AgentsStep(init, edges, refuse, i, agents, occupancy');
    RecordsStep(init, edges, refuse, i, agents', records);
  }

  /** The tick loop of the runner over the agent objects, appending each
      tick's samples. */
  method RunTicks(allAgents: seq<Agent>, edges: map<EdgeKey, EdgeData>, duration: int, refuse: Draws)
    returns (simulationData: seq<Record>)
    requires Distinct(allAgents)
    requires forall a :: a in allAgents ==> a.Valid()
    modifies set a | a in allAgents
    ensures forall a :: a in allAgents ==> a.Valid()
    ensures var n := if duration < 0 then 0 else duration;
      && Snapshot(allAgents) == RunAgents(old(Snapshot(allAgents)), edges, refuse, n)
      && simulationData == RunRecords(old(Snapshot(allAgents)), edges, refuse, n)
  {
    ghost var init := Snapshot(allAgents);
    simulationData := [];
    var edgeOccupancy: map<Edge, real> := map[];
    var i: nat := 0;
    while i < duration
      invariant duration >= 0 ==> i <= duration
      invariant duration < 0 ==> i == 0
      invariant forall a :: a in allAgents ==> a.Valid()
      invariant Reached(init, edges, refuse, i, Snapshot(allAgents), edgeOccupancy, simulationData)
    {
      ghost var agents := Snapshot(allAgents);
      ghost var occupancy := edgeOccupancy;
      var samples;
      edgeOccupancy, samples := NextTick(allAgents, edges, refuse, i, edgeOccupancy);
      TickReaches(init, edges, refuse, i, agents, occupancy, simulationData,
                  Snapshot(allAgents), edgeOccupancy, samples);
      simulationData := simulationData + samples;
      i := i + 1;
    }
  }
}
