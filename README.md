# Traffic simulation engine — a Dafny model

This project models the simulation engine of an urban mobility simulator
(`engine.py`). The engine runs over two road networks, a drive graph and a
walk graph. It works in these stages:

1. It applies user-placed barriers to the drive graph.
2. It pre-processes both graphs: edge capacities and destination attraction
   weights.
3. It routes one task per agent through a pool of path workers.
4. It builds an `Agent` object for every task that got a path.
5. It runs a discrete tick loop. Every fifth tick it recomputes an edge
   occupancy snapshot, measured in passenger-car equivalents. Each active
   agent passes a movement check: traffic lights at intersections, then
   stochastic congestion against the edge's capacity. An agent that passes
   steps one path index, and any non-pedestrian steps a second time if it
   is still active. An agent that fails has its stuck counter raised.
   Every fifth tick, an agent still active after its turn leaves a
   trajectory record.

Modules, one per part of the engine:

- `Graph`: the multigraph as a map from (u, v, key) to an attribute
  dictionary, plus `RoadGraph`, the graph object updated in place.
- `Traffic`: the traffic-light oracle.
- `Agents`: the agent path cursor, as the `Agent` class and its value
  `AgentState`.
- `Occupancy`: the load table.
- `Movement`: the movement check.
- `Preprocessing`: capacities, raw weights and barriers.
- `Routing`: the path worker and the filtering of failed tasks.
- `Simulation`: the tick loop.
- `Runner`: the runner once the graphs are loaded.

Code that updates state in place is modelled as methods on objects. The
agent fields, the graph's edge map, the occupancy dictionary and the
record list are all imperative, and each such method is proved against a
pure function of the old state. The whole run is a pure function
(`RunAgents`, `RunOccupancy`, `RunRecords`) of the initial agents, the
drive edges and an oracle for the random draws. The lemmas about the run
are stated over that function. `RunTicks` is proved to compute exactly
that function.

The model follows the code, including these behaviours:

- Heavy vehicles also take the double step (engine.py:172 only tests for
  `'Pedestrian'`).
- Pedestrians count 1.0 in the occupancy table, because only `isHeavy` is
  tested (engine.py:69).
- `stuckTicks` and `ticksAlive` never deactivate an agent, and `ticksAlive`
  is never incremented.
- Records carry no status field (engine.py:180-182).
- A barrier sets weight 999999 on every outgoing edge of the nearest node,
  not on the nearest edge and its reverse (engine.py:101-105).

## Model

| member | source | states |
|---|---|---|
| Graph.Degree | engine.py:81 | the degree of a node is its out-edges plus its in-edges, counting every parallel key; it is zero exactly when no edge touches the node |
| Traffic.IsGreenLight | engine.py:58-61 | definition: green while `tick % 30 < 15` when u + v is even, and while `tick % 30 >= 15` when it is odd |
| Traffic.GreenLightPeriodic | engine.py:58-61 | the light at (u, v) repeats with period 30 in the tick, forwards and backwards |
| Traffic.PhaseClassesComplementary | engine.py:61 | any two edges whose endpoint sums u + v differ in parity see opposite lights at every tick |
| Traffic.HalfCycleFlips | engine.py:60-61 | 15 ticks later every light has flipped |
| Agents.Init | engine.py:20-30 | a new agent is active iff its path has more than one node; it starts at step 0 with zero counters; `currentNode` is `path[0]` when active and None otherwise; with parallel coordinates it satisfies the agent invariant |
| Agents.Agent.constructor | engine.py:20-30 | the object holds exactly the `Init` value, and `isHeavy` is set iff the kind is HeavyVehicle |
| Agents.Stepped | engine.py:32-40 | definition: one call of `step` on the agent's value |
| Agents.StepSpec | engine.py:32-40 | a step keeps the invariant `currentStep <= len(path)-1`; it does nothing to an inactive agent; on an active agent it raises `currentStep` by exactly one, moves `currentNode` to `path[currentStep]`, deactivates exactly at the last index, and changes no other field |
| Agents.Agent.Step | engine.py:32-40 | the in-place step leaves the object holding the stepped value and keeps it valid |
| Agents.StepsReachEnd | engine.py:32-40 | an active agent stepped the remaining number of times ends inactive on the last node of its path |
| Occupancy.NextEdge | engine.py:67-68 | definition: the edge (path[step], path[step+1]) an active agent not at its last index is about to traverse, None otherwise |
| Occupancy.Pce | engine.py:69 | definition: the load weight, 3.0 for a heavy vehicle and 1.0 for every other agent, pedestrians included |
| Occupancy.EdgeOccupancy | engine.py:63-71 | definition: the occupancy table as the fold over the agents builds it, agent by agent |
| Occupancy.EdgeOccupancyLoad | engine.py:63-71 | an edge is in the table iff some agent is about to traverse it; its load is 3 × (heavy agents on it) + 1 × (other agents on it); inactive agents and agents at their last node add nothing |
| Occupancy.TruckPlusCarLoad | test_suite.py:110-113 | a truck and a car both about to traverse (1, 2) give the table {(1, 2): 4.0} |
| Occupancy.GetEdgeOccupancy | engine.py:63-71 | the dictionary the loop builds equals the occupancy table of the agents' current values |
| Movement.RuleCapacity | engine.py:85-87 | definition: the capacity of edge (u, v, 0), or 5 when it has no capacity entry; None when that edge is missing or its data is empty, so that no congestion rule applies |
| Movement.ValidateMovement | engine.py:73-91 | a pedestrian may always move; a vehicle with no next edge never may; a vehicle facing a red light at a node of degree > 2 may not; otherwise it may move iff the edge is not over capacity or the draw does not refuse (both directions) |
| Movement.DefaultCapacityAdmits | engine.py:85-91 | with no capacity attribute, a load of at most 5 and a permitting light always let a vehicle move |
| Preprocessing.Trunc | engine.py:111 | Python's `int` on a float truncates toward zero: for x >= 0 the result r satisfies 0 <= r <= x < r + 1, and for x < 0 it satisfies r - 1 < x <= r <= 0 |
| Preprocessing.Capacity | engine.py:109-111 | definition: `max(1, int(length / 7.0))`, with Python's truncating `int` |
| Preprocessing.WithCapacities | engine.py:110-111 | definition: every edge's data with its capacity entry set from its length, or from 1.0 when the length is missing |
| Preprocessing.CapacitySpec | engine.py:109-111 | capacity is max(1, floor(length / 7)), hence at least 1; for a length of 7 or more it is the number of whole 7-metre slots; a length under 14 gives 1 |
| Preprocessing.WithCapacitiesSpec | engine.py:110-111 | after the capacity pass every edge has a capacity of max(1, floor(length / 7)), at least 1, using length 1.0 when missing; no other attribute and no edge changes |
| Preprocessing.WithCapacitiesIdempotent | engine.py:110-111 | running the capacity pass twice gives the graph it gives once |
| Preprocessing.RawWeights | engine.py:113-121 | definition: degree + 1 per node in node order, times 8 for central nodes when the time of day is "Morning" |
| Preprocessing.RawWeightsSpec | engine.py:113-121 | every raw weight is at least degree + 1 > 0, and it is eight times degree + 1 exactly when the time of day is "Morning" and the node is central, else exactly degree + 1 |
| Preprocessing.NodeWeightMonotone | engine.py:115-121 | of two nodes on the same side of the centrality threshold, the one of higher degree has at least the weight |
| Preprocessing.PreProcessing | engine.py:107-123 | the in-place loop leaves exactly the capacity-pass edges, and returns the node list and its raw weights |
| Preprocessing.Barred | engine.py:95-105 | definition: the edges with weight 999999 set on every edge leaving one of the barrier nodes |
| Preprocessing.BarredSpec | engine.py:95-105 | no barrier leaves the graph unchanged; otherwise exactly the outgoing edges (every key) of the selected nodes get weight 999999, every other edge (incoming ones included) is unchanged, and no edge is added or removed |
| Preprocessing.BarredIdempotent | engine.py:95-105 | applying the same barriers twice equals applying them once |
| Preprocessing.BarriersKeepCapacities | engine.py:135-139 | barriers before the capacity pass commute with it: the capacities are those of the unbarred graph |
| Preprocessing.ApplyBarriers | engine.py:95-105 | the triple loop leaves the drive graph equal to its barred edges |
| Preprocessing.BlockOutgoing | engine.py:103-105 | the loop over a node's successors blocks exactly its outgoing edges |
| Preprocessing.BlockParallelEdges | engine.py:104-105 | the loop over the parallel keys of (target, neighbor) blocks exactly those edges |
| Routing.ComputePathWorker | engine.py:44-54 | the worker yields a result iff a non-empty path exists and every node of it has coordinates; the result carries the task's id, kind and path, with the coordinates of each path node in parallel |
| Routing.RouteAll | engine.py:153-154 | the pool maps the worker over the tasks in order, one result per task, each carrying its task's id |
| Routing.Survivors | engine.py:156 | definition: the non-None results, in order |
| Routing.SurvivorsSpec | engine.py:156 | the agents are built from exactly the non-None results, no more than the tasks; none survive iff every task failed |
| Routing.SurvivorIdsDistinct | engine.py:146-156 | distinct task ids give agents with distinct ids |
| Routing.InitialStates | engine.py:156 | one initial agent per surviving result, in order, with that result's id |
| Routing.UnroutedTaskHasNoAgent | engine.py:46-54 | with distinct task ids, a task whose worker yields None (no route, the path search raised, or a path node without coordinates) yields no agent with its id |
| Routing.DegenerateRouteInactive | engine.py:25-27 | for a task whose origin equals its destination, the one-node route [origin] from the path library gives a result, and its agent is inactive from the start |
| Routing.BuildAgents | engine.py:156 | the list comprehension creates fresh, valid, pairwise distinct agent objects holding the initial states |
| Simulation.Advance | engine.py:166-176 | definition: one agent's turn; skip when inactive, else validate and step once (twice for a non-pedestrian still active), or add a stuck tick |
| Simulation.Sample | engine.py:178-182 | definition: the agent's record for a tick, when it is active after its turn and the tick is 0 or divisible by 5 |
| Simulation.TickAgents | engine.py:165-176 | definition: each agent's turn in one tick, against the same snapshot, with its own draw |
| Simulation.TickRecords | engine.py:165-182 | definition: the samples of one tick, in agent order |
| Simulation.RunAgents | engine.py:160-176 | definition: the agents after the first n ticks |
| Simulation.RunOccupancy | engine.py:162-169 | definition: the snapshot tick n - 1 is validated against, recomputed when n - 1 is divisible by 5 and carried over otherwise |
| Simulation.RunRecords | engine.py:159-182 | definition: the records of the first n ticks |
| Simulation.AdvanceSpec | engine.py:166-176 | an inactive agent is untouched; a permitted agent advances 1 step (pedestrian) or up to 2 steps (other kinds) with its stuck counter unchanged; a refused agent stays put, stays active and has its stuck counter raised by exactly one; identity, path and `ticksAlive` never change |
| Simulation.AdvanceDistance | engine.py:170-173 | a pedestrian advances exactly one index; a permitted non-pedestrian with at least two edges left advances exactly two |
| Simulation.SampleSpec | engine.py:178-182 | an agent leaves at most one record per tick, exactly when it is active after its turn and the tick is divisible by 5; the record holds the tick, its id, its kind and `pathCoords[currentStep]` |
| Simulation.TickRecordsSpec | engine.py:165-182 | every record of a tick carries that tick, which is divisible by 5, and is the sample of one of the agents |
| Simulation.TickRecordsDistinct | engine.py:178-182 | within a tick, agents with distinct ids leave records with distinct ids |
| Simulation.AgentInvariant | engine.py:160-176 | through the run every agent stays well formed, so `currentStep <= len(path)-1` for a non-empty path, and keeps its id, kind, path, coordinates and `ticksAlive` |
| Simulation.RunPreserves | engine.py:160-176 | the whole population stays well formed |
| Simulation.RunKeepsIds | engine.py:160-176 | agent ids never change |
| Simulation.RunIdsDistinct | engine.py:160-176 | distinct ids stay distinct |
| Simulation.InactiveStaysFrozen | engine.py:166 | an inactive agent is never modified again |
| Simulation.ProgressBounded | engine.py:169-173 | an agent's step index never decreases and grows by at most n for a pedestrian and 2n for any other kind over n ticks |
| Simulation.RunStuckTicks | engine.py:169-175 | an active agent's stuck counter rises by exactly one in a tick where movement is refused, and not at all where it is permitted |
| Simulation.OccupancyFromLastRefresh | engine.py:162-163 | the snapshot used at every tick is the occupancy of the agents at the start of the last tick divisible by 5, at most four ticks back |
| Simulation.RecordsSampled | engine.py:178-182 | every record was taken on a tick divisible by 5 before the end of the run, and records come in non-decreasing tick order |
| Simulation.RecordsUnique | engine.py:178-182 | with distinct agent ids, no (tick, agent id) pair is recorded twice |
| Simulation.NoRecordAfterDeactivation | engine.py:166-182 | with distinct ids, an agent inactive after the first n ticks (it reached the end of its path) leaves no record for tick n or later |
| Simulation.InactiveNeverRecorded | engine.py:166-182 | with distinct agent ids, an agent inactive from the start never appears in the records |
| Simulation.EmptyPopulation | engine.py:159-182 | no agents give no agents and no records |
| Simulation.TakeTurn | engine.py:166-182 | one agent's turn in place: the object ends holding its advanced value and the samples returned are its record for the tick |
| Simulation.TickAll | engine.py:165-182 | the inner loop leaves every agent at its advanced value, and the samples are the tick's records in agent order |
| Simulation.NextTick | engine.py:162-182 | the snapshot is recomputed from the agents before anyone moves on ticks divisible by 5 and reused otherwise; the agents advance against it |
| Simulation.RunTicks | engine.py:159-182 | after `duration` ticks (none when negative) the agents hold the run's values and the list holds the run's records |
| Runner.Population | engine.py:153-156 | definition: the initial agent values from routing every task and keeping the successes |
| Runner.UnroutedNeverRecorded | engine.py:46-54 | with distinct task ids, a task whose worker yields None (no route, the path search raised, or a path node without coordinates) never appears in the records of the run |
| Runner.TaskIdsGiveUniqueRecords | engine.py:143-182 | the task ids `v_i` and `p_j` are distinct, so no (tick, agent) pair is recorded twice |
| Runner.RunSimulation | engine.py:127-182 | the drive graph ends barred and pre-processed, the walk graph pre-processed, and the records are the run of the routed population on the drive edges |

## Left out

- Network download through OSMnx, its settings and the cache directory (engine.py:11-15, 128-129) are I/O. The graphs arrive as `RoadGraph` objects.
- The `roads` polylines (engine.py:131-133) and the pandas DataFrame (engine.py:184) are output formatting. The runner returns the record list.
- Coordinate rounding (engine.py:50, 131-133) is floating point. Coordinates are taken as given per node.
- The KDTree nearest-node lookup (engine.py:97-102) is floating point. Barriers are given as their nearest nodes.
- The centroid distance threshold (engine.py:119-121) is floating point. Centrality is given as a set of nodes.
- The normalisation of the weights into probabilities (engine.py:123) is floating point. `PreProcessing` returns the raw weights.
- Shortest-path search and reachability (engine.py:47-48) are foreign library calls. Their outcome for each task is a parameter (`routes`), and the blanket `except` becomes None.
- Random sampling of origins, destinations and truck type, and the truck ratio (engine.py:142-151), are random. The tasks are a parameter.
- The 0.7 congestion draw (engine.py:88) is random. It becomes an oracle `refuse(tick, agentIndex)`.
- The thread pool (engine.py:153-154) is concurrency. It is modelled as the order-preserving map it yields.
- Dictionary and set iteration order in the capacity and barrier loops is not modelled. Any order gives the same graph.
- Edge attributes are numeric only. The string and geometry attributes of an OSMnx edge are not modelled. They could only matter to the non-empty test of engine.py:86, and the capacity pass has already given every edge a "capacity" entry before any movement check.
- Agent kinds are an enumeration, not free strings.
- DegenerateRouteInactive: the one-node route for an origin equal to its destination is an assumption about the path library, not derived from a model of it.
- Simulation.RunTicks: takes the drive edge map rather than the graph object, since the loop only reads it.
- The `'edgeOccupancy' in locals()` fallback (engine.py:169) is not modelled separately. Tick 0 is divisible by 5, so the snapshot always exists when it is read. The run's snapshot before the first tick is the empty map.
- The Streamlit interface, the report, the benchmark and the performance tests are outside the engine. The only assertion of the test suite that matches the engine is the load test, which is modelled as `TruckPlusCarLoad`.
