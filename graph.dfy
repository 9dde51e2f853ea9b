/** The road network as the engine sees it: a directed multigraph whose edges
    carry a dictionary of numeric attributes ("length", "weight", "capacity"). */
module Graph {

  datatype Option<+T> = None | Some(value: T)

  /** Node identifiers are the map provider's integer ids. */
  type Node = int

  /** A directed edge (u, v), the key of the occupancy table. */
  type Edge = (Node, Node)

  /** An edge of the multigraph: endpoints plus the parallel-edge key. */
  datatype EdgeKey = EdgeKey(u: Node, v: Node, k: int)

  /** The attribute dictionary of one edge. */
  type EdgeData = map<string, real>

  /** `d.get(key, default)` on a dictionary. */
  function Get<K, V>(d: map<K, V>, key: K, default: V): V
  {
    if key in d then d[key] else default
  }

  /** Edges leaving `n` (all parallel keys). */
  function OutEdges(edges: map<EdgeKey, EdgeData>, n: Node): set<EdgeKey>
  {
    set e | e in edges.Keys && e.u == n
  }

  /** Edges entering `n` (all parallel keys). */
  function InEdges(edges: map<EdgeKey, EdgeData>, n: Node): set<EdgeKey>
  {
    set e | e in edges.Keys && e.v == n
  }

  /** `graph.degree(n)` of a multigraph: every incident edge counts once per
      endpoint, so a self-loop counts twice. */
  function Degree(edges: map<EdgeKey, EdgeData>, n: Node): (r: nat)
    ensures r == |OutEdges(edges, n)| + |InEdges(edges, n)|
    ensures r == 0 <==> forall e :: e in edges ==> e.u != n && e.v != n
  {
    var o, i := OutEdges(edges, n), InEdges(edges, n);
    forall e | e in edges && e.u == n
      ensures e in o
    {
    }
    forall e | e in edges && e.v == n
      ensures e in i
    {
    }
    |o| + |i|
  }

  /** The graph object that pre-processing and barriers update in place. */
  class RoadGraph {
    const nodes: seq<Node>
    var edges: map<EdgeKey, EdgeData>

    constructor (nodes: seq<Node>, edges: map<EdgeKey, EdgeData>)
      ensures this.nodes == nodes && this.edges == edges
    {
      this.nodes := nodes;
      this.edges := edges;
    }
  }
}
