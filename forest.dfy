/** The translation forest (a hypergraph) the chart parser builds, reduced to
    what the parser and the Viterbi search use: nodes with a category and
    their incoming edges, edges with a rule, tail nodes and a span. */
module Forest {
  /** A synchronous rule: left-hand side category (negative word id), source
      side `f`, target side `e` (target nonterminals are numbers <= 0) and the
      number of nonterminals. `id` stands for the rule's identity (the
      source compares rule pointers). */
  datatype Rule = Rule(id: nat, lhs: int, f: seq<int>, e: seq<int>, arity: nat)

  datatype Node = Node(cat: int, inEdges: seq<nat>)

  /** An edge; `head` is -1 until the edge is connected to its head node. */
  datatype Edge = Edge(rule: Rule, tail: seq<nat>, i: int, j: int, latticeCost: int, head: int)

  class Hypergraph {
    var nodes: seq<Node>
    var edges: seq<Edge>

    constructor ()
      ensures nodes == [] && edges == []
    {
      nodes := [];
      edges := [];
    }

    method AddNode(cat: int) returns (id: nat)
      modifies this
      ensures id == |old(nodes)| && nodes == old(nodes) + [Node(cat, [])] && edges == old(edges)
    {
      id := |nodes|;
      nodes := nodes + [Node(cat, [])];
    }

    method AddEdge(r: Rule, tail: seq<nat>) returns (id: nat)
      modifies this
      ensures id == |old(edges)| && edges == old(edges) + [Edge(r, tail, -1, -1, 0, -1)] && nodes == old(nodes)
    {
      id := |edges|;
      edges := edges + [Edge(r, tail, -1, -1, 0, -1)];
    }

    method ConnectEdgeToHeadNode(e: nat, v: nat)
      requires e < |edges| && v < |nodes|
      modifies this
      ensures edges == old(edges)[e := old(edges[e]).(head := v)]
      ensures nodes == old(nodes)[v := old(nodes[v]).(inEdges := old(nodes[v].inEdges) + [e])]
    {
      edges := edges[e := edges[e].(head := v)];
      nodes := nodes[v := nodes[v].(inEdges := nodes[v].inEdges + [e])];
    }
  }
}
