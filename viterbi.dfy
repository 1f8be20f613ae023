/** The Viterbi search over a topologically ordered hypergraph: for every
    node, in order, the best incoming edge under a weight function, the
    node's best weight, and a traversal result built from the best edge and
    the results of its tail nodes. Weights are naturals: 0 is the default
    weight, 1 the weight of a node with no incoming edges, and scores
    multiply. The traversals and the weight function are parameters. */
module Viterbi {
  import opened Forest

  /** A read-only view of a hypergraph's nodes and edges. */
  datatype Graph = Graph(nodes: seq<Node>, edges: seq<Edge>)

  /** Every tail node of `e` is below `n`. */
  predicate TailsIn(e: Edge, n: int)
  {
    forall k :: 0 <= k < |e.tail| ==> e.tail[k] < n
  }

  /** Topological order: every incoming edge of node v exists and has its
      tail nodes before v. */
  predicate Ordered(g: Graph)
  {
    forall v, q :: 0 <= v < |g.nodes| && 0 <= q < |g.nodes[v].inEdges| ==>
      g.nodes[v].inEdges[q] < |g.edges| && TailsIn(g.edges[g.nodes[v].inEdges[q]], v)
  }

  /** The q-th incoming edge of node v. */
  function InEdge(g: Graph, v: nat, q: nat): (e: Edge)
    requires Ordered(g) && v < |g.nodes| && q < |g.nodes[v].inEdges|
    ensures TailsIn(e, v)
  {
    g.edges[g.nodes[v].inEdges[q]]
  }

  /** The edge's weight times the weights of its first k tail nodes, taken
      left to right. */
  function Score(weight: Edge -> nat, e: Edge, w: seq<nat>, k: nat): nat
    requires k <= |e.tail| && TailsIn(e, |w|)
  {
    if k == 0 then weight(e) else Score(weight, e, w, k - 1) * w[e.tail[k - 1]]
  }

  /** The score of node v's q-th incoming edge under the weights `w` of the
      nodes before v. */
  function InScore(g: Graph, weight: Edge -> nat, w: seq<nat>, v: nat, q: nat): nat
    requires Ordered(g) && v < |g.nodes| && v <= |w| && q < |g.nodes[v].inEdges|
  {
    var e := InEdge(g, v, q);
    Score(weight, e, w, |e.tail|)
  }

  /** The best score among node v's first m incoming edges and the position
      of the edge that reached it: a later edge replaces the best only with
      a strictly greater score. */
  function Best(g: Graph, weight: Edge -> nat, w: seq<nat>, v: nat, m: nat): (r: (nat, nat))
    requires Ordered(g) && v < |g.nodes| && v <= |w| && 1 <= m <= |g.nodes[v].inEdges|
    ensures r.1 < m
  {
    var s := InScore(g, weight, w, v, m - 1);
    if m == 1 then (s, 0)
    else
      var b := Best(g, weight, w, v, m - 1);
      if b.0 < s then (s, m - 1) else b
  }

  /** The Viterbi weight of node v: 1 without incoming edges, else the best
      score of its incoming edges. */
  function NodeWeight(g: Graph, weight: Edge -> nat, w: seq<nat>, v: nat): nat
    requires Ordered(g) && v < |g.nodes| && v <= |w|
  {
    if |g.nodes[v].inEdges| == 0 then 1
    else Best(g, weight, w, v, |g.nodes[v].inEdges|).0
  }

  /** The Viterbi weights of the first n nodes, each computed from the
      weights of the nodes before it. */
  function Weights(g: Graph, weight: Edge -> nat, n: nat): (w: seq<nat>)
    requires Ordered(g) && n <= |g.nodes|
    ensures |w| == n
  {
    if n == 0 then []
    else
      var w := Weights(g, weight, n - 1);
      w + [NodeWeight(g, weight, w, n - 1)]
  }

  /** The best incoming edge of non-leaf node v under weights `w`. */
  function Chosen(g: Graph, weight: Edge -> nat, w: seq<nat>, v: nat): (e: Edge)
    requires Ordered(g) && v < |g.nodes| && v <= |w| && |g.nodes[v].inEdges| > 0
    ensures TailsIn(e, v)
  {
    InEdge(g, v, Best(g, weight, w, v, |g.nodes[v].inEdges|).1)
  }

  /** The results of an edge's tail nodes, in tail order. */
  function Ants<T>(e: Edge, r: seq<T>): (ants: seq<T>)
    requires TailsIn(e, |r|)
    ensures |ants| == |e.tail| && forall k :: 0 <= k < |e.tail| ==> ants[k] == r[e.tail[k]]
  {
    seq(|e.tail|, k requires 0 <= k < |e.tail| => r[e.tail[k]])
  }

  /** The traversal results of the first n nodes: a node without incoming
      edges keeps the default result `zero`; any other node gets the
      traversal of its best edge over its tail nodes' results. */
  function Results<T>(g: Graph, weight: Edge -> nat, traverse: (Edge, seq<T>) -> T, zero: T, n: nat): (r: seq<T>)
    requires Ordered(g) && n <= |g.nodes|
    ensures |r| == n
  {
    if n == 0 then []
    else
      var r := Results(g, weight, traverse, zero, n - 1);
      var v := n - 1;
      r + [if |g.nodes[v].inEdges| == 0 then zero
           else traverse(Chosen(g, weight, Weights(g, weight, v), v), Ants(Chosen(g, weight, Weights(g, weight, v), v), r))]
  }

  /** The best score is the score of the chosen edge, no incoming edge
      scores more, and every edge before the chosen one scores strictly
      less: among equal scores the first edge wins. */
  lemma {:induction false} BestIsFirstMax(g: Graph, weight: Edge -> nat, w: seq<nat>, v: nat, m: nat)
    requires Ordered(g) && v < |g.nodes| && v <= |w| && 1 <= m <= |g.nodes[v].inEdges|
    ensures var r := Best(g, weight, w, v, m);
      r.0 == InScore(g, weight, w, v, r.1) &&
      (forall q :: 0 <= q < m ==> InScore(g, weight, w, v, q) <= r.0) &&
      (forall q :: 0 <= q < r.1 ==> InScore(g, weight, w, v, q) < r.0)
  {
    if m > 1 {
      BestIsFirstMax(g, weight, w, v, m - 1);
    }
  }

  /** Each Viterbi weight is computed from exactly the weights before it. */
  lemma {:induction false} WeightsPrefix(g: Graph, weight: Edge -> nat, n: nat, v: nat)
    requires Ordered(g) && v < n <= |g.nodes|
    ensures Weights(g, weight, n)[..v] == Weights(g, weight, v)
    ensures Weights(g, weight, n)[v] == NodeWeight(g, weight, Weights(g, weight, v), v)
  {
    if v < n - 1 {
      WeightsPrefix(g, weight, n - 1, v);
      assert Weights(g, weight, n)[..n - 1] == Weights(g, weight, n - 1);
    } else {
      assert Weights(g, weight, n)[..n - 1] == Weights(g, weight, n - 1);
    }
  }

  /** The Viterbi weight of node v: 1 for a node without incoming edges;
      otherwise the score of some incoming edge `q`, computed over the final
      weights of its tail nodes, that no incoming edge exceeds and that every
      earlier incoming edge falls short of. */
  lemma ViterbiWeightIsMax(g: Graph, weight: Edge -> nat, n: nat, v: nat)
    requires Ordered(g) && v < n <= |g.nodes|
    ensures var w := Weights(g, weight, n);
      (|g.nodes[v].inEdges| == 0 ==> w[v] == 1) &&
      (|g.nodes[v].inEdges| > 0 ==>
        exists q :: 0 <= q < |g.nodes[v].inEdges| && w[v] == InScore(g, weight, w, v, q) &&
          (forall q' :: 0 <= q' < |g.nodes[v].inEdges| ==> InScore(g, weight, w, v, q') <= w[v]) &&
          (forall q' :: 0 <= q' < q ==> InScore(g, weight, w, v, q') < w[v]))
  {
    var w := Weights(g, weight, n);
    WeightsPrefix(g, weight, n, v);
    var m := |g.nodes[v].inEdges|;
    if m > 0 {
      var wv := Weights(g, weight, v);
      BestIsFirstMax(g, weight, wv, v, m);
      forall q | 0 <= q < m ensures InScore(g, weight, w, v, q) == InScore(g, weight, wv, v, q) {
        var e := InEdge(g, v, q);
        ScorePrefix(weight, e, w, wv, v, |e.tail|);
      }
      var q := Best(g, weight, wv, v, m).1;
      assert w[v] == InScore(g, weight, w, v, q);
    }
  }

  /** A score only reads the weights of the edge's tail nodes. */
  lemma {:induction false} ScorePrefix(weight: Edge -> nat, e: Edge, w: seq<nat>, w': seq<nat>, v: nat, k: nat)
    requires TailsIn(e, v) && v <= |w| && w[..v] == w' && k <= |e.tail|
    ensures Score(weight, e, w, k) == Score(weight, e, w', k)
  {
    if k > 0 {
      ScorePrefix(weight, e, w, w', v, k - 1);
      assert w[e.tail[k - 1]] == w'[e.tail[k - 1]];
    }
  }

  /** The score of one edge: its weight times its tail nodes' weights. */
  method EdgeScore(vw: array<nat>, weight: Edge -> nat, e: Edge, v: nat) returns (score: nat)
    requires v <= vw.Length && TailsIn(e, v)
    ensures score == Score(weight, e, vw[..v], |e.tail|)
  {
    score := weight(e);
    var k := 0;
    while k < |e.tail|
      invariant 0 <= k <= |e.tail| && score == Score(weight, e, vw[..v], k)
    {
      score := score * vw[e.tail[k]];
      k := k + 1;
    }
  }

  /** The scan over node v's incoming edges: the first edge is taken, a
      later one only when it scores strictly more. */
  method BestEdge(g: Graph, vw: array<nat>, weight: Edge -> nat, v: nat) returns (best: nat, pos: nat)
    requires Ordered(g) && v < |g.nodes| && v <= vw.Length && |g.nodes[v].inEdges| > 0
    ensures (best, pos) == Best(g, weight, vw[..v], v, |g.nodes[v].inEdges|)
  {
    var ins := g.nodes[v].inEdges;
    var found := false;
    best, pos := 0, 0;
    var j := 0;
    while j < |ins|
      invariant 0 <= j <= |ins| && found == (j > 0)
      invariant found ==> (best, pos) == Best(g, weight, vw[..v], v, j)
    {
      var score := EdgeScore(vw, weight, g.edges[ins[j]], v);
      if !found || best < score {
        best, pos := score, j;
        found := true;
      }
      j := j + 1;
    }
  }

  /** The results of an edge's tail nodes, gathered in tail order. */
  method Gather<T>(vr: array<T>, e: Edge, v: nat) returns (ants: seq<T>)
    requires v <= vr.Length && TailsIn(e, v)
    ensures ants == Ants(e, vr[..v])
  {
    ants := [];
    var k := 0;
    while k < |e.tail|
      invariant 0 <= k <= |e.tail| && |ants| == k
      invariant forall p :: 0 <= p < k ==> ants[p] == vr[e.tail[p]]
    {
      ants := ants + [vr[e.tail[k]]];
      k := k + 1;
    }
  }

  /** The Viterbi search. It returns 0 and leaves `result` as it was on an
      empty hypergraph; otherwise it returns the weight of the last node and
      that node's traversal result. */
  method Search<T>(hg: Hypergraph, result: T, traverse: (Edge, seq<T>) -> T, weight: Edge -> nat, zero: T)
    returns (best: nat, result': T)
    requires Ordered(Graph(hg.nodes, hg.edges))
    ensures var g := Graph(hg.nodes, hg.edges); var n := |hg.nodes|;
      if n == 0 then best == 0 && result' == result
      else best == Weights(g, weight, n)[n - 1] && result' == Results(g, weight, traverse, zero, n)[n - 1]
  {
    var g := Graph(hg.nodes, hg.edges);
    var n := |g.nodes|;
    var vr := new T[n](_ => zero);
    var vw := new nat[n](_ => 0);
    for i := 0 to n
      invariant vw[..i] == Weights(g, weight, i)
      invariant vr[..i] == Results(g, weight, traverse, zero, i)
      invariant forall k :: i <= k < n ==> vr[k] == zero
    {
      if |g.nodes[i].inEdges| == 0 {
        vw[i] := 1;
      } else {
        var w, pos := BestEdge(g, vw, weight, i);
        vw[i] := w;
        var e := g.edges[g.nodes[i].inEdges[pos]];
        var ants := Gather(vr, e, i);
        vr[i] := traverse(e, ants);
      }
      assert vw[..i + 1] == vw[..i] + [vw[i]];
      assert vr[..i + 1] == vr[..i] + [vr[i]];
    }
    if n == 0 {
      best, result' := 0, result;
    } else {
      assert vw[..n][n - 1] == vw[n - 1] && vr[..n][n - 1] == vr[n - 1];
      best, result' := vw[n - 1], vr[n - 1];
    }
  }

  /** The sum of a sequence of integers. */
  function Sum(xs: seq<int>): int
  {
    if xs == [] then 0 else Sum(xs[..|xs| - 1]) + xs[|xs| - 1]
  }

  /** The concatenation of a sequence of sequences. */
  function Concat<T>(xss: seq<seq<T>>): seq<T>
  {
    if xss == [] then [] else Concat(xss[..|xss| - 1]) + xss[|xss| - 1]
  }

  /** The number of edges of the derivation: one for the edge plus the
      antecedents' counts. */
  function PathLength(e: Edge, ants: seq<int>): int
  {
    1 + Sum(ants)
  }

  /** The target length: the edge's target-side length minus its arity,
      plus the antecedents' lengths. */
  function ELength(e: Edge, ants: seq<int>): int
  {
    |e.rule.e| - e.rule.arity + Sum(ants)
  }

  /** The edges of the derivation: the antecedents' paths in tail order,
      then the edge itself. */
  function ViterbiPath(e: Edge, ants: seq<seq<Edge>>): (path: seq<Edge>)
    ensures |path| > 0 && path[|path| - 1] == e
  {
    Concat(ants) + [e]
  }

  lemma {:induction false} ConcatLength<T>(xss: seq<seq<T>>, lens: seq<int>)
    requires |lens| == |xss| && forall k :: 0 <= k < |xss| ==> lens[k] == |xss[k]|
    ensures |Concat(xss)| == Sum(lens)
  {
    if xss != [] {
      ConcatLength(xss[..|xss| - 1], lens[..|lens| - 1]);
    }
  }

  /** A path built over antecedent paths has one edge more than the
      antecedents' path lengths add up to. */
  lemma PathLengthAgrees(e: Edge, paths: seq<seq<Edge>>, lens: seq<int>)
    requires |lens| == |paths| && forall k :: 0 <= k < |paths| ==> lens[k] == |paths[k]|
    ensures |ViterbiPath(e, paths)| == PathLength(e, lens)
  {
    ConcatLength(paths, lens);
  }

  /** For every node, the Viterbi path's length is the Viterbi path-length
      result: the two traversals see the same best edges. */
  lemma {:induction false} ViterbiPathLength(g: Graph, weight: Edge -> nat, n: nat, v: nat)
    requires Ordered(g) && v < n <= |g.nodes|
    ensures |Results(g, weight, ViterbiPath, [], n)[v]| == Results(g, weight, PathLength, 0, n)[v]
  {
    var paths := Results(g, weight, ViterbiPath, [], n - 1);
    var lens := Results(g, weight, PathLength, 0, n - 1);
    if v < n - 1 {
      ViterbiPathLength(g, weight, n - 1, v);
    } else if |g.nodes[v].inEdges| > 0 {
      var e := Chosen(g, weight, Weights(g, weight, v), v);
      forall k | 0 <= k < |e.tail| ensures Ants(e, lens)[k] == |Ants(e, paths)[k]| {
        ViterbiPathLength(g, weight, n - 1, e.tail[k]);
      }
      PathLengthAgrees(e, Ants(e, paths), Ants(e, lens));
    }
  }

  /** The number of target terminals of a rule: its target symbols that are
      not nonterminal references (numbers <= 0). */
  function Terminals(e: seq<int>): nat
  {
    if e == [] then 0 else Terminals(e[..|e| - 1]) + (if e[|e| - 1] > 0 then 1 else 0)
  }

  /** The number of nonterminal references on a target side. */
  function NonTerminals(e: seq<int>): nat
  {
    if e == [] then 0 else NonTerminals(e[..|e| - 1]) + (if e[|e| - 1] > 0 then 0 else 1)
  }

  lemma {:induction false} TerminalsSplit(e: seq<int>)
    ensures Terminals(e) + NonTerminals(e) == |e|
  {
    if e != [] {
      TerminalsSplit(e[..|e| - 1]);
    }
  }

  /** When the arity counts the target side's nonterminal references, the
      target length is the rule's target terminals plus the antecedents'
      lengths. */
  lemma ELengthCountsTerminals(e: Edge, ants: seq<int>)
    requires e.rule.arity == NonTerminals(e.rule.e)
    ensures ELength(e, ants) == Terminals(e.rule.e) + Sum(ants)
  {
    TerminalsSplit(e.rule.e);
  }
}
