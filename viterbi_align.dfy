/** The alignment variant of the Viterbi search: the same best-edge
    selection, plus per-node counts of source and target words, and an
    alignment built by a traversal that also sees the antecedents' word
    counts. Also the comparison used to sort alignment points. */
module ViterbiAlignment {
  import opened Forest
  import opened Viterbi

  /** A link between source position `s` and target position `t`. */
  datatype AlignmentPoint = AlignmentPoint(s: int, t: int)

  type AlignPair = (int, int)

  /** Source and target word counts of a node's best derivation. */
  datatype Count = Count(f: int, e: int)

  /** The alignment traversal: best edge, antecedent alignments, antecedent
      source and target word counts. */
  type AlignTraversal = (Edge, seq<seq<AlignPair>>, seq<int>, seq<int>) -> seq<AlignPair>

  /** The sums of the counts of the edge's tail nodes. */
  function SumCounts(tail: seq<nat>, c: seq<Count>): Count
    requires forall k :: 0 <= k < |tail| ==> tail[k] < |c|
  {
    if tail == [] then Count(0, 0)
    else
      var rest := SumCounts(tail[..|tail| - 1], c);
      var last := c[tail[|tail| - 1]];
      Count(rest.f + last.f, rest.e + last.e)
  }

  /** The counts of node v: zero without incoming edges, else the tail
      nodes' counts plus the rule's source (target) length minus the number
      of tail nodes. */
  function NodeCount(g: Graph, weight: Edge -> nat, c: seq<Count>, v: nat): Count
    requires Ordered(g) && v < |g.nodes| && v <= |c|
  {
    if |g.nodes[v].inEdges| == 0 then Count(0, 0)
    else
      var e := Chosen(g, weight, Weights(g, weight, v), v);
      var sum := SumCounts(e.tail, c);
      Count(sum.f + |e.rule.f| - |e.tail|, sum.e + |e.rule.e| - |e.tail|)
  }

  /** The counts of the first n nodes. */
  function Counts(g: Graph, weight: Edge -> nat, n: nat): (c: seq<Count>)
    requires Ordered(g) && n <= |g.nodes|
    ensures |c| == n
  {
    if n == 0 then []
    else
      var c := Counts(g, weight, n - 1);
      c + [NodeCount(g, weight, c, n - 1)]
  }

  /** The source words the search counts for every non-leaf node equal the
      width of its best edge's span. */
  predicate SpansMatch(g: Graph, weight: Edge -> nat)
    requires Ordered(g)
  {
    forall v :: 0 <= v < |g.nodes| && |g.nodes[v].inEdges| > 0 ==>
      NodeCount(g, weight, Counts(g, weight, v), v).f ==
        Chosen(g, weight, Weights(g, weight, v), v).j - Chosen(g, weight, Weights(g, weight, v), v).i
  }

  /** The alignments of the first n nodes: empty without incoming edges,
      else the traversal of the best edge. */
  function Alignments(g: Graph, weight: Edge -> nat, traverse: AlignTraversal, n: nat): (a: seq<seq<AlignPair>>)
    requires Ordered(g) && n <= |g.nodes|
    ensures |a| == n
  {
    if n == 0 then []
    else
      var a := Alignments(g, weight, traverse, n - 1);
      var v := n - 1;
      if |g.nodes[v].inEdges| == 0 then a + [[]]
      else
        a + [NodeAlignment(g, weight, traverse, a, v)]
  }

  /** The source word counts of the edge's tail nodes, in tail order. */
  function FWords(e: Edge, c: seq<Count>): (r: seq<int>)
    requires TailsIn(e, |c|)
    ensures |r| == |e.tail| && forall k :: 0 <= k < |e.tail| ==> r[k] == c[e.tail[k]].f
  {
    seq(|e.tail|, k requires 0 <= k < |e.tail| => c[e.tail[k]].f)
  }

  /** The target word counts of the edge's tail nodes, in tail order. */
  function EWords(e: Edge, c: seq<Count>): (r: seq<int>)
    requires TailsIn(e, |c|)
    ensures |r| == |e.tail| && forall k :: 0 <= k < |e.tail| ==> r[k] == c[e.tail[k]].e
  {
    seq(|e.tail|, k requires 0 <= k < |e.tail| => c[e.tail[k]].e)
  }

  /** The sums of the tail nodes' counts, read from the count arrays. */
  method SumTail(vf: array<int>, ve: array<int>, e: Edge, v: nat, ghost c: seq<Count>)
    returns (f: int, ew: int)
    requires v <= vf.Length && v <= ve.Length && TailsIn(e, v) && |c| == v
    requires forall u :: 0 <= u < v ==> c[u] == Count(vf[u], ve[u])
    ensures Count(f, ew) == SumCounts(e.tail, c)
  {
    f, ew := 0, 0;
    var k := 0;
    while k < |e.tail|
      invariant 0 <= k <= |e.tail| && Count(f, ew) == SumCounts(e.tail[..k], c)
    {
      assert e.tail[..k + 1][..k] == e.tail[..k];
      f := f + vf[e.tail[k]];
      ew := ew + ve[e.tail[k]];
      k := k + 1;
    }
    assert e.tail[..k] == e.tail;
  }

  /** The alignment node v gets from its best edge. */
  function NodeAlignment(g: Graph, weight: Edge -> nat, traverse: AlignTraversal, a: seq<seq<AlignPair>>, v: nat): seq<AlignPair>
    requires Ordered(g) && v < |g.nodes| && v <= |a| && |g.nodes[v].inEdges| > 0
  {
    var e := Chosen(g, weight, Weights(g, weight, v), v);
    var c := Counts(g, weight, v);
    traverse(e, Ants(e, a), FWords(e, c), EWords(e, c))
  }

  /** The work for a node with incoming edges: its best edge and weight,
      its word counts (checked against the edge's span) and its alignment,
      all read from the arrays of the nodes before it. */
  method AlignNode(g: Graph, vw: array<nat>, vf: array<int>, ve: array<int>, va: array<seq<AlignPair>>,
                   weight: Edge -> nat, traverse: AlignTraversal, v: nat, ghost c: seq<Count>)
    returns (w: nat, f: int, ew: int, a: seq<AlignPair>)
    requires Ordered(g) && SpansMatch(g, weight) && v < |g.nodes| && |g.nodes[v].inEdges| > 0
    requires v <= vw.Length && v <= vf.Length && v <= ve.Length && v <= va.Length
    requires vw[..v] == Weights(g, weight, v) && va[..v] == Alignments(g, weight, traverse, v)
    requires c == Counts(g, weight, v) && forall u :: 0 <= u < v ==> c[u] == Count(vf[u], ve[u])
    ensures w == NodeWeight(g, weight, Weights(g, weight, v), v)
    ensures Count(f, ew) == NodeCount(g, weight, c, v)
    ensures a == NodeAlignment(g, weight, traverse, va[..v], v)
  {
    var pos;
    w, pos := BestEdge(g, vw, weight, v);
    var e := g.edges[g.nodes[v].inEdges[pos]];
    f, ew := SumTail(vf, ve, e, v, c);
    f := f + |e.rule.f| - |e.tail|;
    ew := ew + |e.rule.e| - |e.tail|;
    assert f == e.j - e.i;
    var ants := Gather(va, e, v);
    var antsF := GatherInts(vf, e, v);
    var antsE := GatherInts(ve, e, v);
    assert antsF == FWords(e, c) && antsE == EWords(e, c);
    a := traverse(e, ants, antsF, antsE);
  }

  /** Appends the items of `best` to `align` one at a time. */
  method AppendAll(align: seq<AlignPair>, best: seq<AlignPair>) returns (align': seq<AlignPair>)
    ensures align' == align + best
  {
    align' := align;
    var k := 0;
    while k < |best|
      invariant 0 <= k <= |best| && align' == align + best[..k]
    {
      align' := align' + [best[k]];
      k := k + 1;
      assert best[..k] == best[..k - 1] + [best[k - 1]];
    }
    assert best[..k] == best;
  }

  /** The search's arrays after its first i nodes: weights, alignments and
      counts as the specification computes them, the rest untouched. */
  ghost predicate FilledUpTo(g: Graph, weight: Edge -> nat, traverse: AlignTraversal,
                             vw: array<nat>, vf: array<int>, ve: array<int>, va: array<seq<AlignPair>>,
                             c: seq<Count>, i: nat)
    reads vw, vf, ve, va
    requires Ordered(g)
  {
    Filled(g, weight, traverse, vw[..], vf[..], ve[..], va[..], c, i)
  }

  /** The same, on the arrays' contents. */
  ghost predicate Filled(g: Graph, weight: Edge -> nat, traverse: AlignTraversal,
                         w: seq<nat>, f: seq<int>, e: seq<int>, a: seq<seq<AlignPair>>,
                         c: seq<Count>, i: nat)
    requires Ordered(g)
  {
    var n := |g.nodes|;
    i <= n && |w| == |f| == |e| == |a| == n &&
    w[..i] == Weights(g, weight, i) && a[..i] == Alignments(g, weight, traverse, i) &&
    c == Counts(g, weight, i) && (forall u :: 0 <= u < i ==> c[u] == Count(f[u], e[u])) &&
    (forall k :: i <= k < n ==> a[k] == [] && f[k] == 0 && e[k] == 0)
  }

  /** Storing node i's weight, counts and alignment extends the filled
      prefix by one node. */
  lemma FilledStep(g: Graph, weight: Edge -> nat, traverse: AlignTraversal,
                   w: seq<nat>, f: seq<int>, e: seq<int>, a: seq<seq<AlignPair>>,
                   c: seq<Count>, i: nat, wi: nat, fi: int, ei: int, ai: seq<AlignPair>)
    requires Ordered(g) && i < |g.nodes| && Filled(g, weight, traverse, w, f, e, a, c, i)
    requires wi == NodeWeight(g, weight, Weights(g, weight, i), i)
    requires Count(fi, ei) == NodeCount(g, weight, c, i)
    requires |g.nodes[i].inEdges| > 0 ==> ai == NodeAlignment(g, weight, traverse, a[..i], i)
    requires |g.nodes[i].inEdges| == 0 ==> ai == []
    ensures Filled(g, weight, traverse, w[i := wi], f[i := fi], e[i := ei], a[i := ai], c + [Count(fi, ei)], i + 1)
  {
    assert w[i := wi][..i + 1] == w[..i] + [wi];
    assert a[i := ai][..i + 1] == a[..i] + [ai];
  }

  /** One node of the search. */
  method SearchNode(g: Graph, vw: array<nat>, vf: array<int>, ve: array<int>, va: array<seq<AlignPair>>,
                    weight: Edge -> nat, traverse: AlignTraversal, i: nat, ghost c: seq<Count>)
    returns (ghost c': seq<Count>)
    requires Ordered(g) && SpansMatch(g, weight) && i < |g.nodes| && vf != ve
    requires FilledUpTo(g, weight, traverse, vw, vf, ve, va, c, i)
    modifies vw, vf, ve, va
    ensures FilledUpTo(g, weight, traverse, vw, vf, ve, va, c', i + 1)
  {
    ghost var w0, f0, e0, a0 := vw[..], vf[..], ve[..], va[..];
    if |g.nodes[i].inEdges| == 0 {
      vw[i] := 1;
    } else {
      var w, f, ew, a := AlignNode(g, vw, vf, ve, va, weight, traverse, i, c);
      vw[i], vf[i], ve[i], va[i] := w, f, ew, a;
    }
    assert vw[..] == w0[i := vw[i]] && vf[..] == f0[i := vf[i]];
    assert ve[..] == e0[i := ve[i]] && va[..] == a0[i := va[i]];
    FilledStep(g, weight, traverse, w0, f0, e0, a0, c, i, vw[i], vf[i], ve[i], va[i]);
    c' := c + [Count(vf[i], ve[i])];
  }

  /** The search for the best alignment. On an empty hypergraph `align` is
      returned unchanged; otherwise the last node's alignment is appended to
      it. The source word count of every best edge must equal its span's
      width. */
  method SearchAlignment(hg: Hypergraph, align: seq<AlignPair>, traverse: AlignTraversal, weight: Edge -> nat)
    returns (align': seq<AlignPair>)
    requires Ordered(Graph(hg.nodes, hg.edges)) && SpansMatch(Graph(hg.nodes, hg.edges), weight)
    ensures var g := Graph(hg.nodes, hg.edges); var n := |hg.nodes|;
      if n == 0 then align' == align
      else align' == align + Alignments(g, weight, traverse, n)[n - 1]
  {
    var g := Graph(hg.nodes, hg.edges);
    var n := |g.nodes|;
    var va := new seq<AlignPair>[n](_ => []);
    var vf := new int[n](_ => 0);
    var ve := new int[n](_ => 0);
    var vw := new nat[n](_ => 0);
    ghost var c: seq<Count> := [];
    for i := 0 to n
      invariant FilledUpTo(g, weight, traverse, vw, vf, ve, va, c, i)
    {
      c := SearchNode(g, vw, vf, ve, va, weight, traverse, i, c);
    }
    if n == 0 {
      align' := align;
    } else {
      assert va[..n][n - 1] == va[n - 1];
      align' := AppendAll(align, va[n - 1]);
    }
  }

  /** The integers of an edge's tail nodes, gathered in tail order. */
  method GatherInts(a: array<int>, e: Edge, v: nat) returns (r: seq<int>)
    requires v <= a.Length && TailsIn(e, v)
    ensures |r| == |e.tail| && forall k :: 0 <= k < |e.tail| ==> r[k] == a[e.tail[k]]
  {
    r := Gather(a, e, v);
  }

  /** The width of node v's span, read from its first incoming edge; zero
      for a node without incoming edges. */
  function Width(g: Graph, v: nat): int
    requires Ordered(g) && v < |g.nodes|
  {
    if |g.nodes[v].inEdges| == 0 then 0 else InEdge(g, v, 0).j - InEdge(g, v, 0).i
  }

  /** The sum of the tail nodes' widths. */
  function SumWidths(g: Graph, tail: seq<nat>): int
    requires Ordered(g) && forall k :: 0 <= k < |tail| ==> tail[k] < |g.nodes|
  {
    if tail == [] then 0 else SumWidths(g, tail[..|tail| - 1]) + Width(g, tail[|tail| - 1])
  }

  /** A well-formed forest: all incoming edges of a node share its span,
      and each edge's span covers its rule's source terminals plus its tail
      nodes' spans. */
  predicate SpanConsistent(g: Graph)
  {
    Ordered(g) &&
    forall v, q :: 0 <= v < |g.nodes| && 0 <= q < |g.nodes[v].inEdges| ==> EdgeSpanOk(g, v, q)
  }

  /** Node v's q-th incoming edge has the node's width, made of its rule's
      source terminals and its tail nodes' widths. */
  predicate EdgeSpanOk(g: Graph, v: nat, q: nat)
    requires Ordered(g) && v < |g.nodes| && q < |g.nodes[v].inEdges|
  {
    var e := InEdge(g, v, q);
    e.j - e.i == Width(g, v) && e.j - e.i == |e.rule.f| - |e.tail| + SumWidths(g, e.tail)
  }

  lemma {:induction false} SumCountsWidths(g: Graph, tail: seq<nat>, c: seq<Count>)
    requires Ordered(g) && |c| <= |g.nodes| && forall k :: 0 <= k < |tail| ==> tail[k] < |c|
    requires forall u :: 0 <= u < |c| ==> c[u].f == Width(g, u)
    ensures SumCounts(tail, c).f == SumWidths(g, tail)
  {
    if tail != [] {
      SumCountsWidths(g, tail[..|tail| - 1], c);
    }
  }

  /** On a well-formed forest the source word count of every node is the
      width of its span, whatever the weights. */
  lemma {:induction false} CountsAreWidths(g: Graph, weight: Edge -> nat, n: nat)
    requires SpanConsistent(g) && n <= |g.nodes|
    ensures forall u :: 0 <= u < n ==> Counts(g, weight, n)[u].f == Width(g, u)
  {
    if n > 0 {
      CountsAreWidths(g, weight, n - 1);
      var c := Counts(g, weight, n - 1);
      var v := n - 1;
      assert Counts(g, weight, n) == c + [NodeCount(g, weight, c, v)];
      NodeCountIsWidth(g, weight, c, v);
      forall u | 0 <= u < n ensures Counts(g, weight, n)[u].f == Width(g, u) {
        if u < v {
          assert Counts(g, weight, n)[u] == c[u];
        }
      }
    }
  }

  /** A node whose tail nodes' counts are their widths has its own width
      as count. */
  lemma NodeCountIsWidth(g: Graph, weight: Edge -> nat, c: seq<Count>, v: nat)
    requires SpanConsistent(g) && v < |g.nodes| && |c| == v
    requires forall u :: 0 <= u < v ==> c[u].f == Width(g, u)
    ensures NodeCount(g, weight, c, v).f == Width(g, v)
  {
    if |g.nodes[v].inEdges| > 0 {
      var q := Best(g, weight, Weights(g, weight, v), v, |g.nodes[v].inEdges|).1;
      var e := InEdge(g, v, q);
      assert EdgeSpanOk(g, v, q);
      SumCountsWidths(g, e.tail, c);
    }
  }

  /** A well-formed forest passes the search's word-count check under any
      weight function. */
  lemma ConsistentSpansMatch(g: Graph, weight: Edge -> nat)
    requires SpanConsistent(g)
    ensures SpansMatch(g, weight)
  {
    forall v | 0 <= v < |g.nodes| && |g.nodes[v].inEdges| > 0
      ensures NodeCount(g, weight, Counts(g, weight, v), v).f ==
        Chosen(g, weight, Weights(g, weight, v), v).j - Chosen(g, weight, Weights(g, weight, v), v).i
    {
      CountsAreWidths(g, weight, v);
      var q := Best(g, weight, Weights(g, weight, v), v, |g.nodes[v].inEdges|).1;
      var e := InEdge(g, v, q);
      assert EdgeSpanOk(g, v, q);
      SumCountsWidths(g, e.tail, Counts(g, weight, v));
    }
  }

  /** The comparison as written: by target position, then by source
      position, answering true when both are equal. */
  predicate AlignLessAsWritten(p: AlignmentPoint, q: AlignmentPoint)
  {
    if p.t < q.t then true
    else if p.t > q.t then false
    else if p.s > q.s then false
    else true
  }

  /** The strict order the sort needs: by target position, then by source
      position. */
  predicate AlignLess(p: AlignmentPoint, q: AlignmentPoint)
  {
    p.t < q.t || (p.t == q.t && p.s < q.s)
  }

  /** The comparison as written is not irreflexive: it puts every point
      before itself, so it is not the strict weak order a sort requires. */
  lemma AlignLessAsWrittenReflexive(p: AlignmentPoint)
    ensures AlignLessAsWritten(p, p) && !AlignLess(p, p)
  {
  }

  /** The comparison as written is the strict order or equality. */
  lemma AlignLessAsWrittenIsNonStrict(p: AlignmentPoint, q: AlignmentPoint)
    ensures AlignLessAsWritten(p, q) <==> AlignLess(p, q) || p == q
  {
  }

  /** The corrected comparison is a strict total order on points:
      irreflexive, transitive, and exactly one of p < q, q < p, p == q. */
  lemma AlignLessStrictTotal(p: AlignmentPoint, q: AlignmentPoint, r: AlignmentPoint)
    ensures !AlignLess(p, p)
    ensures AlignLess(p, q) && AlignLess(q, r) ==> AlignLess(p, r)
    ensures AlignLess(p, q) || AlignLess(q, p) || p == q
    ensures !(AlignLess(p, q) && AlignLess(q, p))
  {
  }
}
