/** The passive chart's state as a value: the forest's nodes and edges, the
    node lists and category maps of every span, and the goal node. The
    parser's objects are read into this value, and what `ApplyRule` does
    to it is stated and proved here. */
module ChartStates {
  import opened Forest
  import opened ActiveCharts

  /** What a parse is fixed by: the number of lattice positions `n`, the
      goal category, the `[Goal]` label and the goal rule. */
  datatype Setting = Setting(n: nat, goalCat: int, goalLabel: int, goalRule: Rule)

  datatype ChartState = ChartState(nodes: seq<Node>, edges: seq<Edge>,
                                   chart: seq<seq<seq<nat>>>, nodemap: seq<seq<map<int, nat>>>,
                                   goalIdx: int)

  /** Replaces entry (i, j) of a grid. */
  function Set2<T>(grid: seq<seq<T>>, i: nat, j: nat, v: T): (r: seq<seq<T>>)
    requires i < |grid| && j < |grid[i]|
    ensures |r| == |grid| && (forall x :: 0 <= x < |grid| ==> |r[x]| == |grid[x]|) && r[i][j] == v
    ensures forall x, y :: 0 <= x < |grid| && 0 <= y < |grid[x]| && (x != i || y != j) ==> r[x][y] == grid[x][y]
  {
    grid[i := grid[i][j := v]]
  }

  /** `st'` extends `st`: nodes keep their categories, edges are only
      appended, every node list is only extended and every category map
      keeps its entries. */
  predicate Grows(st: ChartState, st': ChartState, n: nat)
  {
    GridShape(st, n) && GridShape(st', n) &&
    |st.nodes| <= |st'.nodes| && (forall v :: 0 <= v < |st.nodes| ==> st'.nodes[v].cat == st.nodes[v].cat) &&
    st.edges <= st'.edges &&
    (forall x, y :: 0 <= x <= n && 0 <= y <= n ==> st.chart[x][y] <= st'.chart[x][y]) &&
    (forall x, y, c :: 0 <= x <= n && 0 <= y <= n && c in st.nodemap[x][y] ==>
      c in st'.nodemap[x][y] && st'.nodemap[x][y][c] == st.nodemap[x][y][c])
  }

  /** Only the cells of span (i, j) differ. */
  predicate SameOutside(st: ChartState, st': ChartState, n: nat, i: int, j: int)
    requires GridShape(st, n) && GridShape(st', n)
  {
    forall x, y :: 0 <= x <= n && 0 <= y <= n && (x != i || y != j) ==>
      st'.chart[x][y] == st.chart[x][y] && st'.nodemap[x][y] == st.nodemap[x][y]
  }

  lemma GrowsTrans(a: ChartState, b: ChartState, c: ChartState, n: nat)
    requires Grows(a, b, n) && Grows(b, c, n)
    ensures Grows(a, c, n)
  {
  }

  /** A size x size grid holding `v` everywhere. */
  function Filled<T>(size: nat, v: T): (r: seq<seq<T>>)
    ensures |r| == size && forall x :: 0 <= x < size ==> |r[x]| == size
    ensures forall x, y :: 0 <= x < size && 0 <= y < size ==> r[x][y] == v
  {
    seq(size, x => seq(size, y => v))
  }

  predicate GridShape(st: ChartState, n: nat)
  {
    |st.chart| == n + 1 && |st.nodemap| == n + 1 &&
    forall x :: 0 <= x <= n ==> |st.chart[x]| == n + 1 && |st.nodemap[x]| == n + 1
  }

  /** The category map of a span sends a category to a node of that category. */
  predicate NodeMapOk(st: ChartState, n: nat)
    requires GridShape(st, n)
  {
    forall x, y, c :: 0 <= x <= n && 0 <= y <= n && c in st.nodemap[x][y] ==>
      st.nodemap[x][y][c] < |st.nodes| && st.nodes[st.nodemap[x][y][c]].cat == c
  }

  /** The node list of a span holds exactly the non-goal nodes of its
      category map, each once. */
  predicate ChartOk(st: ChartState, s: Setting)
    requires GridShape(st, s.n)
  {
    (forall x, y, d :: 0 <= x <= s.n && 0 <= y <= s.n && 0 <= d < |st.chart[x][y]| ==>
      st.chart[x][y][d] < |st.nodes| &&
      st.nodes[st.chart[x][y][d]].cat != s.goalLabel &&
      st.nodes[st.chart[x][y][d]].cat in st.nodemap[x][y] &&
      st.nodemap[x][y][st.nodes[st.chart[x][y][d]].cat] == st.chart[x][y][d]) &&
    (forall x, y, d, d' :: 0 <= x <= s.n && 0 <= y <= s.n && 0 <= d < d' < |st.chart[x][y]| ==>
      st.chart[x][y][d] != st.chart[x][y][d']) &&
    (forall x, y, c :: 0 <= x <= s.n && 0 <= y <= s.n && c in st.nodemap[x][y] && c != s.goalLabel ==>
      st.nodemap[x][y][c] in st.chart[x][y])
  }

  /** The goal node, if any, is the `[Goal]` entry of span (0, n); no other
      span has one. */
  predicate GoalOk(st: ChartState, s: Setting)
    requires GridShape(st, s.n)
  {
    (st.goalIdx == -1 <==> s.goalLabel !in st.nodemap[0][s.n]) &&
    (st.goalIdx != -1 ==> st.nodemap[0][s.n][s.goalLabel] == st.goalIdx) &&
    (forall x, y :: 0 <= x <= s.n && 0 <= y <= s.n && (x != 0 || y != s.n) ==> s.goalLabel !in st.nodemap[x][y])
  }

  /** An edge spans (i, j) with i < j, its head is the node of its
      left-hand side for that span, its tails are nodes; a goal edge is the
      goal rule over (0, n) from one node of the goal category. */
  predicate EdgeOk(st: ChartState, s: Setting, ed: Edge)
    requires GridShape(st, s.n)
  {
    0 <= ed.i < ed.j <= s.n &&
    ed.rule.lhs in st.nodemap[ed.i][ed.j] && st.nodemap[ed.i][ed.j][ed.rule.lhs] == ed.head &&
    NodesIn(ed.tail, st.nodes) &&
    (ed.rule.lhs == s.goalLabel ==>
      ed.i == 0 && ed.j == s.n && ed.rule == s.goalRule && |ed.tail| == 1 &&
      st.nodes[ed.tail[0]].cat == s.goalCat && ed.tail[0] in st.chart[0][s.n])
  }

  predicate EdgesOk(st: ChartState, s: Setting)
    requires GridShape(st, s.n)
  {
    forall e :: 0 <= e < |st.edges| ==> EdgeOk(st, s, st.edges[e])
  }

  /** Every node has an incoming edge; the incoming edges of a node are
      the edges whose head it is. */
  predicate InEdgesOk(st: ChartState)
  {
    (forall v :: 0 <= v < |st.nodes| ==> |st.nodes[v].inEdges| >= 1) &&
    (forall v, q :: 0 <= v < |st.nodes| && 0 <= q < |st.nodes[v].inEdges| ==>
      st.nodes[v].inEdges[q] < |st.edges| && st.edges[st.nodes[v].inEdges[q]].head == v) &&
    (forall e :: 0 <= e < |st.edges| ==>
      0 <= st.edges[e].head < |st.nodes| && e in st.nodes[st.edges[e].head].inEdges)
  }

  predicate StateOk(st: ChartState, s: Setting)
  {
    GridShape(st, s.n) && NodeMapOk(st, s.n) && ChartOk(st, s) && GoalOk(st, s) &&
    EdgesOk(st, s) && InEdgesOk(st)
  }

  /** The state before anything is parsed. */
  function EmptyState(n: nat): (st: ChartState)
    ensures GridShape(st, n)
  {
    ChartState([], [], Filled(n + 1, []), Filled(n + 1, map[]), -1)
  }

  lemma EmptyStateOk(s: Setting)
    ensures StateOk(EmptyState(s.n), s)
  {
  }

  /** What a rule may be applied to: a span with i < j, antecedents that are
      nodes; the goal rule only over (0, n) from a node of the goal category
      found there. */
  predicate CanApply(st: ChartState, s: Setting, i: int, j: int, r: Rule, ants: seq<nat>)
    requires GridShape(st, s.n)
  {
    0 <= i < j <= s.n && NodesIn(ants, st.nodes) &&
    (r.lhs == s.goalLabel ==>
      i == 0 && j == s.n && r == s.goalRule && |ants| == 1 &&
      st.nodes[ants[0]].cat == s.goalCat && ants[0] in st.chart[0][s.n])
  }

  /** What `Apply` needs to be defined: a span of the chart, and the node a
      category maps to there is a node. */
  predicate ApplyPre(st: ChartState, s: Setting, i: int, j: int, r: Rule)
  {
    GridShape(st, s.n) && 0 <= i < j <= s.n &&
    (r.lhs in st.nodemap[i][j] ==> st.nodemap[i][j][r.lhs] < |st.nodes|)
  }

  /** Edge `ed` applies rule `r` over (i, j) to `tail` at lattice cost `cost`. */
  predicate EdgeIs(ed: Edge, r: Rule, tail: seq<nat>, i: int, j: int, cost: int)
  {
    ed.rule == r && ed.tail == tail && ed.i == i && ed.j == j && ed.latticeCost == cost
  }

  /** The effect of applying rule `r` over (i, j) with antecedents `ants`:
      one new edge, headed by the node of the rule's left-hand side for the
      span, created when there is none yet. */
  function Apply(st: ChartState, s: Setting, i: int, j: int, r: Rule, ants: seq<nat>, latticeCost: int): (st': ChartState)
    requires ApplyPre(st, s, i, j, r)
    ensures Grows(st, st', s.n) && SameOutside(st, st', s.n, i, j)
    ensures |st'.edges| == |st.edges| + 1
    ensures |st'.nodes| == |st.nodes| + (if r.lhs in st.nodemap[i][j] then 0 else 1)
    ensures EdgeIs(st'.edges[|st.edges|], r, ants, i, j, latticeCost)
    ensures st'.nodemap[i][j].Keys == st.nodemap[i][j].Keys + {r.lhs}
    ensures st'.nodemap[i][j].Keys == st.nodemap[i][j].Keys ==> st'.chart[i][j] == st.chart[i][j]
    ensures r.lhs != s.goalLabel ==> st'.goalIdx == st.goalIdx
  {
    var isNew := r.lhs !in st.nodemap[i][j];
    var head := if isNew then |st.nodes| else st.nodemap[i][j][r.lhs];
    var e := |st.edges|;
    var nodes := if isNew then st.nodes + [Node(r.lhs, [e])]
                 else st.nodes[head := st.nodes[head].(inEdges := st.nodes[head].inEdges + [e])];
    ChartState(nodes, st.edges + [Edge(r, ants, i, j, latticeCost, head)],
               if isNew && r.lhs != s.goalLabel then Set2(st.chart, i, j, st.chart[i][j] + [head]) else st.chart,
               Set2(st.nodemap, i, j, st.nodemap[i][j][r.lhs := head]),
               if isNew && r.lhs == s.goalLabel then head else st.goalIdx)
  }

  lemma ApplyNodeMapOk(st: ChartState, s: Setting, i: int, j: int, r: Rule, ants: seq<nat>, latticeCost: int)
    requires GridShape(st, s.n) && NodeMapOk(st, s.n) && 0 <= i < j <= s.n
    ensures NodeMapOk(Apply(st, s, i, j, r, ants, latticeCost), s.n)
  {
    var st' := Apply(st, s, i, j, r, ants, latticeCost);
    forall x, y, c | 0 <= x <= s.n && 0 <= y <= s.n && c in st'.nodemap[x][y]
      ensures st'.nodemap[x][y][c] < |st'.nodes| && st'.nodes[st'.nodemap[x][y][c]].cat == c
    {
    }
  }

  lemma ApplyChartOk(st: ChartState, s: Setting, i: int, j: int, r: Rule, ants: seq<nat>, latticeCost: int)
    requires StateOk(st, s) && CanApply(st, s, i, j, r, ants)
    ensures ChartOk(Apply(st, s, i, j, r, ants, latticeCost), s)
  {
    var st' := Apply(st, s, i, j, r, ants, latticeCost);
    var isNew := r.lhs !in st.nodemap[i][j];
    forall x, y, d | 0 <= x <= s.n && 0 <= y <= s.n && 0 <= d < |st'.chart[x][y]|
      ensures st'.chart[x][y][d] < |st'.nodes| &&
        st'.nodes[st'.chart[x][y][d]].cat != s.goalLabel &&
        st'.nodes[st'.chart[x][y][d]].cat in st'.nodemap[x][y] &&
        st'.nodemap[x][y][st'.nodes[st'.chart[x][y][d]].cat] == st'.chart[x][y][d]
    {
      if (x != i || y != j) || d < |st.chart[i][j]| {
        assert st'.chart[x][y][d] == st.chart[x][y][d];
      }
    }
    forall x, y, d, d' | 0 <= x <= s.n && 0 <= y <= s.n && 0 <= d < d' < |st'.chart[x][y]|
      ensures st'.chart[x][y][d] != st'.chart[x][y][d']
    {
      if (x != i || y != j) || d' < |st.chart[i][j]| {
        assert st'.chart[x][y][d] == st.chart[x][y][d];
        assert st'.chart[x][y][d'] == st.chart[x][y][d'];
      } else {
        assert st'.chart[x][y][d] == st.chart[x][y][d];
      }
    }
    forall x, y, c | 0 <= x <= s.n && 0 <= y <= s.n && c in st'.nodemap[x][y] && c != s.goalLabel
      ensures st'.nodemap[x][y][c] in st'.chart[x][y]
    {
      if x == i && y == j && c != r.lhs {
        assert st.nodemap[x][y][c] in st.chart[x][y];
      }
    }
  }

  lemma ApplyGoalOk(st: ChartState, s: Setting, i: int, j: int, r: Rule, ants: seq<nat>, latticeCost: int)
    requires StateOk(st, s) && CanApply(st, s, i, j, r, ants)
    ensures GoalOk(Apply(st, s, i, j, r, ants, latticeCost), s)
  {
  }

  lemma ApplyEdgesOk(st: ChartState, s: Setting, i: int, j: int, r: Rule, ants: seq<nat>, latticeCost: int)
    requires StateOk(st, s) && CanApply(st, s, i, j, r, ants)
    ensures EdgesOk(Apply(st, s, i, j, r, ants, latticeCost), s)
  {
  }

  lemma ApplyInEdgesOk(st: ChartState, s: Setting, i: int, j: int, r: Rule, ants: seq<nat>, latticeCost: int)
    requires StateOk(st, s) && CanApply(st, s, i, j, r, ants)
    ensures InEdgesOk(Apply(st, s, i, j, r, ants, latticeCost))
  {
    var st' := Apply(st, s, i, j, r, ants, latticeCost);
    var e := |st.edges|;
    var head := st'.edges[e].head;
    var prev := if head < |st.nodes| then st.nodes[head].inEdges else [];
    assert head < |st'.nodes| && st'.nodes[head].inEdges == prev + [e] by {
      if r.lhs in st.nodemap[i][j] {
        assert head == st.nodemap[i][j][r.lhs];
      } else {
        assert head == |st.nodes|;
      }
    }
    forall v | 0 <= v < |st'.nodes| ensures |st'.nodes[v].inEdges| >= 1 {
      if v != head {
        assert st'.nodes[v] == st.nodes[v];
      }
    }
    forall v, q | 0 <= v < |st'.nodes| && 0 <= q < |st'.nodes[v].inEdges|
      ensures st'.nodes[v].inEdges[q] < |st'.edges| && st'.edges[st'.nodes[v].inEdges[q]].head == v
    {
      if v != head {
        assert st'.nodes[v] == st.nodes[v];
        assert st'.edges[st.nodes[v].inEdges[q]] == st.edges[st.nodes[v].inEdges[q]];
      } else if q < |prev| {
        assert st'.nodes[v].inEdges[q] == st.nodes[v].inEdges[q];
        assert st'.edges[st.nodes[v].inEdges[q]] == st.edges[st.nodes[v].inEdges[q]];
      }
    }
    forall x | 0 <= x < |st'.edges|
      ensures 0 <= st'.edges[x].head < |st'.nodes| && x in st'.nodes[st'.edges[x].head].inEdges
    {
      if x < e {
        assert st'.edges[x] == st.edges[x];
        var h := st.edges[x].head;
        if h == head {
          assert x in st.nodes[h].inEdges;
        } else {
          assert st'.nodes[h] == st.nodes[h];
        }
      }
    }
  }

  /** Applying a rule keeps the chart's invariant. */
  lemma ApplyKeepsOk(st: ChartState, s: Setting, i: int, j: int, r: Rule, ants: seq<nat>, latticeCost: int)
    requires StateOk(st, s) && CanApply(st, s, i, j, r, ants)
    ensures StateOk(Apply(st, s, i, j, r, ants, latticeCost), s)
  {
    ApplyNodeMapOk(st, s, i, j, r, ants, latticeCost);
    ApplyChartOk(st, s, i, j, r, ants, latticeCost);
    ApplyGoalOk(st, s, i, j, r, ants, latticeCost);
    ApplyEdgesOk(st, s, i, j, r, ants, latticeCost);
    ApplyInEdgesOk(st, s, i, j, r, ants, latticeCost);
  }

  /** The left-hand sides of a list of rules. */
  function RuleLhs(rules: seq<Rule>): set<int>
  {
    set k | 0 <= k < |rules| :: rules[k].lhs
  }

  /** Applying every rule of a bin in order over (i, j) with the same
      antecedents and lattice cost (the loop of `ApplyRules`). */
  function ApplyAll(st: ChartState, s: Setting, i: int, j: int, rules: seq<Rule>, tail: seq<nat>, latticeCost: int): (st': ChartState)
    requires GridShape(st, s.n) && NodeMapOk(st, s.n) && 0 <= i < j <= s.n
    ensures GridShape(st', s.n) && NodeMapOk(st', s.n) && |st.nodes| <= |st'.nodes|
    decreases |rules|
  {
    if rules == [] then st
    else
      var mid := ApplyAll(st, s, i, j, rules[..|rules| - 1], tail, latticeCost);
      ApplyNodeMapOk(mid, s, i, j, rules[|rules| - 1], tail, latticeCost);
      Apply(mid, s, i, j, rules[|rules| - 1], tail, latticeCost)
  }

  /** Applying a bin of non-goal rules to nodes keeps the chart's invariant. */
  lemma {:induction false} ApplyAllOk(st: ChartState, s: Setting, i: int, j: int, rules: seq<Rule>, tail: seq<nat>, latticeCost: int)
    requires StateOk(st, s) && 0 <= i < j <= s.n && NodesIn(tail, st.nodes)
    requires forall k :: 0 <= k < |rules| ==> rules[k].lhs != s.goalLabel
    ensures StateOk(ApplyAll(st, s, i, j, rules, tail, latticeCost), s)
    decreases |rules|
  {
    if rules != [] {
      var front := rules[..|rules| - 1];
      ApplyAllOk(st, s, i, j, front, tail, latticeCost);
      var mid := ApplyAll(st, s, i, j, front, tail, latticeCost);
      ApplyKeepsOk(mid, s, i, j, rules[|rules| - 1], tail, latticeCost);
    }
  }

  /** What `ApplyAll` does, as `AppliedAll` states it. */
  lemma {:induction false} ApplyAllApplied(st: ChartState, s: Setting, i: int, j: int, rules: seq<Rule>, tail: seq<nat>, latticeCost: int)
    requires GridShape(st, s.n) && NodeMapOk(st, s.n) && 0 <= i < j <= s.n
    requires forall k :: 0 <= k < |rules| ==> rules[k].lhs != s.goalLabel
    ensures AppliedAll(st, ApplyAll(st, s, i, j, rules, tail, latticeCost), s, i, j, rules, tail, latticeCost)
    decreases |rules|
  {
    if rules == [] {
      assert RuleLhs(rules) == {};
    } else {
      var front := rules[..|rules| - 1];
      ApplyAllApplied(st, s, i, j, front, tail, latticeCost);
      var mid := ApplyAll(st, s, i, j, front, tail, latticeCost);
      ApplyAllStep(st, mid, s, i, j, rules, tail, latticeCost);
    }
  }

  /** `ApplyAll` over one more rule is `Apply` of that rule afterwards. */
  lemma ApplyAllSnoc(st: ChartState, s: Setting, i: int, j: int, rules: seq<Rule>, k: nat, tail: seq<nat>, latticeCost: int)
    requires GridShape(st, s.n) && NodeMapOk(st, s.n) && 0 <= i < j <= s.n && NodesIn(tail, st.nodes) && k < |rules|
    requires rules[k].lhs != s.goalLabel
    ensures var mid := ApplyAll(st, s, i, j, rules[..k], tail, latticeCost);
      CanApply(mid, s, i, j, rules[k], tail) &&
      ApplyAll(st, s, i, j, rules[..k + 1], tail, latticeCost) == Apply(mid, s, i, j, rules[k], tail, latticeCost)
  {
    assert rules[..k + 1][..k] == rules[..k];
  }

  /** What applying a bin of non-goal rules in order does: the state only
      grows, only at (i, j), the goal is untouched, there is one edge per
      rule in order, and the span's categories gain the rules' left-hand
      sides (its node list growing only with new categories). */
  predicate AppliedAll(st: ChartState, st': ChartState, s: Setting, i: int, j: int, rules: seq<Rule>, tail: seq<nat>, latticeCost: int)
    requires GridShape(st, s.n) && 0 <= i < j <= s.n
  {
    Grows(st, st', s.n) && SameOutside(st, st', s.n, i, j) && st'.goalIdx == st.goalIdx &&
    |st'.edges| == |st.edges| + |rules| &&
    (forall k :: 0 <= k < |rules| ==> EdgeIs(st'.edges[|st.edges| + k], rules[k], tail, i, j, latticeCost)) &&
    st'.nodemap[i][j].Keys == st.nodemap[i][j].Keys + RuleLhs(rules) &&
    (st'.nodemap[i][j].Keys == st.nodemap[i][j].Keys ==> st'.chart[i][j] == st.chart[i][j])
  }

  lemma ApplyAllStep(st: ChartState, mid: ChartState, s: Setting, i: int, j: int, rules: seq<Rule>, tail: seq<nat>, latticeCost: int)
    requires GridShape(st, s.n) && |rules| > 0 && ApplyPre(mid, s, i, j, rules[|rules| - 1])
    requires rules[|rules| - 1].lhs != s.goalLabel
    requires AppliedAll(st, mid, s, i, j, rules[..|rules| - 1], tail, latticeCost)
    ensures AppliedAll(st, Apply(mid, s, i, j, rules[|rules| - 1], tail, latticeCost), s, i, j, rules, tail, latticeCost)
  {
    var front, r := rules[..|rules| - 1], rules[|rules| - 1];
    var st' := Apply(mid, s, i, j, r, tail, latticeCost);
    GrowsTrans(st, mid, st', s.n);
    SameOutsideTrans(st, mid, st', s.n, i, j);
    assert forall k :: 0 <= k < |front| ==> front[k] == rules[k];
    assert RuleLhs(rules) == RuleLhs(front) + {r.lhs};
    assert |mid.edges| == |st.edges| + |rules| - 1 && |st'.edges| == |mid.edges| + 1 && mid.edges <= st'.edges;
    forall k | 0 <= k < |rules| - 1 ensures EdgeIs(mid.edges[|st.edges| + k], rules[k], tail, i, j, latticeCost) {
      assert front[k] == rules[k];
    }
    assert EdgeIs(st'.edges[|mid.edges|], rules[|rules| - 1], tail, i, j, latticeCost);
    AppendEdges(st, mid, st', s, i, j, rules, tail, latticeCost);
  }

  lemma SameOutsideTrans(a: ChartState, b: ChartState, c: ChartState, n: nat, i: int, j: int)
    requires GridShape(a, n) && GridShape(b, n) && GridShape(c, n)
    requires SameOutside(a, b, n, i, j) && SameOutside(b, c, n, i, j)
    ensures SameOutside(a, c, n, i, j)
  {
  }

  lemma AppendEdges(st: ChartState, mid: ChartState, st': ChartState, s: Setting, i: int, j: int, rules: seq<Rule>, tail: seq<nat>, latticeCost: int)
    requires |rules| > 0 && |mid.edges| == |st.edges| + |rules| - 1 && |st'.edges| == |mid.edges| + 1
    requires mid.edges <= st'.edges
    requires forall k :: 0 <= k < |rules| - 1 ==> EdgeIs(mid.edges[|st.edges| + k], rules[k], tail, i, j, latticeCost)
    requires EdgeIs(st'.edges[|mid.edges|], rules[|rules| - 1], tail, i, j, latticeCost)
    ensures forall k :: 0 <= k < |rules| ==> EdgeIs(st'.edges[|st.edges| + k], rules[k], tail, i, j, latticeCost)
  {
    forall k | 0 <= k < |rules| ensures EdgeIs(st'.edges[|st.edges| + k], rules[k], tail, i, j, latticeCost) {
      if k < |rules| - 1 {
        assert st'.edges[|st.edges| + k] == mid.edges[|st.edges| + k];
      }
    }
  }

  /** Some edge over (i, j) applies rule `u` to the single node `v`. */
  predicate HasUnaryEdge(st: ChartState, i: int, j: int, u: Rule, v: nat)
  {
    exists e :: 0 <= e < |st.edges| && st.edges[e].rule == u && st.edges[e].tail == [v] &&
      st.edges[e].i == i && st.edges[e].j == j
  }

  /** Node `v` of span (i, j) has an edge for every unary rule of grammar
      `g` whose right-hand side is its category. */
  predicate Closed(st: ChartState, g: Grammar, i: int, j: int, v: nat)
    requires v < |st.nodes|
  {
    var rs := UnaryRulesFor(g, st.nodes[v].cat);
    forall r :: 0 <= r < |rs| ==> HasUnaryEdge(st, i, j, rs[r], v)
  }

  /** Closure survives growth of the state. */
  lemma ClosedGrows(st: ChartState, st': ChartState, n: nat, g: Grammar, i: int, j: int, v: nat)
    requires v < |st.nodes| && Grows(st, st', n) && Closed(st, g, i, j, v)
    ensures v < |st'.nodes| && Closed(st', g, i, j, v)
  {
    var rs := UnaryRulesFor(g, st.nodes[v].cat);
    forall r | 0 <= r < |rs| ensures HasUnaryEdge(st', i, j, rs[r], v) {
      var e :| 0 <= e < |st.edges| && st.edges[e].rule == rs[r] && st.edges[e].tail == [v] &&
        st.edges[e].i == i && st.edges[e].j == j;
      assert st'.edges[e] == st.edges[e];
    }
  }

  /** Applying the unary rules for a node's category closes the node. */
  lemma AppliedAllCloses(st: ChartState, st': ChartState, s: Setting, g: Grammar, i: int, j: int, v: nat)
    requires GridShape(st, s.n) && 0 <= i < j <= s.n && v < |st.nodes|
    requires AppliedAll(st, st', s, i, j, UnaryRulesFor(g, st.nodes[v].cat), [v], 0)
    ensures v < |st'.nodes| && Closed(st', g, i, j, v)
  {
    var rs := UnaryRulesFor(g, st.nodes[v].cat);
    forall r | 0 <= r < |rs| ensures HasUnaryEdge(st', i, j, rs[r], v) {
      var e := |st.edges| + r;
      assert st'.edges[e].rule == rs[r];
    }
  }

  /** The first `k` nodes of span (i, j) are closed under grammar `g`. */
  predicate ClosedUpTo(st: ChartState, n: nat, g: Grammar, i: int, j: int, k: nat)
    requires GridShape(st, n) && 0 <= i < j <= n
  {
    k <= |st.chart[i][j]| &&
    forall d :: 0 <= d < k ==> st.chart[i][j][d] < |st.nodes| && Closed(st, g, i, j, st.chart[i][j][d])
  }

  /** One round of the unary closure of (i, j): the unary rules for the
      category of node `di` are applied to it. The state grows only at
      (i, j), one more node is closed, and either the span gains a category
      from `lhs` or its node list is unchanged. */
  lemma CloseStep(st0: ChartState, st: ChartState, st': ChartState, s: Setting, g: Grammar, i: int, j: int, di: nat, lhs: set<int>)
    requires GridShape(st, s.n) && 0 <= i < j <= s.n && di < |st.chart[i][j]| && st.chart[i][j][di] < |st.nodes|
    requires Grows(st0, st, s.n) && SameOutside(st0, st, s.n, i, j) && st.goalIdx == st0.goalIdx
    requires ClosedUpTo(st, s.n, g, i, j, di)
    requires var v := st.chart[i][j][di];
      var rules := UnaryRulesFor(g, st.nodes[v].cat);
      RuleLhs(rules) <= lhs && AppliedAll(st, st', s, i, j, rules, [v], 0)
    ensures Grows(st0, st', s.n) && SameOutside(st0, st', s.n, i, j) && st'.goalIdx == st0.goalIdx
    ensures ClosedUpTo(st', s.n, g, i, j, di + 1)
    ensures lhs - st'.nodemap[i][j].Keys < lhs - st.nodemap[i][j].Keys ||
      (lhs - st'.nodemap[i][j].Keys == lhs - st.nodemap[i][j].Keys && st'.chart[i][j] == st.chart[i][j])
  {
    var v := st.chart[i][j][di];
    var rules := UnaryRulesFor(g, st.nodes[v].cat);
    GrowsTrans(st0, st, st', s.n);
    SameOutsideTrans(st0, st, st', s.n, i, j);
    AppliedAllCloses(st, st', s, g, i, j, v);
    forall d | 0 <= d < di + 1 ensures st'.chart[i][j][d] < |st'.nodes| && Closed(st', g, i, j, st'.chart[i][j][d]) {
      assert st'.chart[i][j][d] == st.chart[i][j][d];
      if d < di {
        ClosedGrows(st, st', s.n, g, i, j, st.chart[i][j][d]);
      }
    }
    var keys, keys' := st.nodemap[i][j].Keys, st'.nodemap[i][j].Keys;
    assert keys' == keys + RuleLhs(rules);
    if !(RuleLhs(rules) <= keys) {
      var c :| c in RuleLhs(rules) && c !in keys;
      assert c in (lhs - keys) - (lhs - keys');
    }
  }

  /** Closure of the first `k` nodes survives growth of the state. */
  lemma ClosedUpToGrows(st: ChartState, st': ChartState, n: nat, g: Grammar, i: int, j: int, k: nat, k': nat)
    requires Grows(st, st', n) && 0 <= i < j <= n && ClosedUpTo(st, n, g, i, j, k) && k' <= k
    ensures ClosedUpTo(st', n, g, i, j, k')
  {
    forall d | 0 <= d < k' ensures st'.chart[i][j][d] < |st'.nodes| && Closed(st', g, i, j, st'.chart[i][j][d]) {
      assert st'.chart[i][j][d] == st.chart[i][j][d];
      ClosedGrows(st, st', n, g, i, j, st.chart[i][j][d]);
    }
  }

  /** Edge `e` applies a unary rule of grammar `g` over (i, j), at lattice
      cost 0, to one node of the span's node list. */
  predicate UnaryFrom(st: ChartState, n: nat, g: Grammar, i: int, j: int, e: nat)
    requires GridShape(st, n) && 0 <= i < j <= n && e < |st.edges|
  {
    var ed := st.edges[e];
    ed.i == i && ed.j == j && ed.latticeCost == 0 && |ed.tail| == 1 &&
    ed.tail[0] in st.chart[i][j] && ed.tail[0] < |st.nodes| && ed.rule in UnaryRulesFor(g, st.nodes[ed.tail[0]].cat)
  }

  /** A unary edge stays one as the state grows. */
  lemma UnaryFromGrows(st: ChartState, st': ChartState, n: nat, g: Grammar, i: int, j: int, e: nat)
    requires Grows(st, st', n) && 0 <= i < j <= n && e < |st.edges| && UnaryFrom(st, n, g, i, j, e)
    ensures e < |st'.edges| && UnaryFrom(st', n, g, i, j, e)
  {
    assert st'.edges[e] == st.edges[e];
  }

  /** Every edge added since `st0` is a unary edge of grammar `g` over (i, j). */
  predicate UnaryOnly(st0: ChartState, st: ChartState, n: nat, g: Grammar, i: int, j: int)
    requires GridShape(st, n) && 0 <= i < j <= n
  {
    forall e :: |st0.edges| <= e < |st.edges| ==> UnaryFrom(st, n, g, i, j, e)
  }

  /** Applying the unary rules for the category of node `v` of (i, j) adds
      only unary edges of the span. */
  lemma UnaryOnlyStep(st0: ChartState, st: ChartState, st': ChartState, s: Setting, g: Grammar, i: int, j: int, v: nat)
    requires GridShape(st, s.n) && 0 <= i < j <= s.n && v in st.chart[i][j] && v < |st.nodes|
    requires AppliedAll(st, st', s, i, j, UnaryRulesFor(g, st.nodes[v].cat), [v], 0)
    requires UnaryOnly(st0, st, s.n, g, i, j)
    ensures UnaryOnly(st0, st', s.n, g, i, j)
  {
    var rs := UnaryRulesFor(g, st.nodes[v].cat);
    forall e | |st0.edges| <= e < |st'.edges| ensures UnaryFrom(st', s.n, g, i, j, e) {
      if e < |st.edges| {
        UnaryFromGrows(st, st', s.n, g, i, j, e);
      } else {
        var k := e - |st.edges|;
        assert EdgeIs(st'.edges[e], rs[k], [v], i, j, 0);
        assert st'.nodes[v].cat == st.nodes[v].cat;
      }
    }
  }

  /** Edge `e` is the goal rule over (0, n) applied to a node of the goal
      category in the node list of (0, n). */
  predicate GoalEdge(st: ChartState, s: Setting, e: nat)
    requires GridShape(st, s.n) && e < |st.edges|
  {
    var ed := st.edges[e];
    ed.rule == s.goalRule && ed.i == 0 && ed.j == s.n && |ed.tail| == 1 &&
    ed.tail[0] in st.chart[0][s.n] && ed.tail[0] < |st.nodes| && st.nodes[ed.tail[0]].cat == s.goalCat
  }

  /** A goal edge stays one as the state grows. */
  lemma GoalEdgeGrows(st: ChartState, st': ChartState, s: Setting, e: nat)
    requires Grows(st, st', s.n) && e < |st.edges| && GoalEdge(st, s, e)
    ensures e < |st'.edges| && GoalEdge(st', s, e)
  {
    assert st'.edges[e] == st.edges[e];
  }

  /** Every edge added since `st0` is a goal edge. */
  predicate GoalsOnly(st0: ChartState, st: ChartState, s: Setting)
    requires GridShape(st, s.n)
  {
    forall e :: |st0.edges| <= e < |st.edges| ==> GoalEdge(st, s, e)
  }

  /** One more goal edge. */
  lemma GoalsOnlyStep(st0: ChartState, st: ChartState, st': ChartState, s: Setting)
    requires Grows(st, st', s.n) && GoalsOnly(st0, st, s)
    requires |st'.edges| == |st.edges| + 1 && GoalEdge(st', s, |st.edges|)
    ensures GoalsOnly(st0, st', s)
  {
    forall e | |st0.edges| <= e < |st.edges| ensures GoalEdge(st', s, e) {
      GoalEdgeGrows(st, st', s, e);
    }
  }

  /** Some node of span (0, n) has the goal category. */
  predicate GoalSpanned(st: ChartState, s: Setting)
    requires GridShape(st, s.n)
  {
    exists d :: 0 <= d < |st.chart[0][s.n]| && st.chart[0][s.n][d] < |st.nodes| &&
      st.nodes[st.chart[0][s.n][d]].cat == s.goalCat
  }

  /** Every node of span (0, n) with the goal category has been given to
      the goal rule, so a goal node exists if there is such a node. */
  predicate GoalScanned(st: ChartState, s: Setting)
    requires GridShape(st, s.n)
  {
    forall d :: (0 <= d < |st.chart[0][s.n]| && st.chart[0][s.n][d] < |st.nodes| &&
      st.nodes[st.chart[0][s.n][d]].cat == s.goalCat) ==> st.goalIdx != -1
  }

  /** The goal rule over (0, n) leaves every node list alone and leaves a
      goal node: the one it creates, or the one there already was. */
  lemma ApplyGoal(st: ChartState, s: Setting, ants: seq<nat>)
    requires StateOk(st, s) && 0 < s.n && s.goalRule.lhs == s.goalLabel
    ensures var st' := Apply(st, s, 0, s.n, s.goalRule, ants, 0);
      st'.chart == st.chart && st'.goalIdx != -1 && (st.goalIdx != -1 ==> st'.goalIdx == st.goalIdx)
  {
  }

  /** A goal node is only ever made from a node of the goal category
      spanning the whole input. */
  lemma GoalFoundSpanned(st: ChartState, s: Setting)
    requires StateOk(st, s) && st.goalIdx != -1
    ensures GoalSpanned(st, s)
  {
    var q := st.nodes[st.goalIdx].inEdges[0];
    var ed := st.edges[q];
    assert ed.head == st.goalIdx;
    assert EdgeOk(st, s, ed);
    assert st.nodes[ed.head].cat == ed.rule.lhs;
    assert ed.tail[0] in st.chart[0][s.n];
    var d :| 0 <= d < |st.chart[0][s.n]| && st.chart[0][s.n][d] == ed.tail[0];
  }

  /** There is a goal node exactly when some node carries the goal label. */
  lemma GoalNodeIff(st: ChartState, s: Setting)
    requires StateOk(st, s)
    ensures st.goalIdx != -1 <==> exists v :: 0 <= v < |st.nodes| && st.nodes[v].cat == s.goalLabel
  {
    if st.goalIdx != -1 {
      assert st.nodes[st.goalIdx].cat == s.goalLabel;
    }
    if v :| 0 <= v < |st.nodes| && st.nodes[v].cat == s.goalLabel {
      var ed := st.edges[st.nodes[v].inEdges[0]];
      assert EdgeOk(st, s, ed);
      assert ed.rule.lhs == s.goalLabel;
    }
  }

  /** Once every goal-category node of (0, n) has been given to the goal
      rule, a goal node exists exactly when there is such a node. */
  lemma GoalFoundIff(st: ChartState, s: Setting)
    requires StateOk(st, s) && GoalScanned(st, s)
    ensures st.goalIdx > -1 <==> st.goalIdx != -1
    ensures st.goalIdx != -1 <==> GoalSpanned(st, s)
  {
    if st.goalIdx != -1 {
      GoalFoundSpanned(st, s);
    }
  }
}
