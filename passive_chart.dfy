/** The passive chart and the parse loop of decoder/bottom_up_parser.cc. */
module PassiveCharts {
  import opened Wrappers
  import opened Forest
  import opened Lattices
  import opened ActiveCharts
  import opened SyntacticConstraints
  import opened ChartStates
  import opened FillSpecs

  /** The parts of the sentence metadata the parser reads: SGML attributes
      and the source length. */
  datatype SentenceMetadata = SentenceMetadata(sgml: map<string, string>, sourceLength: int)

  /** An attribute that is not present reads as the empty string. */
  function GetSGMLValue(m: SentenceMetadata, key: string): string
  {
    if key in m.sgml then m.sgml[key] else ""
  }

  /** The `constraints` attribute, empty when there is no metadata. */
  function ConstraintsOf(meta: Option<SentenceMetadata>): string
  {
    if meta.None? then "" else GetSGMLValue(meta.value, "constraints")
  }

  const ReorderableGrammarName := "ReorderableSyntacticConstrainedGrammar"

  /** Rules whose left-hand side is the goal label come only from the goal
      rule, never from a grammar. */
  predicate NoGoalRules(grammars: seq<Grammar>, goalLabel: int)
  {
    (forall g, s, k :: 0 <= g < |grammars| && s in grammars[g].bins && 0 <= k < |grammars[g].bins[s]| ==>
      grammars[g].bins[s][k].lhs != goalLabel) &&
    (forall g, c, k :: 0 <= g < |grammars| && c in grammars[g].unaries && 0 <= k < |grammars[g].unaries[c]| ==>
      grammars[g].unaries[c][k].lhs != goalLabel)
  }

  /** A constraints attribute, when present, is well formed for the
      sentence, and the sentence is at least as long as the lattice. */
  predicate ConstraintsFitFor(meta: Option<SentenceMetadata>, n: nat)
  {
    ConstraintsOf(meta) != "" ==>
      meta.Some? && 0 <= meta.value.sourceLength && n <= meta.value.sourceLength &&
      WellFormedConstraints(ConstraintsOf(meta), meta.value.sourceLength)
  }

  /** Every category a unary rule of some grammar can produce. */
  ghost function UnaryLhs(grammars: seq<Grammar>): set<int>
  {
    set g, c, k | 0 <= g < |grammars| && c in grammars[g].unaries && 0 <= k < |grammars[g].unaries[c]| ::
      grammars[g].unaries[c][k].lhs
  }

  /** `[Goal] ||| [goal,1] ||| [goal,1]`: the goal label rewritten to one
      nonterminal of the goal category. */
  function GoalRule(goalLabel: int, goalCat: int): (r: Rule)
    ensures r.lhs == goalLabel && r.f == [goalCat] && r.arity == 1
  {
    Rule(0, goalLabel, [goalCat], [0], 1)
  }

  /** An array2 read as a grid of rows. */
  ghost function Grid<T>(a: array2<T>): (r: seq<seq<T>>)
    reads a
    ensures |r| == a.Length0 && forall x :: 0 <= x < a.Length0 ==> |r[x]| == a.Length1
    ensures forall x, y :: 0 <= x < a.Length0 && 0 <= y < a.Length1 ==> r[x][y] == a[x, y]
  {
    seq(a.Length0, x requires 0 <= x < a.Length0 reads a =>
      seq(a.Length1, y requires 0 <= y < a.Length1 reads a => a[x, y]))
  }

  lemma GridSet<T>(a: array2<T>, g: seq<seq<T>>, i: nat, j: nat)
    requires |g| == a.Length0 && forall x :: 0 <= x < |g| ==> |g[x]| == a.Length1
    requires i < a.Length0 && j < a.Length1
    requires forall x, y :: 0 <= x < a.Length0 && 0 <= y < a.Length1 && (x != i || y != j) ==> a[x, y] == g[x][y]
    ensures Grid(a) == Set2(g, i, j, a[i, j])
  {
    var r, t := Grid(a), Set2(g, i, j, a[i, j]);
    forall x | 0 <= x < |r| ensures r[x] == t[x] {
      assert |r[x]| == |t[x]|;
    }
  }

  lemma GridSame<T>(a: array2<T>, g: seq<seq<T>>)
    requires |g| == a.Length0 && forall x :: 0 <= x < |g| ==> |g[x]| == a.Length1
    requires forall x, y :: 0 <= x < a.Length0 && 0 <= y < a.Length1 ==> a[x, y] == g[x][y]
    ensures Grid(a) == g
  {
    var r := Grid(a);
    forall x | 0 <= x < |r| ensures r[x] == g[x] {
      assert |r[x]| == |g[x]|;
    }
  }

  lemma GridFilled<T>(a: array2<T>, v: T)
    requires a.Length0 == a.Length1
    requires forall x, y :: 0 <= x < a.Length0 && 0 <= y < a.Length1 ==> a[x, y] == v
    ensures Grid(a) == Filled(a.Length0, v)
  {
    var r, t := Grid(a), Filled(a.Length0, v);
    forall x | 0 <= x < |r| ensures r[x] == t[x] {
      assert |r[x]| == |t[x]|;
    }
  }

  /** A fresh size x size array holding `v` everywhere. */
  method NewGrid<T>(size: nat, v: T) returns (a: array2<T>)
    ensures fresh(a) && a.Length0 == size && a.Length1 == size
    ensures Grid(a) == Filled(size, v)
  {
    a := new T[size, size]((x, y) => v);
    GridFilled(a, v);
  }

  /** One active chart per grammar, all over the passive chart `psv`. */
  method NewActiveCharts(grammars: seq<Grammar>, forest: Hypergraph, psv: array2<seq<nat>>) returns (acts: seq<ActiveChart>)
    requires psv.Length0 == psv.Length1
    ensures |acts| == |grammars|
    ensures forall g :: 0 <= g < |acts| ==>
      acts[g].g == grammars[g] && acts[g].hg == forest && acts[g].psv == psv &&
      acts[g].cells.Length0 == acts[g].cells.Length1 == psv.Length0 && acts[g].Valid() && fresh(acts[g].cells)
    ensures forall g, x, y :: 0 <= g < |acts| && 0 <= x < psv.Length0 && 0 <= y < psv.Length0 ==> acts[g].cells[x, y] == []
    ensures forall g, h :: 0 <= g < h < |acts| ==> acts[g].cells != acts[h].cells
  {
    acts := [];
    var gi := 0;
    while gi < |grammars|
      invariant 0 <= gi <= |grammars| && |acts| == gi
      invariant forall g :: 0 <= g < gi ==>
        acts[g].g == grammars[g] && acts[g].hg == forest && acts[g].psv == psv &&
        acts[g].cells.Length0 == acts[g].cells.Length1 == psv.Length0 && acts[g].Valid() && fresh(acts[g].cells)
      invariant forall g, x, y :: 0 <= g < gi && 0 <= x < psv.Length0 && 0 <= y < psv.Length0 ==> acts[g].cells[x, y] == []
      invariant forall g, h :: 0 <= g < h < gi ==> acts[g].cells != acts[h].cells
    {
      var a := new ActiveChart(grammars[gi], forest, psv);
      acts := acts + [a];
      gi := gi + 1;
    }
  }

  /** The unary rules of a grammar produce categories of `UnaryLhs`, never
      the goal label. */
  lemma UnaryRulesLhs(grammars: seq<Grammar>, gi: nat, cat: int, goalLabel: int)
    requires gi < |grammars| && NoGoalRules(grammars, goalLabel)
    ensures RuleLhs(UnaryRulesFor(grammars[gi], cat)) <= UnaryLhs(grammars)
    ensures var rs := UnaryRulesFor(grammars[gi], cat); forall k :: 0 <= k < |rs| ==> rs[k].lhs != goalLabel
  {
    var rs := UnaryRulesFor(grammars[gi], cat);
    forall c | c in RuleLhs(rs) ensures c in UnaryLhs(grammars) {
      var k :| 0 <= k < |rs| && rs[k].lhs == c;
      assert cat in grammars[gi].unaries && grammars[gi].unaries[cat][k].lhs == c;
    }
  }

  class PassiveChart {
    const grammars: seq<Grammar>
    const input: Lattice
    const meta: Option<SentenceMetadata>
    const forest: Hypergraph
    /** Number of lattice positions; the chart is (n+1) x (n+1). */
    const n: nat
    const chart: array2<seq<nat>>
    const nodemap: array2<map<int, nat>>
    const act: seq<ActiveChart>
    /** The active cells of every grammar. */
    ghost const actCells: set<array2<seq<ActiveItem>>> := set a | a in act :: a.cells
    /** The category searched for at (0, n). */
    const goalCat: int
    /** The `[Goal]` category (the source's static `kGOAL`). */
    const goalLabel: int
    /** `[Goal] ||| [goal,1] ||| [goal,1]`. */
    const goalRule: Rule
    var goalIdx: int

    /** Sizes the chart by the lattice, gives every grammar an active chart
        over the same passive chart, and starts with no goal node. */
    constructor (goalCat: int, goalLabel: int, grammars: seq<Grammar>, input: Lattice,
                 meta: Option<SentenceMetadata>, forest: Hypergraph)
      requires WellFormed(input.arcs) && input.DistanceCovers(|input.arcs| + 1)
      requires NoGoalRules(grammars, goalLabel)
      requires forest.nodes == [] && forest.edges == []
      ensures Valid() && Empty() && goalIdx == -1
      ensures this.goalCat == goalCat && this.goalLabel == goalLabel && this.grammars == grammars &&
        this.input == input && this.meta == meta && this.forest == forest && n == |input.arcs|
      ensures goalRule == GoalRule(goalLabel, goalCat)
      ensures fresh(chart) && fresh(nodemap) && forall g :: 0 <= g < |act| ==> fresh(act[g].cells)
    {
      var size := |input.arcs| + 1;
      var c := NewGrid(size, []);
      var nm := NewGrid(size, map[]);
      var acts := NewActiveCharts(grammars, forest, c);
      this.grammars := grammars;
      this.input := input;
      this.meta := meta;
      this.forest := forest;
      n := |input.arcs|;
      chart := c;
      nodemap := nm;
      act := acts;
      this.goalCat := goalCat;
      this.goalLabel := goalLabel;
      goalRule := GoalRule(goalLabel, goalCat);
      goalIdx := -1;
      new;
      assert Shape();
      assert State() == EmptyState(n);
      EmptyStateOk(Setting());
      ChartOkNodes(State(), Setting());
    }

    /** Nothing has been parsed yet. */
    ghost predicate Empty()
      reads this, forest, chart, nodemap, actCells
      requires Shape()
    {
      State() == EmptyState(n) &&
      forall g, x, y :: 0 <= g < |act| && 0 <= x <= n && 0 <= y <= n ==> act[g].cells[x, y] == []
    }

    /** The sizes and links that never change: an (n+1) x (n+1) chart, one
        active chart per grammar over this passive chart and forest. */
    ghost predicate Shape()
    {
      n == |input.arcs| && WellFormed(input.arcs) && input.DistanceCovers(n + 1) &&
      chart.Length0 == n + 1 && chart.Length1 == n + 1 &&
      nodemap.Length0 == n + 1 && nodemap.Length1 == n + 1 &&
      |act| == |grammars| &&
      (forall g :: 0 <= g < |act| ==>
        act[g].g == grammars[g] && act[g].hg == forest && act[g].psv == chart &&
        act[g].cells.Length0 == n + 1 && act[g].Valid()) &&
      (forall g, h :: 0 <= g < h < |act| ==> act[g].cells != act[h].cells) &&
      goalRule.lhs == goalLabel && NoGoalRules(grammars, goalLabel)
    }

    function Setting(): ChartStates.Setting
    {
      ChartStates.Setting(n, goalCat, goalLabel, goalRule)
    }

    /** The chart's state read as a value. */
    ghost function State(): (st: ChartState)
      reads this, forest, chart, nodemap
    {
      ChartState(forest.nodes, forest.edges, Grid(chart), Grid(nodemap), goalIdx)
    }

    /** The antecedents of every active item are nodes of the forest. */
    ghost predicate ItemsOk()
      reads forest, actCells
      requires Shape()
    {
      forall g :: 0 <= g < |act| ==> act[g].ItemsIn(|forest.nodes|)
    }

    ghost predicate Valid()
      reads this, forest, chart, nodemap, actCells
    {
      Shape() && StateOk(State(), Setting()) && ChartNodes(State(), n) && ItemsOk()
    }

    /** The active cells of every grammar, read as values. */
    ghost function Acts(): (A: seq<Cells>)
      reads actCells
      ensures |A| == |act| && forall g :: 0 <= g < |act| ==> A[g] == Grid(act[g].cells)
    {
      seq(|act|, g requires 0 <= g < |act| reads actCells => Grid(act[g].cells))
    }

    /** What the parse is fixed by, for the specification of the fill. */
    function Spec(): Setup
    {
      Setup(grammars, input, n, (g: nat, x: int, y: int) => ConstraintsFit() && g < |grammars| && 0 <= x < y <= n && Skips(g, x, y))
    }

    /** `Spec` asks the grammars and the constraints what the parser asks. */
    lemma SpecAgrees()
      requires Shape()
      ensures SetupOk(Spec()) && ActsShape(Spec(), Acts())
      ensures forall g: nat, x, y :: g < |grammars| && 0 <= x <= n && 0 <= y <= n ==>
        (FillSpecs.SpanOk(Spec(), g, x, y) <==> SpanOk(g, x, y))
      ensures ConstraintsFit() ==> forall g: nat, x, y :: g < |grammars| && 0 <= x < y <= n ==>
        (Spec().skips(g, x, y) <==> Skips(g, x, y))
    {
    }

    /** Adds one edge for rule `r` over span (i, j) with the given tail, and
        connects it to the node of (r's left-hand side, i, j), created when
        the span has none yet: a goal node is recorded in `goalIdx`, any
        other new node is appended to the node list of (i, j). */
    method ApplyRule(i: int, j: int, r: Rule, ants: seq<nat>, latticeCost: int)
      requires Shape() && StateOk(State(), Setting()) && CanApply(State(), Setting(), i, j, r, ants)
      modifies this`goalIdx, forest, chart, nodemap
      ensures StateOk(State(), Setting())
      ensures State() == Apply(old(State()), Setting(), i, j, r, ants, latticeCost)
    {
      ghost var st := State();
      ApplyKeepsOk(st, Setting(), i, j, r, ants, latticeCost);
      assert forall x, y :: 0 <= x <= n && 0 <= y <= n ==> st.chart[x][y] == chart[x, y] && st.nodemap[x][y] == nodemap[x, y];
      var node := EditForRule(i, j, r, ants, latticeCost);
      StateAfterEdit(st, i, j, r, ants, latticeCost, node);
    }

    /** Reads the cell-by-cell effect of `EditForRule` back as `Apply`. */
    lemma StateAfterEdit(st: ChartState, i: int, j: int, r: Rule, ants: seq<nat>, latticeCost: int, node: nat)
      requires chart.Length0 == chart.Length1 == nodemap.Length0 == nodemap.Length1 == n + 1
      requires ApplyPre(st, Setting(), i, j, r)
      requires var isNew := r.lhs !in st.nodemap[i][j];
        node == (if isNew then |st.nodes| else st.nodemap[i][j][r.lhs]) &&
        forest.edges == st.edges + [Edge(r, ants, i, j, latticeCost, node)] &&
        (isNew ==> forest.nodes == st.nodes + [Node(r.lhs, [|st.edges|])]) &&
        (!isNew ==> forest.nodes == st.nodes[node := st.nodes[node].(inEdges := st.nodes[node].inEdges + [|st.edges|])]) &&
        nodemap[i, j] == st.nodemap[i][j][r.lhs := node] &&
        chart[i, j] == st.chart[i][j] + (if isNew && r.lhs != goalLabel then [node] else []) &&
        goalIdx == if isNew && r.lhs == goalLabel then node else st.goalIdx
      requires forall x, y :: 0 <= x <= n && 0 <= y <= n && (x != i || y != j) ==>
        chart[x, y] == st.chart[x][y] && nodemap[x, y] == st.nodemap[x][y]
      ensures State() == Apply(st, Setting(), i, j, r, ants, latticeCost)
    {
      if node == |st.nodes| && r.lhs != goalLabel {
        GridSet(chart, st.chart, i, j);
      } else {
        assert st.chart[i][j] + [] == st.chart[i][j];
        GridSame(chart, st.chart);
      }
      GridSet(nodemap, st.nodemap, i, j);
    }

    /** The active items stay within a growing forest. */
    lemma ItemsGrow(bound: int)
      requires Shape() && bound <= |forest.nodes|
      requires forall g :: 0 <= g < |act| ==> act[g].ItemsIn(bound)
      ensures ItemsOk()
    {
      forall g | 0 <= g < |act| ensures act[g].ItemsIn(|forest.nodes|) {
        act[g].ItemsInGrows(bound, |forest.nodes|);
      }
    }

    /** The updates `ApplyRule` makes, cell by cell; `node` is the head of
        the new edge. */
    method EditForRule(i: int, j: int, r: Rule, ants: seq<nat>, latticeCost: int) returns (node: nat)
      requires 0 <= i < j <= n && chart.Length0 == chart.Length1 == nodemap.Length0 == nodemap.Length1 == n + 1
      requires r.lhs in nodemap[i, j] ==> nodemap[i, j][r.lhs] < |forest.nodes|
      requires r.lhs == goalLabel && r.lhs !in nodemap[i, j] ==> goalIdx == -1
      modifies this`goalIdx, forest, chart, nodemap
      ensures var isNew := r.lhs !in old(nodemap[i, j]);
        node == (if isNew then old(|forest.nodes|) else old(nodemap[i, j][r.lhs])) &&
        forest.edges == old(forest.edges) + [Edge(r, ants, i, j, latticeCost, node)] &&
        (isNew ==> forest.nodes == old(forest.nodes) + [Node(r.lhs, [old(|forest.edges|)])]) &&
        (!isNew ==> forest.nodes == old(forest.nodes)[node := old(forest.nodes[node]).(inEdges := old(forest.nodes[node].inEdges) + [old(|forest.edges|)])]) &&
        nodemap[i, j] == old(nodemap[i, j])[r.lhs := node] &&
        chart[i, j] == old(chart[i, j]) + (if isNew && r.lhs != goalLabel then [node] else []) &&
        goalIdx == if isNew && r.lhs == goalLabel then node else old(goalIdx)
      ensures forall x, y :: 0 <= x <= n && 0 <= y <= n && (x != i || y != j) ==>
        chart[x, y] == old(chart[x, y]) && nodemap[x, y] == old(nodemap[x, y])
    {
      var eid := forest.AddEdge(r, ants);
      forest.edges := forest.edges[eid := forest.edges[eid].(i := i, j := j)];
      if latticeCost != 0 {
        forest.edges := forest.edges[eid := forest.edges[eid].(latticeCost := latticeCost)];
      }
      var isGoal := r.lhs == goalLabel;
      if r.lhs !in nodemap[i, j] {
        node := forest.AddNode(r.lhs);
        nodemap[i, j] := nodemap[i, j][r.lhs := node];
        if isGoal {
          assert goalIdx == -1;
          goalIdx := node;
        } else {
          chart[i, j] := chart[i, j] + [node];
        }
      } else {
        node := nodemap[i, j][r.lhs];
      }
      ghost var before := forest.nodes;
      forest.ConnectEdgeToHeadNode(eid, node);
      if node == old(|forest.nodes|) {
        assert before == old(forest.nodes) + [Node(r.lhs, [])];
        assert before[node].inEdges + [eid] == [eid];
      }
    }

    /** Applies every rule of a bin, in order, over (i, j) with the same
        antecedents and lattice cost. */
    method ApplyRules(i: int, j: int, rules: seq<Rule>, tail: seq<nat>, latticeCost: int)
      requires Shape() && StateOk(State(), Setting()) && 0 <= i < j <= n && NodesIn(tail, forest.nodes)
      requires forall k :: 0 <= k < |rules| ==> rules[k].lhs != goalLabel
      modifies this`goalIdx, forest, chart, nodemap
      ensures StateOk(State(), Setting())
      ensures State() == ApplyAll(old(State()), Setting(), i, j, rules, tail, latticeCost)
    {
      ghost var st0 := State();
      assert rules[..|rules|] == rules;
      var k := 0;
      while k < |rules|
        invariant 0 <= k <= |rules| && StateOk(State(), Setting())
        invariant State() == ApplyAll(st0, Setting(), i, j, rules[..k], tail, latticeCost)
      {
        ApplyAllSnoc(st0, Setting(), i, j, rules, k, tail, latticeCost);
        ApplyRule(i, j, rules[k], tail, latticeCost);
        k := k + 1;
      }
    }

    /** `ApplyRules` seen from the whole chart: the active items still
        point into the grown forest, and the rules' edges are the new ones. */
    method ApplyBin(i: int, j: int, rules: seq<Rule>, tail: seq<nat>, latticeCost: int)
      requires Valid() && 0 <= i < j <= n && NodesIn(tail, forest.nodes)
      requires forall k :: 0 <= k < |rules| ==> rules[k].lhs != goalLabel
      modifies this`goalIdx, forest, chart, nodemap
      ensures Valid()
      ensures State() == ApplyAll(old(State()), Setting(), i, j, rules, tail, latticeCost)
      ensures AppliedAll(old(State()), State(), Setting(), i, j, rules, tail, latticeCost)
    {
      ghost var st := State();
      ApplyRules(i, j, rules, tail, latticeCost);
      ApplyAllApplied(st, Setting(), i, j, rules, tail, latticeCost);
      ChartOkNodes(State(), Setting());
      ItemsGrow(|st.nodes|);
    }

    /** The cells of all active charts. */
    ghost function ActCells(): set<array2<seq<ActiveItem>>>
    {
      actCells
    }

    /** Seeds every grammar's active chart with its trie root. */
    method SeedActiveCharts()
      requires Shape() && ItemsOk()
      modifies ActCells()
      ensures ItemsOk()
      ensures forall g, x, y :: 0 <= g < |act| && 0 <= x <= n && 0 <= y <= n ==>
        act[g].cells[x, y] == old(act[g].cells[x, y]) + Seed(grammars[g], x, y)
    {
      var gi := 0;
      while gi < |act|
        invariant 0 <= gi <= |act| && ItemsOk()
        invariant forall g, x, y :: 0 <= g < gi && 0 <= x <= n && 0 <= y <= n ==>
          act[g].cells[x, y] == old(act[g].cells[x, y]) + Seed(grammars[g], x, y)
        invariant forall g, x, y :: gi <= g < |act| && 0 <= x <= n && 0 <= y <= n ==>
          act[g].cells[x, y] == old(act[g].cells[x, y])
      {
        act[gi].SeedActiveChart(|forest.nodes|);
        gi := gi + 1;
      }
    }

    /** Advances the dots of grammar `gi`'s items into cell (i, j): over
        the completed nodes of every split point, then over the lattice arcs
        leaving position j - 1. */
    method AdvanceCell(gi: nat, i: int, j: int)
      requires Shape() && ItemsOk() && ChartNodes(State(), n) && gi < |act| && 0 <= i < j <= n
      modifies act[gi].cells
      ensures ItemsOk()
      ensures forall x, y :: 0 <= x <= n && 0 <= y <= n ==>
        act[gi].cells[x, y] == Moved(Spec(), old(Grid(act[gi].cells)), State(), gi, i, j, x, y)
    {
      SpecAgrees();
      ghost var C := Grid(act[gi].cells);
      ghost var st := State();
      forall k | i < k < j ensures NodesIn(chart[k, j], forest.nodes) {
        assert chart[k, j] == st.chart[k][j];
      }
      ghost var row := Row(act[gi].cells, i, j);
      ghost var col := Column(chart, j, j);
      act[gi].AdvanceDotsForAllItemsInCell(i, j, input.arcs);
      SplitItemsSame(grammars[gi], row, col, forest.nodes, C[i], Col(st, n, j), st.nodes, i + 1, j);
      AppendAssoc(C[i][j], SplitItems(grammars[gi], row, col, forest.nodes, i + 1, j), ArcItems(grammars[gi], input.arcs[j - 1], 1, C[i][j - 1]));
      forall x, y | 0 <= x <= n && 0 <= y <= n ensures act[gi].cells[x, y] == Moved(Spec(), C, st, gi, i, j, x, y) {
        if x == i && y == j {
          assert act[gi].cells[i, j] == C[i][j] + Advanced(Spec(), C, st, gi, i, j);
        } else if x == i && y > j {
          assert act[gi].cells[i, y] == C[i][y] + ArcItems(grammars[gi], input.arcs[j - 1], y - j + 1, C[i][j - 1]);
        } else {
          assert act[gi].cells[x, y] == C[x][y];
        }
      }
    }

    /** When grammar `gi` has rules for (i, j), extends its items of (i, i)
        over the nodes just completed for (i, j). */
    method ExtendOverNewNodes(gi: nat, i: int, j: int)
      requires Shape() && ItemsOk() && ChartNodes(State(), n) && gi < |act| && 0 <= i < j <= n
      modifies act[gi].cells
      ensures ItemsOk()
      ensures Acts() == old(Acts())[gi := ExtendedGrid(Spec(), old(Acts())[gi], State(), gi, i, j)]
    {
      SpecAgrees();
      ghost var A, st := Acts(), State();
      assert chart[i, j] == st.chart[i][j];
      if !SpanOk(gi, i, j) {
        ExtendedNone(Spec(), A[gi], st, gi, i, j);
        return;
      }
      var a := act[gi];
      a.ExtendActiveItems(i, i, j);
      CombineCellsAntsIn(grammars[gi], A[gi][i][i], chart[i, j], forest.nodes);
      AntsInAppend(A[gi][i][j], CombineCells(grammars[gi], A[gi][i][i], chart[i, j], forest.nodes), |forest.nodes|);
      GridSet(a.cells, A[gi], i, j);
      ActsOne(gi);
    }

    /** The constraint mask fits the chart: every row of the source sentence
        has a group, and the sentence is at least as long as the lattice. */
    predicate ConstraintsFit()
    {
      ConstraintsFitFor(meta, n)
    }

    /** Grammar `gi` is held to the syntactic constraints (it is the one the
        metadata names, or the reorderable constrained grammar), and they
        do not allow span (i, j - 1): its completed items at (i, j) are
        skipped. */
    predicate Skips(gi: nat, i: int, j: int)
      requires ConstraintsFit() && gi < |grammars| && 0 <= i < j <= n
    {
      ConstraintsOf(meta) != "" &&
      (grammars[gi].name == GetSGMLValue(meta.value, "grammar") || grammars[gi].name == ReorderableGrammarName) &&
      !Allowed(Groups(ConstraintsOf(meta)), i, j - 1)
    }

    /** `syn` is the mask built from the metadata's constraints, or null
        when there are none. */
    ghost predicate ConstraintOk(syn: SyntacticConstraint?)
      reads if syn == null then {} else {syn.cells}
    {
      ConstraintsFit() &&
      (syn == null <==> ConstraintsOf(meta) == "") &&
      (syn != null ==>
        syn.Valid() && syn.len == meta.value.sourceLength &&
        forall x, y :: 0 <= x < syn.len && 0 <= y < syn.len ==>
          syn.cells[x, y] == Allowed(Groups(ConstraintsOf(meta)), x, y))
    }

    /** Grammar `gi`'s part of cell (i, j), for a grammar with rules for
        the span: advance the dots, then apply the rules of every completed
        item unless the syntactic constraints rule the span out for this
        grammar. */
    method CompleteItems(gi: nat, i: int, j: int, syn: SyntacticConstraint?)
      requires Valid() && gi < |act| && 0 <= i < j <= n && ConstraintOk(syn) && SpanOk(gi, i, j)
      modifies act[gi].cells, this`goalIdx, forest, chart, nodemap
      ensures Valid() && ConstraintOk(syn)
      ensures Acts() == old(Acts())[gi := AdvancedGrid(Spec(), old(Acts())[gi], old(State()), gi, i, j)]
      ensures var pending := Pending(Spec(), old(Acts())[gi], old(State()), gi, i, j);
        State() == CompleteAll(old(State()), Setting(), grammars[gi], Skips(gi, i, j), i, j, pending) &&
        CompletedAll(old(State()), State(), Setting(), grammars[gi], Skips(gi, i, j), i, j, pending)
    {
      SpecAgrees();
      ghost var A, st0 := Acts(), State();
      AdvanceCell(gi, i, j);
      var cell := act[gi].cells[i, j];
      assert cell == Pending(Spec(), A[gi], st0, gi, i, j) by {
        assert cell == Moved(Spec(), A[gi], st0, gi, i, j, i, j);
      }
      GridSame(act[gi].cells, AdvancedGrid(Spec(), A[gi], st0, gi, i, j));
      ActsOne(gi);
      CompleteCell(gi, i, j, cell, syn);
    }

    /** Completes the items of `cell`, one after the other. */
    method CompleteCell(gi: nat, i: int, j: int, cell: seq<ActiveItem>, syn: SyntacticConstraint?)
      requires Valid() && gi < |act| && 0 <= i < j <= n && ConstraintOk(syn)
      requires AntsIn(cell, |forest.nodes|)
      modifies this`goalIdx, forest, chart, nodemap
      ensures Valid() && ConstraintOk(syn)
      ensures State() == CompleteAll(old(State()), Setting(), grammars[gi], Skips(gi, i, j), i, j, cell)
      ensures CompletedAll(old(State()), State(), Setting(), grammars[gi], Skips(gi, i, j), i, j, cell)
    {
      ghost var st0 := State();
      var k := 0;
      while k < |cell|
        invariant 0 <= k <= |cell| && Valid() && ConstraintOk(syn)
        invariant AntsIn(cell, |forest.nodes|)
        invariant Grows(st0, State(), n) && SameOutside(st0, State(), n, i, j) && goalIdx == st0.goalIdx
        invariant State() == CompleteAll(st0, Setting(), grammars[gi], Skips(gi, i, j), i, j, cell[..k])
      {
        ghost var before := State();
        CompleteAllSnoc(st0, Setting(), grammars[gi], Skips(gi, i, j), i, j, cell, k);
        CompleteItem(gi, i, j, cell[k], syn);
        GrowsTrans(st0, before, State(), n);
        SameOutsideTrans(st0, before, State(), n, i, j);
        k := k + 1;
      }
      assert cell[..k] == cell;
      NoGoalBins(gi);
      CompleteAllApplied(st0, Setting(), grammars[gi], Skips(gi, i, j), i, j, cell);
    }

    /** No bin of a grammar holds a goal rule. */
    lemma NoGoalBins(gi: nat)
      requires Shape() && gi < |grammars|
      ensures BinsAvoid(grammars[gi], goalLabel)
    {
    }

    /** One active item of (i, j): when its trie state has rules and the
        constraints allow the span for this grammar, apply them. */
    method CompleteItem(gi: nat, i: int, j: int, item: ActiveItem, syn: SyntacticConstraint?)
      requires Valid() && gi < |act| && 0 <= i < j <= n && ConstraintOk(syn)
      requires NodesIn(item.ants, forest.nodes)
      modifies this`goalIdx, forest, chart, nodemap
      ensures Valid()
      ensures Grows(old(State()), State(), n) && SameOutside(old(State()), State(), n, i, j)
      ensures goalIdx == old(goalIdx)
      ensures Skips(gi, i, j) || item.state !in grammars[gi].bins ==> State() == old(State())
      ensures !Skips(gi, i, j) && item.state in grammars[gi].bins ==>
        State() == ApplyAll(old(State()), Setting(), i, j, grammars[gi].bins[item.state], item.ants, item.cost)
    {
      var g := grammars[gi];
      if item.state !in g.bins {
        return;
      }
      if syn != null && g.name == GetSGMLValue(meta.value, "grammar") && !syn.GetConstraint(i, j - 1) {
        return;
      }
      if syn != null && g.name == ReorderableGrammarName && !syn.GetConstraint(i, j - 1) {
        return;
      }
      ApplyBin(i, j, g.bins[item.state], item.ants, item.cost);
    }

    /** Closes the node list of (i, j) under grammar `gi`'s unary rules: the
        list is read live, so nodes the rules create are visited too. */
    method CloseUnder(gi: nat, i: int, j: int)
      requires Valid() && gi < |grammars| && 0 <= i < j <= n
      modifies this`goalIdx, forest, chart, nodemap
      ensures Valid()
      ensures Grows(old(State()), State(), n) && SameOutside(old(State()), State(), n, i, j)
      ensures goalIdx == old(goalIdx)
      ensures ClosedUpTo(State(), n, grammars[gi], i, j, |State().chart[i][j]|)
      ensures UnaryOnly(old(State()), State(), n, grammars[gi], i, j)
    {
      ghost var st0 := State();
      var di := 0;
      while di < |chart[i, j]|
        invariant Valid() && Grows(st0, State(), n) && SameOutside(st0, State(), n, i, j) && goalIdx == st0.goalIdx
        invariant ClosedUpTo(State(), n, grammars[gi], i, j, di)
        invariant UnaryOnly(st0, State(), n, grammars[gi], i, j)
        decreases UnaryLhs(grammars) - State().nodemap[i][j].Keys, |State().chart[i][j]| - di
      {
        CloseNode(gi, i, j, di, st0);
        di := di + 1;
      }
    }

    /** Applies grammar `gi`'s unary rules to the `di`-th node of (i, j);
        the rules can only add categories to the span, so the closure
        terminates. */
    method CloseNode(gi: nat, i: int, j: int, di: nat, ghost st0: ChartState)
      requires Valid() && gi < |grammars| && 0 <= i < j <= n && di < |chart[i, j]|
      requires Grows(st0, State(), n) && SameOutside(st0, State(), n, i, j) && goalIdx == st0.goalIdx
      requires ClosedUpTo(State(), n, grammars[gi], i, j, di) && UnaryOnly(st0, State(), n, grammars[gi], i, j)
      modifies this`goalIdx, forest, chart, nodemap
      ensures Valid() && Grows(st0, State(), n) && SameOutside(st0, State(), n, i, j) && goalIdx == st0.goalIdx
      ensures ClosedUpTo(State(), n, grammars[gi], i, j, di + 1) && UnaryOnly(st0, State(), n, grammars[gi], i, j)
      ensures var lhs := UnaryLhs(grammars);
        lhs - State().nodemap[i][j].Keys < lhs - old(State()).nodemap[i][j].Keys ||
        (lhs - State().nodemap[i][j].Keys == lhs - old(State()).nodemap[i][j].Keys &&
         State().chart[i][j] == old(State()).chart[i][j])
    {
      ghost var st := State();
      assert chart[i, j] == st.chart[i][j];
      var node := chart[i, j][di];
      var cat := forest.nodes[node].cat;
      UnaryRulesLhs(grammars, gi, cat, goalLabel);
      ApplyBin(i, j, UnaryRulesFor(grammars[gi], cat), [node], 0);
      CloseStep(st0, st, State(), Setting(), grammars[gi], i, j, di, UnaryLhs(grammars));
      UnaryOnlyStep(st0, st, State(), Setting(), grammars[gi], i, j, node);
    }
  
    /** `HasRuleForSpan(i, j, Distance(i, j))` of grammar `gi`. */
    predicate SpanOk(gi: nat, i: int, j: int)
      requires gi < |grammars| && 0 <= i <= n && 0 <= j <= n && input.DistanceCovers(n + 1)
    {
      grammars[gi].spanOk(i, j, input.Distance(i, j))
    }

    /** The first `k` nodes of (i, j) are closed under the unary rules of
        every grammar before `gi` that has rules for the span. */
    predicate ClosedBelow(st: ChartState, gi: nat, i: int, j: int, k: nat)
      requires GridShape(st, n) && gi <= |grammars| && 0 <= i < j <= n && input.DistanceCovers(n + 1)
    {
      forall g :: 0 <= g < gi && SpanOk(g, i, j) ==> ClosedUpTo(st, n, grammars[g], i, j, k)
    }

    /** One grammar further: the closure reached survives growth, and
        grammar `gi`, when it has rules for the span, closed it. */
    lemma ClosedBelowStep(st: ChartState, st': ChartState, gi: nat, i: int, j: int, k: nat)
      requires Grows(st, st', n) && gi < |grammars| && 0 <= i < j <= n && input.DistanceCovers(n + 1)
      requires ClosedBelow(st, gi, i, j, k) && k <= |st'.chart[i][j]|
      requires SpanOk(gi, i, j) ==> ClosedUpTo(st', n, grammars[gi], i, j, |st'.chart[i][j]|)
      ensures ClosedBelow(st', gi + 1, i, j, k)
    {
      forall g | 0 <= g < gi + 1 && SpanOk(g, i, j) ensures ClosedUpTo(st', n, grammars[g], i, j, k) {
        if g == gi {
          ClosedUpToGrows(st', st', n, grammars[g], i, j, |st'.chart[i][j]|, k);
        } else {
          ClosedUpToGrows(st, st', n, grammars[g], i, j, k, k);
        }
      }
    }

    /** Closes the node list of (i, j) under the unary rules of every
        grammar that has rules for the span, grammar by grammar: every node
        the span had before is closed under each of them, and the last such
        grammar closes the whole final list, nodes it created included. */
    method ApplyUnaryRules(i: int, j: int)
      requires Valid() && 0 <= i < j <= n
      modifies this`goalIdx, forest, chart, nodemap
      ensures Valid() && Grows(old(State()), State(), n) && SameOutside(old(State()), State(), n, i, j)
      ensures goalIdx == old(goalIdx)
      ensures forall gi :: 0 <= gi < |grammars| && SpanOk(gi, i, j) ==>
        ClosedUpTo(State(), n, grammars[gi], i, j, |old(State()).chart[i][j]|)
      ensures ClosedByLast(Spec(), State(), |grammars|, i, j)
      ensures UnaryMadeSince(Spec(), old(State()), State(), |grammars|, i, j)
    {
      SpecAgrees();
      ghost var st0 := State();
      ghost var k := |st0.chart[i][j]|;
      var gi := 0;
      while gi < |grammars|
        invariant Closing(st0, gi, i, j, k)
      {
        CloseGrammar(gi, i, j, st0, k);
        gi := gi + 1;
      }
    }

    /** The chart is valid and the unary closure of span (i, j), started
        from state `st0` whose node list there has `k` nodes, has given the
        first `gi` grammars their turn. */
    ghost predicate Closing(st0: ChartState, gi: nat, i: int, j: int, k: nat)
      reads this, forest, chart, nodemap, actCells
    {
      Valid() && gi <= |grammars| && 0 <= i < j <= n &&
      Grows(st0, State(), n) && SameOutside(st0, State(), n, i, j) && goalIdx == st0.goalIdx &&
      k == |st0.chart[i][j]| &&
      ClosedBelow(State(), gi, i, j, k) && ClosedByLast(Spec(), State(), gi, i, j) &&
      UnaryMadeSince(Spec(), st0, State(), gi, i, j)
    }

    /** Grammar `gi`'s turn in `ApplyUnaryRules`, which started from state
        `st0`: when it has rules for the span, the node list is closed
        under its unary rules. */
    method CloseGrammar(gi: nat, i: int, j: int, ghost st0: ChartState, ghost k: nat)
      requires Closing(st0, gi, i, j, k) && gi < |grammars|
      modifies this`goalIdx, forest, chart, nodemap
      ensures Closing(st0, gi + 1, i, j, k)
    {
      SpecAgrees();
      ghost var before := State();
      if SpanOk(gi, i, j) {
        CloseUnder(gi, i, j);
        GrowsTrans(st0, before, State(), n);
        SameOutsideTrans(st0, before, State(), n, i, j);
      }
      ClosedBelowStep(before, State(), gi, i, j, k);
      ClosedByLastStep(Spec(), before, State(), gi, i, j);
      UnaryMadeStep(Spec(), st0, before, State(), gi, i, j);
    }

    /** The first phase of span (i, j): every grammar with rules for the
        span completes its items there. */
    method CompleteSpan(i: int, j: int, syn: SyntacticConstraint?)
      requires Valid() && 0 <= i < j <= n && ConstraintOk(syn)
      modifies ActCells(), this`goalIdx, forest, chart, nodemap
      ensures Valid() && CompletedUpTo(Spec(), old(Acts()), old(State()), Acts(), State(), |grammars|, i, j)
      ensures ConstraintOk(syn)
    {
      SpecAgrees();
      ghost var st0, A0 := State(), Acts();
      assert A0 == AdvancedUpTo(Spec(), A0, st0, 0, i, j);
      var gi := 0;
      while gi < |grammars|
        invariant Completing(A0, st0, gi, i, j) && ConstraintOk(syn)
      {
        CompleteGrammar(gi, i, j, syn, A0, st0);
        gi := gi + 1;
      }
    }

    /** The chart is valid and the completion of span (i, j), started from
        cells `A0` and state `st0`, has given the first `gi` grammars their
        turn. */
    ghost predicate Completing(A0: seq<Cells>, st0: ChartState, gi: nat, i: int, j: int)
      reads this, forest, chart, nodemap, actCells
    {
      Valid() && gi <= |grammars| && CompletedUpTo(Spec(), A0, st0, Acts(), State(), gi, i, j)
    }

    /** Grammar `gi`'s turn in `CompleteSpan`, which started from cells
        `A0` and state `st0`. */
    method CompleteGrammar(gi: nat, i: int, j: int, syn: SyntacticConstraint?, ghost A0: seq<Cells>, ghost st0: ChartState)
      requires Completing(A0, st0, gi, i, j) && gi < |act| && ConstraintOk(syn)
      modifies act[gi].cells, this`goalIdx, forest, chart, nodemap
      ensures Completing(A0, st0, gi + 1, i, j) && ConstraintOk(syn)
    {
      SpecAgrees();
      ghost var A, st := Acts(), State();
      if SpanOk(gi, i, j) {
        CompleteItems(gi, i, j, syn);
      } else {
        GridSame(act[gi].cells, AdvancedGrid(Spec(), A[gi], st, gi, i, j));
      }
      CompletedUpToStep(Spec(), Setting(), A0, st0, A, st, Acts(), State(), gi, i, j);
    }

    /** Only grammar `gi`'s cells changed. */
    twostate lemma ActsOne(gi: nat)
      requires Shape() && gi < |act|
      requires forall g :: 0 <= g < |act| && g != gi ==> unchanged(act[g].cells)
      ensures Acts() == old(Acts())[gi := Grid(act[gi].cells)]
    {
    }

    /** The last phase of span (i, j): every grammar with rules for the
        span extends its items of (i, i) over the nodes now proved for
        (i, j). Only the active charts change. */
    method ExtendSpan(i: int, j: int)
      requires Shape() && ItemsOk() && ChartNodes(State(), n) && 0 <= i < j <= n
      modifies ActCells()
      ensures ItemsOk()
      ensures ActsShape(Spec(), old(Acts())) && Acts() == ExtendedUpTo(Spec(), old(Acts()), State(), |act|, i, j)
    {
      SpecAgrees();
      ghost var A1, st := Acts(), State();
      ghost var A := A1;
      assert A1 == ExtendedUpTo(Spec(), A1, st, 0, i, j);
      var gi := 0;
      while gi < |act|
        invariant 0 <= gi <= |act| && ItemsOk() && State() == st && Acts() == A
        invariant A == ExtendedUpTo(Spec(), A1, st, gi, i, j)
      {
        ExtendOverNewNodes(gi, i, j);
        ExtendedUpToStep(Spec(), A1, st, gi, i, j);
        A := Acts();
        gi := gi + 1;
      }
    }

    /** All of span (i, j): complete the items, close the node list under
        the unary rules, then extend the items waiting at (i, i). */
    method FillSpan(i: int, j: int, syn: SyntacticConstraint?)
      requires Valid() && 0 <= i < j <= n && ConstraintOk(syn)
      modifies ActCells(), this`goalIdx, forest, chart, nodemap
      ensures Valid() && goalIdx == old(goalIdx) && ConstraintOk(syn)
      ensures FillEffect(Spec(), old(Acts()), old(State()), Acts(), State(), i, j)
    {
      SpecAgrees();
      ghost var st0, A0 := State(), Acts();
      CompleteSpan(i, j, syn);
      ghost var st1, A1 := State(), Acts();
      ApplyUnaryRules(i, j);
      ghost var st2 := State();
      ExtendSpan(i, j);
      FillSpanEffect(Spec(), A0, st0, A1, st1, Acts(), st2, i, j);
    }

    /** The chart is valid and, of the spans shorter than `l` and of the
        spans of length `l` left of `i`, every span is filled. */
    ghost predicate Level(l: int, i: int)
      reads this, forest, chart, nodemap, actCells
    {
      Valid() && LevelInv(Spec(), Acts(), State(), l, i) && EdgesMade(Spec(), Setting(), Acts(), State(), l, i)
    }

    /** Fills span (i, i + l), the next one of its length. */
    method FillNext(l: int, i: int, syn: SyntacticConstraint?)
      requires Level(l, i) && 1 <= l && 0 <= i && i + l <= n && ConstraintOk(syn)
      modifies ActCells(), this`goalIdx, forest, chart, nodemap
      ensures Level(l, i + 1) && ConstraintOk(syn)
    {
      ghost var A, st := Acts(), State();
      FillSpan(i, i + l, syn);
      FillStep(Spec(), A, st, Acts(), State(), l, i);
      MadeStep(Spec(), Setting(), A, st, Acts(), State(), l, i);
    }

    /** Every span of length `l`, left to right, from the point where every
        shorter span is filled; then the goal-category nodes spanning the
        input are given to the goal rule, and the next length can start. */
    method FillLevel(l: int, syn: SyntacticConstraint?)
      requires Parsing(l) && 1 <= l <= n && ConstraintOk(syn)
      modifies ActCells(), this`goalIdx, forest, chart, nodemap
      ensures Parsing(l + 1)
    {
      FillRow(l, syn);
      NextLevel(l);
    }

    /** Fills the spans of length `l` from left to right. */
    method FillRow(l: int, syn: SyntacticConstraint?)
      requires Level(l, 0) && 1 <= l <= n && ConstraintOk(syn)
      modifies ActCells(), this`goalIdx, forest, chart, nodemap
      ensures Level(l, n + 1 - l)
    {
      var i := 0;
      while i != n + 1 - l
        invariant 0 <= i <= n + 1 - l && Level(l, i) && ConstraintOk(syn)
        decreases n + 1 - l - i
      {
        FillNext(l, i, syn);
        i := i + 1;
      }
    }

    /** The goal rule applied to one node of the goal category spanning the
        input: a goal node exists afterwards, and node lists are unchanged. */
    method ApplyGoalRule(node: nat)
      requires Valid() && 0 < n && node in chart[0, n] && node < |forest.nodes| && forest.nodes[node].cat == goalCat
      modifies this`goalIdx, forest, chart, nodemap
      ensures Valid() && Grows(old(State()), State(), n) && State().chart == old(State()).chart
      ensures goalIdx != -1 && (old(goalIdx) != -1 ==> goalIdx == old(goalIdx))
      ensures |State().edges| == |old(State()).edges| + 1 && GoalEdge(State(), Setting(), |old(State()).edges|)
    {
      ghost var st := State();
      assert chart[0, n] == st.chart[0][n];
      ApplyGoal(st, Setting(), [node]);
      ApplyRule(0, n, goalRule, [node], 0);
      ChartOkNodes(State(), Setting());
      ItemsGrow(|st.nodes|);
    }

    /** Gives every node of span (0, n) with the goal category to the goal
        rule. */
    method ScanForGoal()
      requires Valid() && 0 < n
      modifies this`goalIdx, forest, chart, nodemap
      ensures Valid() && Grows(old(State()), State(), n) && State().chart == old(State()).chart
      ensures GoalScanned(State(), Setting())
      ensures old(goalIdx) != -1 ==> goalIdx == old(goalIdx)
      ensures GoalsOnly(old(State()), State(), Setting())
    {
      ghost var st0 := State();
      var d := 0;
      while d < |chart[0, n]|
        invariant Valid() && Grows(st0, State(), n) && State().chart == st0.chart
        invariant GoalsOnly(st0, State(), Setting())
        invariant chart[0, n] == st0.chart[0][n] && 0 <= d <= |chart[0, n]|
        invariant forall e :: 0 <= e < d && forest.nodes[chart[0, n][e]].cat == goalCat ==> goalIdx != -1
        invariant st0.goalIdx != -1 ==> goalIdx == st0.goalIdx
      {
        var node := chart[0, n][d];
        if forest.nodes[node].cat == goalCat {
          ghost var before := State();
          ApplyGoalRule(node);
          GrowsTrans(st0, before, State(), n);
          GoalsOnlyStep(st0, before, State(), Setting());
        }
        d := d + 1;
      }
    }

    /** Seeds the active charts, builds the constraint mask when the
        metadata has constraints, fills the spans by increasing length and,
        after every length, gives the goal-category nodes spanning the whole
        input to the goal rule. Afterwards every span is filled as `Parsed`
        says, and a goal node is found exactly when some node of the goal
        category spans the input. */
    method Parse() returns (found: bool)
      requires Valid() && Empty() && ConstraintsFit()
      modifies ActCells(), this`goalIdx, forest, chart, nodemap
      ensures Valid() && Parsed(Spec(), Setting(), Acts(), State())
      ensures found <==> goalIdx != -1
      ensures found <==> GoalSpanned(State(), Setting())
    {
      ghost var st := State();
      SeedActiveCharts();
      assert State() == st;
      SpecAgrees();
      LevelStart(Spec(), Acts(), State());
      assert Parsing(1);
      var syn := MakeConstraint();
      ParseLevels(syn);
      found := goalIdx > -1;
      GoalFoundIff(State(), Setting());
    }

    /** The constraint mask of the metadata's `constraints` attribute, or
        null when there is none. */
    method MakeConstraint() returns (syn: SyntacticConstraint?)
      requires ConstraintsFit()
      ensures ConstraintOk(syn) && (syn != null ==> fresh(syn.cells))
    {
      syn := null;
      if meta.Some? {
        var constraints := GetSGMLValue(meta.value, "constraints");
        if constraints != "" {
          syn := new SyntacticConstraint(constraints, meta.value.sourceLength);
        }
      }
    }

    /** Fills the spans by increasing length; after each length the
        goal-category nodes spanning the input are given to the goal rule. */
    method ParseLevels(syn: SyntacticConstraint?)
      requires Parsing(1) && ConstraintOk(syn)
      modifies ActCells(), this`goalIdx, forest, chart, nodemap
      ensures Parsing(n + 1)
    {
      var l := 1;
      while l != n + 1
        invariant 1 <= l && Parsing(l)
        decreases n + 1 - l
      {
        FillLevel(l, syn);
        l := l + 1;
      }
    }

    /** Every span shorter than `l` is filled, and the goal-category nodes
        spanning the input have been given to the goal rule (vacuously before
        the first level, when the span has no nodes). */
    ghost predicate Parsing(l: int)
      reads this, forest, chart, nodemap, actCells
    {
      l <= n + 1 && Level(l, 0) && GoalScanned(State(), Setting())
    }

    /** Once every span of length `l` is filled, the goal-category nodes
        spanning the input are given to the goal rule. */
    method NextLevel(l: int)
      requires Level(l, n + 1 - l) && 1 <= l <= n
      modifies this`goalIdx, forest, chart, nodemap
      ensures Parsing(l + 1)
    {
      LevelNext(Spec(), Acts(), State(), l);
      MadeNext(Spec(), Setting(), Acts(), State(), l);
      ScanForGoal();
      LevelKept(l + 1);
    }

    /** What leaves the active cells and the node lists alone keeps every
        filled span filled. */
    twostate lemma LevelKept(l: int)
      requires old(Level(l, 0)) && Valid() && Grows(old(State()), State(), n) && State().chart == old(State()).chart
      requires unchanged(actCells) && GoalsOnly(old(State()), State(), Setting())
      ensures Level(l, 0)
    {
      assert Acts() == old(Acts());
      LevelGrows(Spec(), Acts(), old(State()), State(), l, 0);
      MadeGrows(Spec(), Setting(), Acts(), old(State()), State(), l, 0);
    }
  }

  /** The parser object: the goal symbol and the grammars; every parse runs
      a fresh passive chart over the given lattice and forest. */
  class ExhaustiveBottomUpParser {
    const goalCat: int
    const goalLabel: int
    const grammars: seq<Grammar>

    constructor (goalCat: int, goalLabel: int, grammars: seq<Grammar>)
      ensures this.goalCat == goalCat && this.goalLabel == goalLabel && this.grammars == grammars
    {
      this.goalCat := goalCat;
      this.goalLabel := goalLabel;
      this.grammars := grammars;
    }

    /** Parses the lattice into the empty forest; the answer is whether the
        forest ends up with a goal node. The passive chart the parse ran is
        handed back as a ghost, with every span of the input filled. */
    method Parse(input: Lattice, meta: Option<SentenceMetadata>, forest: Hypergraph) returns (found: bool, ghost pc: PassiveChart)
      requires WellFormed(input.arcs) && input.DistanceCovers(|input.arcs| + 1)
      requires NoGoalRules(grammars, goalLabel) && ConstraintsFitFor(meta, |input.arcs|)
      requires forest.nodes == [] && forest.edges == []
      modifies forest
      ensures found <==> exists v :: 0 <= v < |forest.nodes| && forest.nodes[v].cat == goalLabel
      ensures pc.forest == forest && pc.grammars == grammars && pc.input == input && pc.Valid()
      ensures Parsed(pc.Spec(), pc.Setting(), pc.Acts(), pc.State())
      ensures found <==> GoalSpanned(pc.State(), pc.Setting())
    {
      var chart := new PassiveChart(goalCat, goalLabel, grammars, input, meta, forest);
      found := chart.Parse();
      GoalNodeIff(chart.State(), chart.Setting());
      pc := chart;
    }
  }
}
