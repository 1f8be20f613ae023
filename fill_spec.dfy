/** What filling the chart of decoder/bottom_up_parser.cc computes, stated
    on values: the rules completing a cell applies, the items every active
    cell holds before and after its span is filled, and the invariant the
    parse loop keeps from one span to the next. */
module FillSpecs {
  import opened Forest
  import opened Lattices
  import opened ActiveCharts
  import opened ChartStates

  // ---------------------------------------------------------------
  // Completing the items of one cell

  /** Some edge over (i, j) applies rule `r` to `tail` with lattice cost `cost`. */
  predicate HasEdge(st: ChartState, i: int, j: int, r: Rule, tail: seq<nat>, cost: int)
  {
    exists e :: 0 <= e < |st.edges| && st.edges[e].rule == r && st.edges[e].tail == tail &&
      st.edges[e].i == i && st.edges[e].j == j && st.edges[e].latticeCost == cost
  }

  /** The item's trie state has no rules, or each of its rules has an edge
      over (i, j) from the item's antecedents and cost. */
  predicate BinApplied(st: ChartState, g: Grammar, i: int, j: int, item: ActiveItem)
  {
    item.state in g.bins ==>
      forall k :: 0 <= k < |g.bins[item.state]| ==> HasEdge(st, i, j, g.bins[item.state][k], item.ants, item.cost)
  }

  /** Every item of `items` has its bin applied over (i, j). */
  predicate BinsApplied(st: ChartState, g: Grammar, i: int, j: int, items: seq<ActiveItem>)
  {
    forall p :: 0 <= p < |items| ==> BinApplied(st, g, i, j, items[p])
  }

  lemma BinsAppliedGrows(st: ChartState, st': ChartState, g: Grammar, i: int, j: int, items: seq<ActiveItem>)
    requires st.edges <= st'.edges && BinsApplied(st, g, i, j, items)
    ensures BinsApplied(st', g, i, j, items)
  {
    forall p | 0 <= p < |items| ensures BinApplied(st', g, i, j, items[p]) {
      BinAppliedGrows(st, st', g, i, j, items[p]);
    }
  }

  /** Edge `e` applies a rule of the bin of some item of `items` over (i, j),
      to that item's antecedents and with its cost. */
  predicate FromItems(st: ChartState, e: nat, g: Grammar, i: int, j: int, items: seq<ActiveItem>)
    requires e < |st.edges|
  {
    exists p :: 0 <= p < |items| && items[p].state in g.bins && st.edges[e].rule in g.bins[items[p].state] &&
      st.edges[e].tail == items[p].ants && st.edges[e].latticeCost == items[p].cost &&
      st.edges[e].i == i && st.edges[e].j == j
  }

  /** No rule of the grammar's bins has the goal label on its left. */
  predicate BinsAvoid(g: Grammar, goalLabel: int)
  {
    forall q, k :: q in g.bins && 0 <= k < |g.bins[q]| ==> g.bins[q][k].lhs != goalLabel
  }

  /** The items of a cell completed in order: each item whose trie state has
      a rule bin has the bin applied over (i, j), unless the constraints
      `skip` the span. */
  function CompleteAll(st: ChartState, s: Setting, g: Grammar, skip: bool, i: int, j: int, items: seq<ActiveItem>): (st': ChartState)
    requires GridShape(st, s.n) && NodeMapOk(st, s.n) && 0 <= i < j <= s.n
    ensures GridShape(st', s.n) && NodeMapOk(st', s.n)
    decreases |items|
  {
    if items == [] then st
    else
      var mid := CompleteAll(st, s, g, skip, i, j, items[..|items| - 1]);
      var item := items[|items| - 1];
      if skip || item.state !in g.bins then mid
      else ApplyAll(mid, s, i, j, g.bins[item.state], item.ants, item.cost)
  }

  /** One more item of the cell completed. */
  lemma CompleteAllSnoc(st: ChartState, s: Setting, g: Grammar, skip: bool, i: int, j: int, items: seq<ActiveItem>, k: nat)
    requires GridShape(st, s.n) && NodeMapOk(st, s.n) && 0 <= i < j <= s.n && k < |items|
    ensures var mid := CompleteAll(st, s, g, skip, i, j, items[..k]);
      CompleteAll(st, s, g, skip, i, j, items[..k + 1]) ==
        if skip || items[k].state !in g.bins then mid else ApplyAll(mid, s, i, j, g.bins[items[k].state], items[k].ants, items[k].cost)
  {
    assert items[..k + 1][..k] == items[..k];
  }

  /** Applied bins stay applied as the forest grows. */
  lemma BinAppliedGrows(st: ChartState, st': ChartState, g: Grammar, i: int, j: int, item: ActiveItem)
    requires st.edges <= st'.edges && BinApplied(st, g, i, j, item)
    ensures BinApplied(st', g, i, j, item)
  {
    if item.state in g.bins {
      var rs := g.bins[item.state];
      forall k | 0 <= k < |rs| ensures HasEdge(st', i, j, rs[k], item.ants, item.cost) {
        var e :| 0 <= e < |st.edges| && st.edges[e].rule == rs[k] && st.edges[e].tail == item.ants &&
          st.edges[e].i == i && st.edges[e].j == j && st.edges[e].latticeCost == item.cost;
        assert st'.edges[e] == st.edges[e];
      }
    }
  }

  /** One more item completed: what held for the items before still holds,
      and the new item's bin, when applied, is applied and accounts for
      every new edge. */
  lemma CompleteLast(st: ChartState, mid: ChartState, st': ChartState, s: Setting, g: Grammar, skip: bool, i: int, j: int,
                     front: seq<ActiveItem>, item: ActiveItem)
    requires GridShape(st, s.n) && GridShape(mid, s.n) && 0 <= i < j <= s.n
    requires st.edges <= mid.edges && mid.edges <= st'.edges
    requires !skip ==> BinsApplied(mid, g, i, j, front)
    requires forall e :: |st.edges| <= e < |mid.edges| ==> FromItems(mid, e, g, i, j, front)
    requires if skip || item.state !in g.bins then st' == mid
      else AppliedAll(mid, st', s, i, j, g.bins[item.state], item.ants, item.cost)
    ensures !skip ==> BinsApplied(st', g, i, j, front + [item])
    ensures forall e :: |st.edges| <= e < |st'.edges| ==> FromItems(st', e, g, i, j, front + [item])
  {
    var items := front + [item];
    if !skip {
      forall p | 0 <= p < |items| ensures BinApplied(st', g, i, j, items[p]) {
        if p < |front| {
          assert items[p] == front[p];
          BinAppliedGrows(mid, st', g, i, j, front[p]);
        } else if item.state in g.bins {
          var rs := g.bins[item.state];
          forall k | 0 <= k < |rs| ensures HasEdge(st', i, j, rs[k], item.ants, item.cost) {
            var e := |mid.edges| + k;
            assert st'.edges[e].rule == rs[k];
          }
        }
      }
    }
    forall e | |st.edges| <= e < |st'.edges| ensures FromItems(st', e, g, i, j, items) {
      if e < |mid.edges| {
        assert FromItems(mid, e, g, i, j, front);
        var p :| 0 <= p < |front| && front[p].state in g.bins && mid.edges[e].rule in g.bins[front[p].state] &&
          mid.edges[e].tail == front[p].ants && mid.edges[e].latticeCost == front[p].cost &&
          mid.edges[e].i == i && mid.edges[e].j == j;
        assert st'.edges[e] == mid.edges[e] && items[p] == front[p];
      } else {
        var rs := g.bins[item.state];
        var k := e - |mid.edges|;
        assert st'.edges[e].rule == rs[k];
        assert items[|front|] == item;
      }
    }
  }

  /** Completing one item keeps the chart's invariant and, unless skipped
      or without rules, applies its bin as `AppliedAll` says. */
  lemma CompleteOne(mid: ChartState, s: Setting, g: Grammar, skip: bool, i: int, j: int, item: ActiveItem)
    requires StateOk(mid, s) && 0 <= i < j <= s.n && NodesIn(item.ants, mid.nodes) && BinsAvoid(g, s.goalLabel)
    ensures skip || item.state !in g.bins ||
      var st' := ApplyAll(mid, s, i, j, g.bins[item.state], item.ants, item.cost);
      StateOk(st', s) && AppliedAll(mid, st', s, i, j, g.bins[item.state], item.ants, item.cost)
  {
    if !(skip || item.state !in g.bins) {
      var rs := g.bins[item.state];
      assert forall k :: 0 <= k < |rs| ==> rs[k].lhs != s.goalLabel;
      ApplyAllOk(mid, s, i, j, rs, item.ants, item.cost);
      ApplyAllApplied(mid, s, i, j, rs, item.ants, item.cost);
    }
  }

  /** What completing a cell leaves: the chart's invariant kept, the state
      grown only at (i, j) and the goal untouched; nothing changed when
      skipped, every item's bin applied otherwise; every new edge from the
      bin of some item of the cell. */
  predicate CompletedAll(st: ChartState, st': ChartState, s: Setting, g: Grammar, skip: bool, i: int, j: int, items: seq<ActiveItem>)
    requires GridShape(st, s.n) && 0 <= i < j <= s.n
  {
    StateOk(st', s) && Grows(st, st', s.n) && SameOutside(st, st', s.n, i, j) && st'.goalIdx == st.goalIdx &&
    (skip ==> st' == st) &&
    (!skip ==> BinsApplied(st', g, i, j, items)) &&
    (forall e :: |st.edges| <= e < |st'.edges| ==> FromItems(st', e, g, i, j, items))
  }

  /** Completing a cell does what `CompletedAll` says. */
  lemma {:induction false} CompleteAllApplied(st: ChartState, s: Setting, g: Grammar, skip: bool, i: int, j: int, items: seq<ActiveItem>)
    requires StateOk(st, s) && 0 <= i < j <= s.n && AntsIn(items, |st.nodes|) && BinsAvoid(g, s.goalLabel)
    ensures CompletedAll(st, CompleteAll(st, s, g, skip, i, j, items), s, g, skip, i, j, items)
    decreases |items|
  {
    if items != [] {
      var front := items[..|items| - 1];
      var item := items[|items| - 1];
      assert items == front + [item];
      assert AntsIn(front, |st.nodes|) by {
        forall p, q | 0 <= p < |front| && 0 <= q < |front[p].ants| ensures front[p].ants[q] < |st.nodes| {
          assert front[p] == items[p];
        }
      }
      CompleteAllApplied(st, s, g, skip, i, j, front);
      var mid := CompleteAll(st, s, g, skip, i, j, front);
      var st' := CompleteAll(st, s, g, skip, i, j, items);
      assert NodesIn(item.ants, mid.nodes) by {
        forall q | 0 <= q < |item.ants| ensures item.ants[q] < |mid.nodes| {
          assert items[|items| - 1].ants[q] < |st.nodes|;
        }
      }
      CompleteOne(mid, s, g, skip, i, j, item);
      if !(skip || item.state !in g.bins) {
        GrowsTrans(st, mid, st', s.n);
        SameOutsideTrans(st, mid, st', s.n, i, j);
      }
      CompleteLast(st, mid, st', s, g, skip, i, j, front, item);
    }
  }


  // ---------------------------------------------------------------
  // The active cells of the parse

  /** What the parse is fixed by: the grammars, the lattice of `n`
      positions, and whether the syntactic constraints skip the completed
      items of grammar g over span (x, y). */
  datatype Setup = Setup(grammars: seq<Grammar>, input: Lattice, n: nat, skips: (nat, int, int) -> bool)

  /** The active cells of one grammar, indexed by span. */
  type Cells = seq<seq<seq<ActiveItem>>>

  predicate Square<T>(c: seq<seq<T>>, size: nat)
  {
    |c| == size && forall x :: 0 <= x < size ==> |c[x]| == size
  }

  /** The lattice has `n` positions and, if it has one, a distance table
      over all of them. */
  predicate SetupOk(u: Setup)
  {
    |u.input.arcs| == u.n && u.input.DistanceCovers(u.n + 1)
  }

  /** `C` has a cell for every span. */
  predicate Shaped(u: Setup, C: Cells)
  {
    SetupOk(u) && Square(C, u.n + 1)
  }

  /** One grid of cells per grammar. */
  predicate ActsShape(u: Setup, A: seq<Cells>)
  {
    SetupOk(u) && |A| == |u.grammars| && forall g :: 0 <= g < |A| ==> Shaped(u, A[g])
  }

  /** `HasRuleForSpan(x, y, Distance(x, y))` of grammar g. */
  predicate SpanOk(u: Setup, g: nat, x: int, y: int)
    requires g < |u.grammars| && 0 <= x <= u.n && 0 <= y <= u.n && u.input.DistanceCovers(u.n + 1)
  {
    u.grammars[g].spanOk(x, y, u.input.Distance(x, y))
  }

  /** Every node list of the chart names nodes of the forest. */
  predicate ChartNodes(st: ChartState, n: nat)
    requires GridShape(st, n)
  {
    forall x, y :: 0 <= x <= n && 0 <= y <= n ==> NodesIn(st.chart[x][y], st.nodes)
  }

  lemma ChartOkNodes(st: ChartState, s: Setting)
    requires StateOk(st, s)
    ensures ChartNodes(st, s.n)
  {
    forall x, y | 0 <= x <= s.n && 0 <= y <= s.n ensures NodesIn(st.chart[x][y], st.nodes) {
      forall d | 0 <= d < |st.chart[x][y]| ensures st.chart[x][y][d] < |st.nodes| {
      }
    }
  }

  /** The node lists of the spans (k, y), k = 0 .. n. */
  function Col(st: ChartState, n: nat, y: nat): (c: seq<seq<nat>>)
    requires GridShape(st, n) && y <= n
    ensures |c| == n + 1 && forall k :: 0 <= k <= n ==> c[k] == st.chart[k][y]
  {
    seq(n + 1, k requires 0 <= k <= n => st.chart[k][y])
  }

  /** The items the lattice arcs carried into cell (x, y) of grammar g from
      the fills of the spans (x, y') with y' < upto that the grammar has
      rules for: the items of (x, y' - 1) moved over the arcs of length
      y - y' + 1 that leave position y' - 1. */
  function Arrived(u: Setup, C: Cells, g: nat, x: int, y: int, upto: int): seq<ActiveItem>
    requires Shaped(u, C) && g < |u.grammars| && 0 <= x < y <= u.n && upto <= y
    decreases upto
  {
    if upto <= x + 1 then []
    else
      var carried := if SpanOk(u, g, x, upto - 1) then ArcItems(u.grammars[g], u.input.arcs[upto - 2], y - upto + 2, C[x][upto - 2]) else [];
      Arrived(u, C, g, x, y, upto - 1) + carried
  }

  /** The items the fill of (x, y) moves into the cell: those of each (x, k),
      x < k < y, over the nodes of (k, y), then those of (x, y - 1) over the
      arcs of length 1 leaving position y - 1. */
  function Advanced(u: Setup, C: Cells, st: ChartState, g: nat, x: int, y: int): seq<ActiveItem>
    requires Shaped(u, C) && g < |u.grammars| && 0 <= x < y <= u.n
    requires GridShape(st, u.n) && ChartNodes(st, u.n)
  {
    SplitItems(u.grammars[g], C[x], Col(st, u.n, y), st.nodes, x + 1, y) +
    ArcItems(u.grammars[g], u.input.arcs[y - 1], 1, C[x][y - 1])
  }

  /** The items of (x, x) extended over the nodes of (x, y). */
  function Ext(u: Setup, C: Cells, st: ChartState, g: nat, x: int, y: int): seq<ActiveItem>
    requires Shaped(u, C) && g < |u.grammars| && 0 <= x < y <= u.n
    requires GridShape(st, u.n) && ChartNodes(st, u.n)
  {
    CombineCells(u.grammars[g], C[x][x], st.chart[x][y], st.nodes)
  }

  /** Cell (x, y) of grammar g once the dots are advanced for (i, j)
      (`AdvanceDotsForAllItemsInCell`): (i, j) gains the advanced items and
      every later cell of row i the items of (i, j - 1) over the longer arcs
      leaving position j - 1; nothing else changes. */
  function Moved(u: Setup, C: Cells, st: ChartState, g: nat, i: int, j: int, x: int, y: int): seq<ActiveItem>
    requires Shaped(u, C) && g < |u.grammars| && 0 <= i < j <= u.n && 0 <= x <= u.n && 0 <= y <= u.n
    requires GridShape(st, u.n) && ChartNodes(st, u.n)
  {
    if x != i || y < j then C[x][y]
    else if y == j then C[i][j] + Advanced(u, C, st, g, i, j)
    else C[i][y] + ArcItems(u.grammars[g], u.input.arcs[j - 1], y - j + 1, C[i][j - 1])
  }

  /** The dots move only for a grammar with rules for the span. */
  function Advance(u: Setup, C: Cells, st: ChartState, g: nat, i: int, j: int, x: int, y: int): seq<ActiveItem>
    requires Shaped(u, C) && g < |u.grammars| && 0 <= i < j <= u.n && 0 <= x <= u.n && 0 <= y <= u.n
    requires GridShape(st, u.n) && ChartNodes(st, u.n)
  {
    if SpanOk(u, g, i, j) then Moved(u, C, st, g, i, j, x, y) else C[x][y]
  }

  /** Cell (x, y) of grammar g once span (i, j) is filled, `st'` being the
      chart after the unary closure: the advance and, at (i, j) when the
      grammar has rules for it, the extension over the span's final nodes. */
  function AfterFill(u: Setup, C: Cells, st: ChartState, st': ChartState, g: nat, i: int, j: int, x: int, y: int): seq<ActiveItem>
    requires Shaped(u, C) && g < |u.grammars| && 0 <= i < j <= u.n && 0 <= x <= u.n && 0 <= y <= u.n
    requires GridShape(st, u.n) && ChartNodes(st, u.n) && GridShape(st', u.n) && ChartNodes(st', u.n)
  {
    Advance(u, C, st, g, i, j, x, y) +
    (if x == i && y == j && SpanOk(u, g, i, j) then Ext(u, C, st', g, i, j) else [])
  }

  /** The items grammar g completes when (i, j) is filled: those already in
      the cell, then those the fill advances into it. */
  function Pending(u: Setup, C: Cells, st: ChartState, g: nat, i: int, j: int): seq<ActiveItem>
    requires Shaped(u, C) && g < |u.grammars| && 0 <= i < j <= u.n
    requires GridShape(st, u.n) && ChartNodes(st, u.n)
  {
    C[i][j] + Advanced(u, C, st, g, i, j)
  }

  /** Grammar g's cells once its dots are advanced for (i, j). */
  function AdvancedGrid(u: Setup, C: Cells, st: ChartState, g: nat, i: int, j: int): (C': Cells)
    requires Shaped(u, C) && g < |u.grammars| && 0 <= i < j <= u.n
    requires GridShape(st, u.n) && ChartNodes(st, u.n)
    ensures Shaped(u, C')
    ensures forall x, y :: 0 <= x <= u.n && 0 <= y <= u.n ==> C'[x][y] == Advance(u, C, st, g, i, j, x, y)
  {
    seq(u.n + 1, x requires 0 <= x <= u.n => seq(u.n + 1, y requires 0 <= y <= u.n => Advance(u, C, st, g, i, j, x, y)))
  }

  /** The cells of every grammar once the first `gi` grammars have
      advanced their dots for (i, j). */
  function AdvancedUpTo(u: Setup, A: seq<Cells>, st: ChartState, gi: nat, i: int, j: int): (A': seq<Cells>)
    requires ActsShape(u, A) && gi <= |A| && 0 <= i < j <= u.n
    requires GridShape(st, u.n) && ChartNodes(st, u.n)
    ensures ActsShape(u, A')
    ensures forall g :: 0 <= g < |A| ==> A'[g] == if g < gi then AdvancedGrid(u, A[g], st, g, i, j) else A[g]
  {
    seq(|A|, g requires 0 <= g < |A| => if g < gi then AdvancedGrid(u, A[g], st, g, i, j) else A[g])
  }

  /** Grammar g's cells once the items of (x, x) are extended over the
      node list of (x, y) in `st`, when the grammar has rules for the span:
      only cell (x, y) changes. */
  function ExtendedGrid(u: Setup, C: Cells, st: ChartState, g: nat, x: int, y: int): (C': Cells)
    requires Shaped(u, C) && g < |u.grammars| && 0 <= x < y <= u.n
    requires GridShape(st, u.n) && ChartNodes(st, u.n)
    ensures Shaped(u, C')
  {
    Set2(C, x, y, C[x][y] + (if SpanOk(u, g, x, y) then Ext(u, C, st, g, x, y) else []))
  }

  /** The cells of every grammar once the first `gi` grammars have
      extended their items over the node list of (i, j). */
  function ExtendedUpTo(u: Setup, A: seq<Cells>, st: ChartState, gi: nat, i: int, j: int): (A': seq<Cells>)
    requires ActsShape(u, A) && gi <= |A| && 0 <= i < j <= u.n
    requires GridShape(st, u.n) && ChartNodes(st, u.n)
    ensures ActsShape(u, A')
    ensures forall g :: 0 <= g < |A| ==> A'[g] == if g < gi then ExtendedGrid(u, A[g], st, g, i, j) else A[g]
  {
    seq(|A|, g requires 0 <= g < |A| => if g < gi then ExtendedGrid(u, A[g], st, g, i, j) else A[g])
  }

  /** One more grammar extended. */
  lemma ExtendedUpToStep(u: Setup, A: seq<Cells>, st: ChartState, gi: nat, i: int, j: int)
    requires ActsShape(u, A) && gi < |A| && 0 <= i < j <= u.n
    requires GridShape(st, u.n) && ChartNodes(st, u.n)
    ensures ExtendedUpTo(u, A, st, gi, i, j)[gi := ExtendedGrid(u, A[gi], st, gi, i, j)] == ExtendedUpTo(u, A, st, gi + 1, i, j)
  {
  }

  /** Without rules for the span nothing is extended. */
  lemma ExtendedNone(u: Setup, C: Cells, st: ChartState, g: nat, x: int, y: int)
    requires Shaped(u, C) && g < |u.grammars| && 0 <= x < y <= u.n
    requires GridShape(st, u.n) && ChartNodes(st, u.n) && !SpanOk(u, g, x, y)
    ensures ExtendedGrid(u, C, st, g, x, y) == C
  {
    assert C[x][y] + [] == C[x][y];
    assert C[x][y := C[x][y]] == C[x];
  }

  /** One more grammar advanced. */
  lemma AdvancedUpToStep(u: Setup, A: seq<Cells>, st: ChartState, gi: nat, i: int, j: int)
    requires ActsShape(u, A) && gi < |A| && 0 <= i < j <= u.n
    requires GridShape(st, u.n) && ChartNodes(st, u.n)
    ensures AdvancedUpTo(u, A, st, gi, i, j)[gi := AdvancedGrid(u, A[gi], st, gi, i, j)] == AdvancedUpTo(u, A, st, gi + 1, i, j)
  {
  }

  /** The last of the first `gi` grammars that has rules for (x, y), if
      any, closes the whole node list of the span under its unary rules. */
  predicate ClosedByLast(u: Setup, st: ChartState, gi: nat, x: int, y: int)
    requires GridShape(st, u.n) && gi <= |u.grammars| && 0 <= x < y <= u.n && u.input.DistanceCovers(u.n + 1)
  {
    forall g :: 0 <= g < gi && SpanOk(u, g, x, y) && (forall h :: g < h < gi ==> !SpanOk(u, h, x, y)) ==>
      ClosedUpTo(st, u.n, u.grammars[g], x, y, |st.chart[x][y]|)
  }

  /** One grammar further: a grammar with rules for the span that closed
      the whole list becomes the last; one without leaves the state and
      the last grammar as they were. */
  lemma ClosedByLastStep(u: Setup, st: ChartState, st': ChartState, gi: nat, x: int, y: int)
    requires GridShape(st, u.n) && GridShape(st', u.n) && gi < |u.grammars| && 0 <= x < y <= u.n && u.input.DistanceCovers(u.n + 1)
    requires ClosedByLast(u, st, gi, x, y)
    requires SpanOk(u, gi, x, y) ==> ClosedUpTo(st', u.n, u.grammars[gi], x, y, |st'.chart[x][y]|)
    requires !SpanOk(u, gi, x, y) ==> st' == st
    ensures ClosedByLast(u, st', gi + 1, x, y)
  {
  }

  /** The closure survives growth that leaves the span's node list alone. */
  lemma ClosedByLastGrows(u: Setup, st: ChartState, st': ChartState, x: int, y: int)
    requires Grows(st, st', u.n) && 0 <= x < y <= u.n && u.input.DistanceCovers(u.n + 1)
    requires st'.chart[x][y] == st.chart[x][y] && ClosedByLast(u, st, |u.grammars|, x, y)
    ensures ClosedByLast(u, st', |u.grammars|, x, y)
  {
    forall g | 0 <= g < |u.grammars| && SpanOk(u, g, x, y) && (forall h :: g < h < |u.grammars| ==> !SpanOk(u, h, x, y))
      ensures ClosedUpTo(st', u.n, u.grammars[g], x, y, |st'.chart[x][y]|)
    {
      ClosedUpToGrows(st, st', u.n, u.grammars[g], x, y, |st.chart[x][y]|, |st.chart[x][y]|);
    }
  }

  /** The items grammar g completes at (x, y) when the span is filled:
      what the arcs carried in, then what the fill advances into the cell. */
  function Completed(u: Setup, C: Cells, st: ChartState, g: nat, x: int, y: int): seq<ActiveItem>
    requires Shaped(u, C) && g < |u.grammars| && 0 <= x < y <= u.n
    requires GridShape(st, u.n) && ChartNodes(st, u.n)
  {
    Arrived(u, C, g, x, y, y) + Advanced(u, C, st, g, x, y)
  }

  /** Cell (x, y) of grammar g after its span is filled: what the arcs
      carried in, then, when the grammar has rules for the span, what the
      fill advanced and the extension over the span's nodes. Unless the
      constraints skip the span, every item completed there (all but the
      extension) has its rule bin applied. */
  predicate FilledCell(u: Setup, C: Cells, st: ChartState, g: nat, x: int, y: int)
    requires Shaped(u, C) && g < |u.grammars| && 0 <= x < y <= u.n
    requires GridShape(st, u.n) && ChartNodes(st, u.n)
  {
    var completed := Completed(u, C, st, g, x, y);
    if SpanOk(u, g, x, y) then
      C[x][y] == completed + Ext(u, C, st, g, x, y) &&
      (!u.skips(g, x, y) ==> BinsApplied(st, u.grammars[g], x, y, completed))
    else
      C[x][y] == Arrived(u, C, g, x, y, y)
  }

  /** Span (x, y) is filled once every shorter span and, of its own length
      `l`, every span left of `i` is. */
  predicate FilledBy(l: int, i: int, x: int, y: int)
  {
    x < y && (y - x < l || (y - x == l && x < i))
  }

  /** The spans (x, y') filled so far are those with y' < Upto(l, i, x). */
  function Upto(l: int, i: int, x: int): int
  {
    x + l + (if x < i then 1 else 0)
  }

  /** Span (x, y) at the point where the spans shorter than `l` and the
      spans of length `l` left of `i` are filled: a filled span holds its
      final cells and its node list is closed by the last grammar with
      rules for it; any other holds what the arcs carried in so far. */
  predicate SpanInv(u: Setup, A: seq<Cells>, st: ChartState, l: int, i: int, x: int, y: int)
    requires ActsShape(u, A) && 0 <= x < y <= u.n && GridShape(st, u.n) && ChartNodes(st, u.n)
  {
    if FilledBy(l, i, x, y) then
      ClosedByLast(u, st, |u.grammars|, x, y) && forall g :: 0 <= g < |A| ==> FilledCell(u, A[g], st, g, x, y)
    else
      Upto(l, i, x) <= y && forall g :: 0 <= g < |A| ==> A[g][x][y] == Arrived(u, A[g], g, x, y, Upto(l, i, x))
  }

  /** The invariant of the parse loop: the diagonal cells hold their seeds
      and every span is as `SpanInv` says. */
  predicate LevelInv(u: Setup, A: seq<Cells>, st: ChartState, l: int, i: int)
  {
    ActsShape(u, A) && GridShape(st, u.n) && ChartNodes(st, u.n) && 1 <= l && 0 <= i &&
    (forall g, x :: 0 <= g < |A| && 0 <= x <= u.n ==> A[g][x][x] == Seed(u.grammars[g], x, x)) &&
    (forall x, y :: 0 <= x < y <= u.n ==> SpanInv(u, A, st, l, i, x, y))
  }

  /** Edge `e` is one the fill of its span (x, y) made, read off the cells
      and node lists as they now are: a rule of the bin of an item that a
      grammar with rules for the span, not skipped there, completed; or a
      unary rule of a grammar with rules for the span applied to one of
      its nodes. */
  predicate Made(u: Setup, A: seq<Cells>, st: ChartState, e: nat)
    requires ActsShape(u, A) && GridShape(st, u.n) && ChartNodes(st, u.n) && e < |st.edges|
  {
    var x, y := st.edges[e].i, st.edges[e].j;
    0 <= x < y <= u.n &&
    ((exists g :: 0 <= g < |A| && SpanOk(u, g, x, y) && !u.skips(g, x, y) &&
       FromItems(st, e, u.grammars[g], x, y, Completed(u, A[g], st, g, x, y))) ||
     UnaryMade(u, st, |A|, x, y, e))
  }

  /** Edge `e` is a goal edge, or lies over a span already filled and was
      made by that span's fill. */
  predicate EdgeMade(u: Setup, s: Setting, A: seq<Cells>, st: ChartState, l: int, i: int, e: nat)
    requires ActsShape(u, A) && GridShape(st, u.n) && ChartNodes(st, u.n) && s.n == u.n && e < |st.edges|
  {
    GoalEdge(st, s, e) || (FilledBy(l, i, st.edges[e].i, st.edges[e].j) && Made(u, A, st, e))
  }

  /** Every edge of the forest is accounted for. */
  predicate EdgesMade(u: Setup, s: Setting, A: seq<Cells>, st: ChartState, l: int, i: int)
    requires ActsShape(u, A) && GridShape(st, u.n) && ChartNodes(st, u.n) && s.n == u.n
  {
    forall e :: 0 <= e < |st.edges| ==> EdgeMade(u, s, A, st, l, i, e)
  }

  /** Every span is filled, and the forest holds no edge but the goal edges
      and those the fills made. */
  predicate Parsed(u: Setup, s: Setting, A: seq<Cells>, st: ChartState)
  {
    LevelInv(u, A, st, u.n + 1, 0) && s.n == u.n && EdgesMade(u, s, A, st, u.n + 1, 0)
  }

  /** What filling span (i, j) does, from cells `A` and state `st` to `A'`
      and `st'`: the state grows only at (i, j) and the span's node list
      ends closed by the last grammar with rules for it; every cell is as
      `AfterFill` says; every grammar with rules for the span that the
      constraints do not skip has applied the bins of its pending items;
      and every new edge is one the fill made, as `FillMade` says. */
  predicate FillEffect(u: Setup, A: seq<Cells>, st: ChartState, A': seq<Cells>, st': ChartState, i: int, j: int)
  {
    ActsShape(u, A) && ActsShape(u, A') && 0 <= i < j <= u.n &&
    GridShape(st, u.n) && ChartNodes(st, u.n) && GridShape(st', u.n) && ChartNodes(st', u.n) &&
    Grows(st, st', u.n) && SameOutside(st, st', u.n, i, j) && ClosedByLast(u, st', |u.grammars|, i, j) &&
    (forall g, x, y :: 0 <= g < |A| && 0 <= x <= u.n && 0 <= y <= u.n ==> A'[g][x][y] == AfterFill(u, A[g], st, st', g, i, j, x, y)) &&
    (forall g :: 0 <= g < |A| && SpanOk(u, g, i, j) && !u.skips(g, i, j) ==>
      BinsApplied(st', u.grammars[g], i, j, Pending(u, A[g], st, g, i, j))) &&
    (forall e :: |st.edges| <= e < |st'.edges| ==> FillMade(u, A, st, st', i, j, e))
  }

  /** Edge `e` applies, to a node of (i, j), a unary rule of one of the
      first `gi` grammars that has rules for the span. */
  predicate UnaryMade(u: Setup, st: ChartState, gi: nat, i: int, j: int, e: nat)
    requires GridShape(st, u.n) && gi <= |u.grammars| && 0 <= i < j <= u.n && u.input.DistanceCovers(u.n + 1)
    requires e < |st.edges|
  {
    exists g :: 0 <= g < gi && SpanOk(u, g, i, j) && UnaryFrom(st, u.n, u.grammars[g], i, j, e)
  }

  /** Every edge added since `st0` is `UnaryMade`. */
  predicate UnaryMadeSince(u: Setup, st0: ChartState, st: ChartState, gi: nat, i: int, j: int)
    requires GridShape(st, u.n) && gi <= |u.grammars| && 0 <= i < j <= u.n && u.input.DistanceCovers(u.n + 1)
  {
    forall e :: |st0.edges| <= e < |st.edges| ==> UnaryMade(u, st, gi, i, j, e)
  }

  /** One grammar further in the unary closure of (i, j): a grammar with
      rules for the span adds only its own unary edges; one without adds
      nothing. */
  lemma UnaryMadeStep(u: Setup, st0: ChartState, st: ChartState, st': ChartState, gi: nat, i: int, j: int)
    requires Grows(st, st', u.n) && gi < |u.grammars| && 0 <= i < j <= u.n && u.input.DistanceCovers(u.n + 1)
    requires UnaryMadeSince(u, st0, st, gi, i, j)
    requires SpanOk(u, gi, i, j) ==> UnaryOnly(st, st', u.n, u.grammars[gi], i, j)
    requires !SpanOk(u, gi, i, j) ==> st' == st
    ensures UnaryMadeSince(u, st0, st', gi + 1, i, j)
  {
    var gi' := gi + 1;
    forall e | |st0.edges| <= e < |st'.edges| ensures UnaryMade(u, st', gi', i, j, e) {
      if e < |st.edges| {
        assert UnaryMade(u, st, gi, i, j, e);
        var g :| 0 <= g < gi && SpanOk(u, g, i, j) && UnaryFrom(st, u.n, u.grammars[g], i, j, e);
        UnaryFromGrows(st, st', u.n, u.grammars[g], i, j, e);
      } else {
        assert UnaryFrom(st', u.n, u.grammars[gi], i, j, e);
      }
    }
  }

  /** Edge `e` is one the fill of (i, j), from cells `A` and state `st`,
      made: a rule of the bin of a pending item of a grammar with rules for
      the span that the constraints do not skip, or a unary rule of a
      grammar with rules for the span applied to one of its nodes. */
  predicate FillMade(u: Setup, A: seq<Cells>, st: ChartState, st': ChartState, i: int, j: int, e: nat)
    requires ActsShape(u, A) && 0 <= i < j <= u.n && GridShape(st, u.n) && ChartNodes(st, u.n)
    requires GridShape(st', u.n) && e < |st'.edges|
  {
    EdgeFromBelow(u, A, st, st', |A|, i, j, e) || UnaryMade(u, st', |A|, i, j, e)
  }

  // ---------------------------------------------------------------
  // The cells depend only on what they read

  lemma {:induction false} ArrivedSame(u: Setup, C: Cells, C': Cells, g: nat, x: int, y: int, upto: int)
    requires Shaped(u, C) && Shaped(u, C') && g < |u.grammars| && 0 <= x < y <= u.n && upto <= y
    requires forall z :: x <= z <= upto - 2 ==> C'[x][z] == C[x][z]
    ensures Arrived(u, C', g, x, y, upto) == Arrived(u, C, g, x, y, upto)
    decreases upto
  {
    if upto > x + 1 {
      ArrivedSame(u, C, C', g, x, y, upto - 1);
    }
  }

  lemma AdvancedSame(u: Setup, C: Cells, st: ChartState, C': Cells, st': ChartState, g: nat, x: int, y: int)
    requires Shaped(u, C) && Shaped(u, C') && g < |u.grammars| && 0 <= x < y <= u.n
    requires GridShape(st, u.n) && ChartNodes(st, u.n) && GridShape(st', u.n) && ChartNodes(st', u.n)
    requires forall z :: x <= z < y ==> C'[x][z] == C[x][z]
    requires forall k :: x < k < y ==> st'.chart[k][y] == st.chart[k][y]
    requires CatsKept(st.nodes, st'.nodes)
    ensures Advanced(u, C', st', g, x, y) == Advanced(u, C, st, g, x, y)
  {
    SplitItemsSame(u.grammars[g], C[x], Col(st, u.n, y), st.nodes, C'[x], Col(st', u.n, y), st'.nodes, x + 1, y);
  }

  lemma ExtSame(u: Setup, C: Cells, st: ChartState, C': Cells, st': ChartState, g: nat, x: int, y: int)
    requires Shaped(u, C) && Shaped(u, C') && g < |u.grammars| && 0 <= x < y <= u.n
    requires GridShape(st, u.n) && ChartNodes(st, u.n) && GridShape(st', u.n) && ChartNodes(st', u.n)
    requires C'[x][x] == C[x][x] && st'.chart[x][y] == st.chart[x][y] && CatsKept(st.nodes, st'.nodes)
    ensures Ext(u, C', st', g, x, y) == Ext(u, C, st, g, x, y)
  {
    CombineCellsKept(u.grammars[g], C[x][x], st.chart[x][y], st.nodes, st'.nodes);
  }

  // ---------------------------------------------------------------
  // The parse loop keeps the invariant

  /** A span filled before (i, i + l) keeps its cells and its closure. */
  lemma FilledKept(u: Setup, A: seq<Cells>, st: ChartState, A': seq<Cells>, st': ChartState, l: int, i: int, x: int, y: int)
    requires LevelInv(u, A, st, l, i) && i + l <= u.n && FillEffect(u, A, st, A', st', i, i + l)
    requires 0 <= x < y <= u.n && FilledBy(l, i, x, y)
    ensures SpanInv(u, A', st', l, i + 1, x, y)
  {
    var j := i + l;
    assert x != i || y < j;
    assert SpanInv(u, A, st, l, i, x, y);
    forall k | x < k < y ensures st'.chart[k][y] == st.chart[k][y] {
    }
    assert st'.chart[x][y] == st.chart[x][y];
    ClosedByLastGrows(u, st, st', x, y);
    forall g | 0 <= g < |A| ensures FilledCell(u, A'[g], st', g, x, y) {
      forall z | x <= z <= y ensures A'[g][x][z] == A[g][x][z] {
        assert A'[g][x][z] == AfterFill(u, A[g], st, st', g, i, j, x, z);
      }
      ArrivedSame(u, A[g], A'[g], g, x, y, y);
      AdvancedSame(u, A[g], st, A'[g], st', g, x, y);
      ExtSame(u, A[g], st, A'[g], st', g, x, y);
      assert FilledCell(u, A[g], st, g, x, y);
      if SpanOk(u, g, x, y) && !u.skips(g, x, y) {
        BinsAppliedGrows(st, st', u.grammars[g], x, y, Arrived(u, A[g], g, x, y, y) + Advanced(u, A[g], st, g, x, y));
      }
    }
  }

  /** Span (i, i + l) itself becomes filled. */
  lemma FilledNow(u: Setup, A: seq<Cells>, st: ChartState, A': seq<Cells>, st': ChartState, l: int, i: int)
    requires LevelInv(u, A, st, l, i) && i + l <= u.n && FillEffect(u, A, st, A', st', i, i + l)
    ensures SpanInv(u, A', st', l, i + 1, i, i + l)
  {
    var j := i + l;
    assert Upto(l, i, i) == j && SpanInv(u, A, st, l, i, i, j);
    forall g | 0 <= g < |A| ensures FilledCell(u, A'[g], st', g, i, j) {
      FilledNowCell(u, A[g], st, A'[g], st', g, i, j);
    }
    assert FilledBy(l, i + 1, i, j);
  }

  /** Grammar g's cell of the span just filled. */
  lemma FilledNowCell(u: Setup, C: Cells, st: ChartState, C': Cells, st': ChartState, g: nat, i: int, j: int)
    requires Shaped(u, C) && Shaped(u, C') && g < |u.grammars| && 0 <= i < j <= u.n
    requires GridShape(st, u.n) && ChartNodes(st, u.n) && GridShape(st', u.n) && ChartNodes(st', u.n)
    requires Grows(st, st', u.n) && SameOutside(st, st', u.n, i, j)
    requires C[i][j] == Arrived(u, C, g, i, j, j)
    requires forall x, y :: 0 <= x <= u.n && 0 <= y <= u.n ==> C'[x][y] == AfterFill(u, C, st, st', g, i, j, x, y)
    requires SpanOk(u, g, i, j) && !u.skips(g, i, j) ==> BinsApplied(st', u.grammars[g], i, j, Pending(u, C, st, g, i, j))
    ensures FilledCell(u, C', st', g, i, j)
  {
    forall k | i < k < j ensures st'.chart[k][j] == st.chart[k][j] {
    }
    forall z | i <= z < j ensures C'[i][z] == C[i][z] {
      assert C'[i][z] == AfterFill(u, C, st, st', g, i, j, i, z);
    }
    ArrivedSame(u, C, C', g, i, j, j);
    AdvancedSame(u, C, st, C', st', g, i, j);
    ExtSame(u, C, st', C', st', g, i, j);
    assert C'[i][j] == AfterFill(u, C, st, st', g, i, j, i, j);
  }

  /** A span not yet filled has gained what the arcs carried from the fill. */
  lemma UnfilledKept(u: Setup, A: seq<Cells>, st: ChartState, A': seq<Cells>, st': ChartState, l: int, i: int, x: int, y: int)
    requires LevelInv(u, A, st, l, i) && i + l <= u.n && FillEffect(u, A, st, A', st', i, i + l)
    requires 0 <= x < y <= u.n && !FilledBy(l, i + 1, x, y)
    ensures SpanInv(u, A', st', l, i + 1, x, y)
  {
    var j := i + l;
    assert SpanInv(u, A, st, l, i, x, y);
    forall g | 0 <= g < |A| ensures A'[g][x][y] == Arrived(u, A'[g], g, x, y, Upto(l, i + 1, x)) {
      RowKept(u, A[g], st, A'[g], st', g, i, j, x, if x != i then y + 1 else j);
      if x == i {
        assert A'[g][i][y] == AfterFill(u, A[g], st, st', g, i, j, i, y);
      }
      UnfilledCell(u, A[g], st, A'[g], g, l, i, x, y);
    }
  }

  /** Grammar g's cell of a span not yet filled. */
  lemma UnfilledCell(u: Setup, C: Cells, st: ChartState, C': Cells, g: nat, l: int, i: int, x: int, y: int)
    requires Shaped(u, C) && Shaped(u, C') && g < |u.grammars| && 1 <= l && 0 <= i && i + l <= u.n
    requires GridShape(st, u.n) && ChartNodes(st, u.n)
    requires 0 <= x < y <= u.n && !FilledBy(l, i + 1, x, y) && Upto(l, i, x) <= y
    requires C[x][y] == Arrived(u, C, g, x, y, Upto(l, i, x))
    requires forall z :: 0 <= z < (if x != i then y + 1 else i + l) ==> C'[x][z] == C[x][z]
    requires x == i ==> C'[i][y] == Advance(u, C, st, g, i, i + l, i, y) + []
    ensures Upto(l, i + 1, x) <= y && C'[x][y] == Arrived(u, C', g, x, y, Upto(l, i + 1, x))
  {
    var j := i + l;
    if x != i {
      ArrivedSame(u, C, C', g, x, y, Upto(l, i, x));
    } else {
      ArrivedSame(u, C, C', g, i, y, j);
      CarriedOnce(u, C, C', st, g, i, j, y);
    }
  }

  /** The cells of row x before column `upto` are untouched by the fill
      of (i, j) when the row is another or the columns lie before j. */
  lemma RowKept(u: Setup, C: Cells, st: ChartState, C': Cells, st': ChartState, g: nat, i: int, j: int, x: int, upto: int)
    requires Shaped(u, C) && Shaped(u, C') && g < |u.grammars| && 0 <= i < j <= u.n && 0 <= x <= u.n && upto <= u.n + 1
    requires GridShape(st, u.n) && ChartNodes(st, u.n) && GridShape(st', u.n) && ChartNodes(st', u.n)
    requires x != i || upto <= j
    requires forall x', y' :: 0 <= x' <= u.n && 0 <= y' <= u.n ==> C'[x'][y'] == AfterFill(u, C, st, st', g, i, j, x', y')
    ensures forall z :: 0 <= z < upto ==> C'[x][z] == C[x][z]
  {
    forall z | 0 <= z < upto ensures C'[x][z] == C[x][z] {
      assert C'[x][z] == AfterFill(u, C, st, st', g, i, j, x, z);
    }
  }

  /** The row of the span just filled, past it: the arcs carry the items of
      (i, j - 1) one fill further. */
  lemma CarriedOnce(u: Setup, C: Cells, C': Cells, st: ChartState, g: nat, i: int, j: int, y: int)
    requires Shaped(u, C) && Shaped(u, C') && g < |u.grammars| && 0 <= i < j < y <= u.n
    requires GridShape(st, u.n) && ChartNodes(st, u.n)
    requires C'[i][y] == Advance(u, C, st, g, i, j, i, y) + [] && C'[i][j - 1] == C[i][j - 1]
    requires C[i][y] == Arrived(u, C, g, i, y, j) && Arrived(u, C', g, i, y, j) == Arrived(u, C, g, i, y, j)
    ensures C'[i][y] == Arrived(u, C', g, i, y, j + 1)
  {
    var carried := if SpanOk(u, g, i, j) then ArcItems(u.grammars[g], u.input.arcs[j - 1], y - j + 1, C[i][j - 1]) else [];
    assert Arrived(u, C', g, i, y, j + 1) == Arrived(u, C', g, i, y, j) + carried;
    assert Advance(u, C, st, g, i, j, i, y) == C[i][y] + carried;
  }

  /** Filling span (i, i + l) moves the invariant one span to the right. */
  lemma FillStep(u: Setup, A: seq<Cells>, st: ChartState, A': seq<Cells>, st': ChartState, l: int, i: int)
    requires LevelInv(u, A, st, l, i) && i + l <= u.n && FillEffect(u, A, st, A', st', i, i + l)
    ensures LevelInv(u, A', st', l, i + 1)
  {
    assert ActsShape(u, A') && GridShape(st', u.n) && ChartNodes(st', u.n);
    forall g, x | 0 <= g < |A'| && 0 <= x <= u.n ensures A'[g][x][x] == Seed(u.grammars[g], x, x) {
      assert A'[g][x][x] == AfterFill(u, A[g], st, st', g, i, i + l, x, x);
    }
    var i' := i + 1;
    forall x, y | 0 <= x < y <= u.n ensures SpanInv(u, A', st', l, i', x, y) {
      if x == i && y == i + l {
        FilledNow(u, A, st, A', st', l, i);
      } else if FilledBy(l, i, x, y) {
        FilledKept(u, A, st, A', st', l, i, x, y);
      } else {
        UnfilledKept(u, A, st, A', st', l, i, x, y);
      }
    }
  }

  /** Once every span of length `l` is filled, the next length starts. */
  lemma LevelNext(u: Setup, A: seq<Cells>, st: ChartState, l: int)
    requires l <= u.n + 1 && LevelInv(u, A, st, l, u.n + 1 - l)
    ensures LevelInv(u, A, st, l + 1, 0)
  {
    var l' := l + 1;
    forall x, y | 0 <= x < y <= u.n ensures SpanInv(u, A, st, l', 0, x, y) {
      assert SpanInv(u, A, st, l, u.n + 1 - l, x, y);
      assert FilledBy(l, u.n + 1 - l, x, y) == FilledBy(l + 1, 0, x, y);
      if !FilledBy(l + 1, 0, x, y) {
        assert Upto(l, u.n + 1 - l, x) == Upto(l + 1, 0, x);
      }
    }
  }

  /** The invariant survives growth of the forest that leaves every node
      list alone (the goal scan). */
  lemma LevelGrows(u: Setup, A: seq<Cells>, st: ChartState, st': ChartState, l: int, i: int)
    requires LevelInv(u, A, st, l, i) && Grows(st, st', u.n) && st'.chart == st.chart
    ensures LevelInv(u, A, st', l, i)
  {
    assert ChartNodes(st', u.n) by {
      forall x, y | 0 <= x <= u.n && 0 <= y <= u.n ensures NodesIn(st'.chart[x][y], st'.nodes) {
        assert NodesIn(st.chart[x][y], st.nodes);
      }
    }
    forall x, y | 0 <= x < y <= u.n ensures SpanInv(u, A, st', l, i, x, y) {
      assert SpanInv(u, A, st, l, i, x, y);
      if FilledBy(l, i, x, y) {
        ClosedByLastGrows(u, st, st', x, y);
        forall g | 0 <= g < |A| ensures FilledCell(u, A[g], st', g, x, y) {
          assert FilledCell(u, A[g], st, g, x, y);
          AdvancedSame(u, A[g], st, A[g], st', g, x, y);
          ExtSame(u, A[g], st, A[g], st', g, x, y);
          if SpanOk(u, g, x, y) && !u.skips(g, x, y) {
            BinsAppliedGrows(st, st', u.grammars[g], x, y, Arrived(u, A[g], g, x, y, y) + Advanced(u, A[g], st, g, x, y));
          }
        }
      }
    }
  }

  /** The seeded active charts, before any span is filled. */
  lemma LevelStart(u: Setup, A: seq<Cells>, st: ChartState)
    requires ActsShape(u, A) && GridShape(st, u.n) && ChartNodes(st, u.n)
    requires forall g, x, y :: 0 <= g < |A| && 0 <= x <= u.n && 0 <= y <= u.n ==> A[g][x][y] == Seed(u.grammars[g], x, y)
    ensures LevelInv(u, A, st, 1, 0)
  {
    forall x, y | 0 <= x < y <= u.n ensures SpanInv(u, A, st, 1, 0, x, y) {
      assert !FilledBy(1, 0, x, y) && Upto(1, 0, x) == x + 1;
      forall g | 0 <= g < |A| ensures A[g][x][y] == Arrived(u, A[g], g, x, y, x + 1) {
        assert A[g][x][y] == Seed(u.grammars[g], x, y);
      }
    }
  }

  // ---------------------------------------------------------------
  // No edge but those the fills made

  /** The items completed at a span filled before (i, i + l) are untouched
      by its fill. */
  lemma CompletedKept(u: Setup, A: seq<Cells>, st: ChartState, A': seq<Cells>, st': ChartState, l: int, i: int, g: nat, x: int, y: int)
    requires LevelInv(u, A, st, l, i) && i + l <= u.n && FillEffect(u, A, st, A', st', i, i + l)
    requires 0 <= x < y <= u.n && FilledBy(l, i, x, y) && g < |A|
    ensures Completed(u, A'[g], st', g, x, y) == Completed(u, A[g], st, g, x, y)
  {
    var j := i + l;
    forall k | x < k < y ensures st'.chart[k][y] == st.chart[k][y] {
    }
    forall z | x <= z < y ensures A'[g][x][z] == A[g][x][z] {
      assert A'[g][x][z] == AfterFill(u, A[g], st, st', g, i, j, x, z);
    }
    ArrivedSame(u, A[g], A'[g], g, x, y, y);
    AdvancedSame(u, A[g], st, A'[g], st', g, x, y);
  }

  /** The items pending when (i, i + l) is filled are those the filled
      span then reads as completed. */
  lemma PendingCompleted(u: Setup, A: seq<Cells>, st: ChartState, A': seq<Cells>, st': ChartState, l: int, i: int, g: nat)
    requires LevelInv(u, A, st, l, i) && i + l <= u.n && FillEffect(u, A, st, A', st', i, i + l) && g < |A|
    ensures Completed(u, A'[g], st', g, i, i + l) == Pending(u, A[g], st, g, i, i + l)
  {
    var j := i + l;
    assert !FilledBy(l, i, i, j) && Upto(l, i, i) == j && SpanInv(u, A, st, l, i, i, j);
    assert A[g][i][j] == Arrived(u, A[g], g, i, j, j);
    forall k | i < k < j ensures st'.chart[k][j] == st.chart[k][j] {
    }
    forall z | i <= z < j ensures A'[g][i][z] == A[g][i][z] {
      assert A'[g][i][z] == AfterFill(u, A[g], st, st', g, i, j, i, z);
    }
    ArrivedSame(u, A[g], A'[g], g, i, j, j);
    AdvancedSame(u, A[g], st, A'[g], st', g, i, j);
  }

  /** An edge made by the fill of an earlier span stays accounted for. */
  lemma OldEdgeMade(u: Setup, s: Setting, A: seq<Cells>, st: ChartState, A': seq<Cells>, st': ChartState, l: int, i: int, e: nat)
    requires LevelInv(u, A, st, l, i) && i + l <= u.n && FillEffect(u, A, st, A', st', i, i + l) && s.n == u.n
    requires e < |st.edges| && EdgeMade(u, s, A, st, l, i, e)
    ensures e < |st'.edges| && EdgeMade(u, s, A', st', l, i + 1, e)
  {
    assert st'.edges[e] == st.edges[e];
    if GoalEdge(st, s, e) {
      GoalEdgeGrows(st, st', s, e);
    } else {
      var x, y := st.edges[e].i, st.edges[e].j;
      if g :| (0 <= g < |A| && SpanOk(u, g, x, y) && !u.skips(g, x, y) &&
           FromItems(st, e, u.grammars[g], x, y, Completed(u, A[g], st, g, x, y))) {
        CompletedKept(u, A, st, A', st', l, i, g, x, y);
        FromItemsGrows(st, st', e, u.grammars[g], x, y, Completed(u, A[g], st, g, x, y));
      } else {
        var g :| 0 <= g < |A| && SpanOk(u, g, x, y) && UnaryFrom(st, u.n, u.grammars[g], x, y, e);
        UnaryFromGrows(st, st', u.n, u.grammars[g], x, y, e);
      }
    }
  }

  /** An edge the fill of (i, i + l) added is made by that fill. */
  lemma NewEdgeMade(u: Setup, A: seq<Cells>, st: ChartState, A': seq<Cells>, st': ChartState, l: int, i: int, e: nat)
    requires LevelInv(u, A, st, l, i) && i + l <= u.n && FillEffect(u, A, st, A', st', i, i + l)
    requires |st.edges| <= e < |st'.edges|
    ensures FilledBy(l, i + 1, st'.edges[e].i, st'.edges[e].j) && Made(u, A', st', e)
  {
    var j := i + l;
    assert FillMade(u, A, st, st', i, j, e);
    if g :| (0 <= g < |A| && SpanOk(u, g, i, j) && !u.skips(g, i, j) &&
         FromItems(st', e, u.grammars[g], i, j, Pending(u, A[g], st, g, i, j))) {
      PendingCompleted(u, A, st, A', st', l, i, g);
    } else {
      var g :| 0 <= g < |A| && SpanOk(u, g, i, j) && UnaryFrom(st', u.n, u.grammars[g], i, j, e);
    }
  }

  /** Filling (i, i + l) keeps every edge accounted for. */
  lemma MadeStep(u: Setup, s: Setting, A: seq<Cells>, st: ChartState, A': seq<Cells>, st': ChartState, l: int, i: int)
    requires LevelInv(u, A, st, l, i) && i + l <= u.n && FillEffect(u, A, st, A', st', i, i + l) && s.n == u.n
    requires EdgesMade(u, s, A, st, l, i)
    ensures EdgesMade(u, s, A', st', l, i + 1)
  {
    var i' := i + 1;
    forall e | 0 <= e < |st'.edges|
      ensures EdgeMade(u, s, A', st', l, i', e)
    {
      if e < |st.edges| {
        OldEdgeMade(u, s, A, st, A', st', l, i, e);
      } else {
        NewEdgeMade(u, A, st, A', st', l, i, e);
      }
    }
  }

  /** Once every span of length `l` is filled, the next length starts with
      every edge still accounted for. */
  lemma MadeNext(u: Setup, s: Setting, A: seq<Cells>, st: ChartState, l: int)
    requires l <= u.n + 1 && LevelInv(u, A, st, l, u.n + 1 - l) && s.n == u.n
    requires EdgesMade(u, s, A, st, l, u.n + 1 - l)
    ensures EdgesMade(u, s, A, st, l + 1, 0)
  {
    var l' := l + 1;
    forall e | 0 <= e < |st.edges| ensures EdgeMade(u, s, A, st, l', 0, e) {
      assert EdgeMade(u, s, A, st, l, u.n + 1 - l, e);
    }
  }

  /** Goal edges added to a chart whose node lists stay as they are keep
      every edge accounted for (the goal scan). */
  lemma MadeGrows(u: Setup, s: Setting, A: seq<Cells>, st: ChartState, st': ChartState, l: int, i: int)
    requires LevelInv(u, A, st, l, i) && s.n == u.n && EdgesMade(u, s, A, st, l, i)
    requires Grows(st, st', u.n) && st'.chart == st.chart
    requires forall e :: |st.edges| <= e < |st'.edges| ==> GoalEdge(st', s, e)
    ensures ChartNodes(st', u.n) && EdgesMade(u, s, A, st', l, i)
  {
    assert ChartNodes(st', u.n) by {
      forall x, y | 0 <= x <= u.n && 0 <= y <= u.n ensures NodesIn(st'.chart[x][y], st'.nodes) {
        assert NodesIn(st.chart[x][y], st.nodes);
      }
    }
    forall e | 0 <= e < |st.edges|
      ensures EdgeMade(u, s, A, st', l, i, e)
    {
      assert EdgeMade(u, s, A, st, l, i, e);
      assert st'.edges[e] == st.edges[e];
      if GoalEdge(st, s, e) {
        GoalEdgeGrows(st, st', s, e);
      } else {
        var x, y := st.edges[e].i, st.edges[e].j;
        if g :| (0 <= g < |A| && SpanOk(u, g, x, y) && !u.skips(g, x, y) &&
             FromItems(st, e, u.grammars[g], x, y, Completed(u, A[g], st, g, x, y))) {
          AdvancedSame(u, A[g], st, A[g], st', g, x, y);
          FromItemsGrows(st, st', e, u.grammars[g], x, y, Completed(u, A[g], st, g, x, y));
        } else {
          var g :| 0 <= g < |A| && SpanOk(u, g, x, y) && UnaryFrom(st, u.n, u.grammars[g], x, y, e);
          UnaryFromGrows(st, st', u.n, u.grammars[g], x, y, e);
        }
      }
    }
  }

  // ---------------------------------------------------------------
  // One span filled

  /** Completing other grammars' items over (i, j) does not change what a
      grammar's dots advance over. */
  lemma AdvanceKept(u: Setup, C: Cells, st: ChartState, st': ChartState, g: nat, i: int, j: int)
    requires Shaped(u, C) && g < |u.grammars| && 0 <= i < j <= u.n
    requires Grows(st, st', u.n) && ChartNodes(st, u.n) && ChartNodes(st', u.n) && SameOutside(st, st', u.n, i, j)
    ensures Advanced(u, C, st', g, i, j) == Advanced(u, C, st, g, i, j)
    ensures forall x, y :: 0 <= x <= u.n && 0 <= y <= u.n ==> Advance(u, C, st', g, i, j, x, y) == Advance(u, C, st, g, i, j, x, y)
    ensures Pending(u, C, st', g, i, j) == Pending(u, C, st, g, i, j)
    ensures AdvancedGrid(u, C, st', g, i, j) == AdvancedGrid(u, C, st, g, i, j)
  {
    AdvancedSame(u, C, st, C, st', g, i, j);
    var G', G := AdvancedGrid(u, C, st', g, i, j), AdvancedGrid(u, C, st, g, i, j);
    forall x | 0 <= x <= u.n ensures G'[x] == G[x] {
      assert |G'[x]| == |G[x]|;
    }
  }

  /** Edges found for the items stay found as the forest grows. */
  lemma FromItemsGrows(st: ChartState, st': ChartState, e: nat, g: Grammar, i: int, j: int, items: seq<ActiveItem>)
    requires e < |st.edges| && st.edges <= st'.edges && FromItems(st, e, g, i, j, items)
    ensures e < |st'.edges| && FromItems(st', e, g, i, j, items)
  {
    assert st'.edges[e] == st.edges[e];
  }

  /** After the first `gi` grammars completed their items over (i, j),
      from state `st0` and cells `A0`: every such grammar with rules for
      the span that the constraints do not skip has applied the bins of its
      pending items, and every new edge comes from the pending items of one
      of them with rules for the span that is not skipped there. */
  predicate CompletedBelow(u: Setup, A0: seq<Cells>, st0: ChartState, st: ChartState, gi: nat, i: int, j: int)
    requires ActsShape(u, A0) && gi <= |A0| && 0 <= i < j <= u.n && GridShape(st0, u.n) && ChartNodes(st0, u.n)
  {
    (forall g :: 0 <= g < gi && SpanOk(u, g, i, j) && !u.skips(g, i, j) ==>
      BinsApplied(st, u.grammars[g], i, j, Pending(u, A0[g], st0, g, i, j))) &&
    (forall e :: |st0.edges| <= e < |st.edges| ==> EdgeFromBelow(u, A0, st0, st, gi, i, j, e))
  }

  /** Edge `e` comes from the pending items of one of the first `gi`
      grammars with rules for (i, j) that the constraints do not skip there. */
  predicate EdgeFromBelow(u: Setup, A0: seq<Cells>, st0: ChartState, st: ChartState, gi: nat, i: int, j: int, e: nat)
    requires ActsShape(u, A0) && gi <= |A0| && 0 <= i < j <= u.n && GridShape(st0, u.n) && ChartNodes(st0, u.n)
    requires e < |st.edges|
  {
    exists g :: 0 <= g < gi && SpanOk(u, g, i, j) && !u.skips(g, i, j) &&
      FromItems(st, e, u.grammars[g], i, j, Pending(u, A0[g], st0, g, i, j))
  }

  /** One grammar further: its completion, when it has rules for the span,
      adds its pending items' bins and edges; without rules it changes
      nothing. */
  lemma CompletedBelowStep(u: Setup, s: Setting, A0: seq<Cells>, st0: ChartState, st: ChartState, st': ChartState, gi: nat, i: int, j: int)
    requires ActsShape(u, A0) && gi < |A0| && 0 <= i < j <= u.n && s.n == u.n
    requires Grows(st0, st, u.n) && ChartNodes(st0, u.n) && ChartNodes(st, u.n)
    requires SameOutside(st0, st, u.n, i, j) && CompletedBelow(u, A0, st0, st, gi, i, j)
    requires SpanOk(u, gi, i, j) ==> CompletedAll(st, st', s, u.grammars[gi], u.skips(gi, i, j), i, j, Pending(u, A0[gi], st, gi, i, j))
    requires !SpanOk(u, gi, i, j) ==> st' == st
    ensures CompletedBelow(u, A0, st0, st', gi + 1, i, j)
  {
    var gi' := gi + 1;
    if SpanOk(u, gi, i, j) {
      AdvanceKept(u, A0[gi], st0, st, gi, i, j);
      var pend := Pending(u, A0[gi], st0, gi, i, j);
      forall g | 0 <= g < gi + 1 && SpanOk(u, g, i, j) && !u.skips(g, i, j)
        ensures BinsApplied(st', u.grammars[g], i, j, Pending(u, A0[g], st0, g, i, j))
      {
        if g < gi {
          BinsAppliedGrows(st, st', u.grammars[g], i, j, Pending(u, A0[g], st0, g, i, j));
        }
      }
      forall e | |st0.edges| <= e < |st'.edges| ensures EdgeFromBelow(u, A0, st0, st', gi', i, j, e) {
        if e < |st.edges| {
          assert EdgeFromBelow(u, A0, st0, st, gi, i, j, e);
          var g :| 0 <= g < gi && SpanOk(u, g, i, j) && !u.skips(g, i, j) &&
            FromItems(st, e, u.grammars[g], i, j, Pending(u, A0[g], st0, g, i, j));
          FromItemsGrows(st, st', e, u.grammars[g], i, j, Pending(u, A0[g], st0, g, i, j));
        } else {
          assert !u.skips(gi, i, j);
          assert FromItems(st', e, u.grammars[gi], i, j, pend);
        }
      }
    } else {
      forall e | |st0.edges| <= e < |st'.edges| ensures EdgeFromBelow(u, A0, st0, st', gi', i, j, e) {
        assert EdgeFromBelow(u, A0, st0, st, gi, i, j, e);
      }
    }
  }

  /** The completion of span (i, j), started from cells `A0` and state
      `st0`, once the first `gi` grammars had their turn: the state grew at
      (i, j) only, those grammars advanced their dots, and their completion
      is as `CompletedBelow` says. */
  predicate CompletedUpTo(u: Setup, A0: seq<Cells>, st0: ChartState, A: seq<Cells>, st: ChartState, gi: nat, i: int, j: int)
  {
    ActsShape(u, A0) && gi <= |A0| && 0 <= i < j <= u.n &&
    Grows(st0, st, u.n) && ChartNodes(st0, u.n) && SameOutside(st0, st, u.n, i, j) && st.goalIdx == st0.goalIdx &&
    A == AdvancedUpTo(u, A0, st0, gi, i, j) && CompletedBelow(u, A0, st0, st, gi, i, j)
  }

  /** Grammar `gi`'s turn: it advances its dots and, when it has rules
      for the span, completes its pending items. */
  lemma CompletedUpToStep(u: Setup, s: Setting, A0: seq<Cells>, st0: ChartState, A: seq<Cells>, st: ChartState,
                          A': seq<Cells>, st': ChartState, gi: nat, i: int, j: int)
    requires CompletedUpTo(u, A0, st0, A, st, gi, i, j) && gi < |A0| && s.n == u.n
    requires Grows(st, st', u.n) && ChartNodes(st, u.n) && ChartNodes(st', u.n)
    requires SameOutside(st, st', u.n, i, j) && st'.goalIdx == st.goalIdx
    requires A' == A[gi := AdvancedGrid(u, A[gi], st, gi, i, j)]
    requires SpanOk(u, gi, i, j) ==> CompletedAll(st, st', s, u.grammars[gi], u.skips(gi, i, j), i, j, Pending(u, A[gi], st, gi, i, j))
    requires !SpanOk(u, gi, i, j) ==> st' == st
    ensures CompletedUpTo(u, A0, st0, A', st', gi + 1, i, j)
  {
    assert A[gi] == A0[gi];
    AdvanceKept(u, A0[gi], st0, st, gi, i, j);
    AdvancedUpToStep(u, A0, st0, gi, i, j);
    CompletedBelowStep(u, s, A0, st0, st, st', gi, i, j);
    GrowsTrans(st0, st, st', u.n);
    SameOutsideTrans(st0, st, st', u.n, i, j);
  }

  /** Span (i, j) filled in three phases: from `A0`, `st0` the completion
      gives `A1`, `st1`, the unary closure `st2`, and the extension `A2`.
      Together they are `FillEffect`. */
  lemma FillSpanEffect(u: Setup, A0: seq<Cells>, st0: ChartState, A1: seq<Cells>, st1: ChartState, A2: seq<Cells>, st2: ChartState, i: int, j: int)
    requires CompletedUpTo(u, A0, st0, A1, st1, |u.grammars|, i, j)
    requires Grows(st1, st2, u.n) && ChartNodes(st2, u.n) && SameOutside(st1, st2, u.n, i, j)
    requires ClosedByLast(u, st2, |u.grammars|, i, j) && A2 == ExtendedUpTo(u, A1, st2, |A1|, i, j)
    requires UnaryMadeSince(u, st1, st2, |u.grammars|, i, j)
    ensures FillEffect(u, A0, st0, A2, st2, i, j)
  {
    GrowsTrans(st0, st1, st2, u.n);
    SameOutsideTrans(st0, st1, st2, u.n, i, j);
    forall g, x, y | 0 <= g < |A0| && 0 <= x <= u.n && 0 <= y <= u.n
      ensures A2[g][x][y] == AfterFill(u, A0[g], st0, st2, g, i, j, x, y)
    {
      assert A1[g] == AdvancedGrid(u, A0[g], st0, g, i, j);
      assert A2[g] == ExtendedGrid(u, A1[g], st2, g, i, j);
      assert A1[g][x][y] == Advance(u, A0[g], st0, g, i, j, x, y);
      if x == i && y == j {
        assert A1[g][i][i] == Advance(u, A0[g], st0, g, i, j, i, i);
      }
    }
    forall g | 0 <= g < |A0| && SpanOk(u, g, i, j) && !u.skips(g, i, j)
      ensures BinsApplied(st2, u.grammars[g], i, j, Pending(u, A0[g], st0, g, i, j))
    {
      BinsAppliedGrows(st1, st2, u.grammars[g], i, j, Pending(u, A0[g], st0, g, i, j));
    }
    forall e | |st0.edges| <= e < |st2.edges| ensures FillMade(u, A0, st0, st2, i, j, e) {
      if e < |st1.edges| {
        assert EdgeFromBelow(u, A0, st0, st1, |A0|, i, j, e);
        var g :| 0 <= g < |A0| && SpanOk(u, g, i, j) && !u.skips(g, i, j) &&
          FromItems(st1, e, u.grammars[g], i, j, Pending(u, A0[g], st0, g, i, j));
        FromItemsGrows(st1, st2, e, u.grammars[g], i, j, Pending(u, A0[g], st0, g, i, j));
      }
    }
  }
}
