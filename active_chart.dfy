/** The active chart of decoder/bottom_up_parser.cc: per span, the dotted
    items (a position in the grammar trie, the antecedent nodes proved so
    far, and the accumulated lattice cost). */
module ActiveCharts {
  import opened Wrappers
  import opened Forest
  import opened Lattices

  /** A grammar as the parser sees it: a trie over symbols (`next` is the
      partial transition map of `GrammarIter::Extend`), the rule bin at a
      trie state (absent means no rules), the unary rules indexed by their
      right-hand-side category, and the `HasRuleForSpan(i, j, distance)`
      query. */
  datatype Grammar = Grammar(
    name: string,
    root: int,
    next: map<(int, int), int>,
    bins: map<int, seq<Rule>>,
    unaries: map<int, seq<Rule>>,
    spanOk: (int, int, int) -> bool)

  /** `GetUnaryRulesForRHS`: no rules for a category the grammar does not index. */
  function UnaryRulesFor(g: Grammar, cat: int): seq<Rule>
  {
    if cat in g.unaries then g.unaries[cat] else []
  }

  datatype ActiveItem = ActiveItem(state: int, ants: seq<nat>, cost: int)

  /** The items `ExtendTerminal` pushes: the trie step over the arc's word,
      keeping the antecedents and adding the arc's cost. */
  function ExtendTerminal(g: Grammar, item: ActiveItem, symbol: int, cost: int): (out: seq<ActiveItem>)
    ensures |out| <= 1
    ensures out == [] <==> (item.state, symbol) !in g.next
    ensures forall x :: x in out ==>
      x.state == g.next[(item.state, symbol)] && x.ants == item.ants && x.cost == item.cost + cost
  {
    if (item.state, symbol) in g.next then [ActiveItem(g.next[(item.state, symbol)], item.ants, item.cost + cost)]
    else []
  }

  /** The items `ExtendNonTerminal` pushes: the trie step over the node's
      category, with the node appended to the antecedents and the cost kept. */
  function ExtendNonTerminal(g: Grammar, item: ActiveItem, node: nat, cat: int): (out: seq<ActiveItem>)
    ensures |out| <= 1
    ensures out == [] <==> (item.state, cat) !in g.next
    ensures forall x :: x in out ==>
      x.state == g.next[(item.state, cat)] && x.ants == item.ants + [node] && x.cost == item.cost
  {
    if (item.state, cat) in g.next then [ActiveItem(g.next[(item.state, cat)], item.ants + [node], item.cost)]
    else []
  }

  predicate NodesIn(idxs: seq<nat>, nodes: seq<Node>)
  {
    forall q :: 0 <= q < |idxs| ==> idxs[q] < |nodes|
  }

  /** One item extended by each node of a passive cell, in order. */
  function ExtendByNodes(g: Grammar, item: ActiveItem, idxs: seq<nat>, nodes: seq<Node>): seq<ActiveItem>
    requires NodesIn(idxs, nodes)
  {
    if idxs == [] then []
    else
      var t := idxs[|idxs| - 1];
      ExtendByNodes(g, item, idxs[..|idxs| - 1], nodes) + ExtendNonTerminal(g, item, t, nodes[t].cat)
  }

  /** Every item of an active cell extended by every node of a passive cell. */
  function CombineCells(g: Grammar, items: seq<ActiveItem>, idxs: seq<nat>, nodes: seq<Node>): seq<ActiveItem>
    requires NodesIn(idxs, nodes)
  {
    if items == [] then []
    else CombineCells(g, items[..|items| - 1], idxs, nodes) + ExtendByNodes(g, items[|items| - 1], idxs, nodes)
  }

  /** Every item of a cell extended over one arc. */
  function ExtendByArc(g: Grammar, items: seq<ActiveItem>, arc: LatticeArc): seq<ActiveItem>
  {
    if items == [] then []
    else ExtendByArc(g, items[..|items| - 1], arc) + ExtendTerminal(g, items[|items| - 1], arc.word, arc.cost)
  }

  /** The items the arcs of length `d` produce from a cell, arcs in order. */
  function ArcItems(g: Grammar, arcs: seq<LatticeArc>, d: int, items: seq<ActiveItem>): seq<ActiveItem>
  {
    if arcs == [] then []
    else
      var a := arcs[|arcs| - 1];
      ArcItems(g, arcs[..|arcs| - 1], d, items) + (if a.dist2next == d then ExtendByArc(g, items, a) else [])
  }

  /** Items combined over every split point `lo <= k < hi` in turn: `row[k]`
      is the active cell (i, k) and `col[k]` the passive cell (k, j). */
  function SplitItems(g: Grammar, row: seq<seq<ActiveItem>>, col: seq<seq<nat>>, nodes: seq<Node>, lo: int, hi: int): seq<ActiveItem>
    requires 0 <= lo && hi <= |row| && hi <= |col|
    requires forall k :: lo <= k < hi ==> NodesIn(col[k], nodes)
    decreases hi - lo
  {
    if hi <= lo then []
    else SplitItems(g, row, col, nodes, lo, hi - 1) + CombineCells(g, row[hi - 1], col[hi - 1], nodes)
  }

  /** `nodes'` extends `nodes` and keeps every category. */
  predicate CatsKept(nodes: seq<Node>, nodes': seq<Node>)
  {
    |nodes| <= |nodes'| && forall v :: 0 <= v < |nodes| ==> nodes'[v].cat == nodes[v].cat
  }

  /** Extending over nodes reads only their categories, so a grown forest
      gives the same items. */
  lemma {:induction false} ExtendByNodesKept(g: Grammar, item: ActiveItem, idxs: seq<nat>, nodes: seq<Node>, nodes': seq<Node>)
    requires NodesIn(idxs, nodes) && CatsKept(nodes, nodes')
    ensures NodesIn(idxs, nodes') && ExtendByNodes(g, item, idxs, nodes') == ExtendByNodes(g, item, idxs, nodes)
    decreases |idxs|
  {
    if idxs != [] {
      var front := idxs[..|idxs| - 1];
      assert NodesIn(front, nodes) by {
        forall q | 0 <= q < |front| ensures front[q] < |nodes| { assert front[q] == idxs[q]; }
      }
      ExtendByNodesKept(g, item, front, nodes, nodes');
    }
  }

  lemma {:induction false} CombineCellsKept(g: Grammar, items: seq<ActiveItem>, idxs: seq<nat>, nodes: seq<Node>, nodes': seq<Node>)
    requires NodesIn(idxs, nodes) && CatsKept(nodes, nodes')
    ensures NodesIn(idxs, nodes') && CombineCells(g, items, idxs, nodes') == CombineCells(g, items, idxs, nodes)
    decreases |items|
  {
    ExtendByNodesKept(g, if items == [] then ActiveItem(0, [], 0) else items[|items| - 1], idxs, nodes, nodes');
    if items != [] {
      CombineCellsKept(g, items[..|items| - 1], idxs, nodes, nodes');
    }
  }

  /** The split items depend only on the cells and columns of the split
      points and on the categories of the nodes there. */
  lemma {:induction false} SplitItemsSame(g: Grammar, row: seq<seq<ActiveItem>>, col: seq<seq<nat>>, nodes: seq<Node>,
                                          row': seq<seq<ActiveItem>>, col': seq<seq<nat>>, nodes': seq<Node>, lo: int, hi: int)
    requires 0 <= lo && hi <= |row| && hi <= |col| && hi <= |row'| && hi <= |col'|
    requires forall k :: lo <= k < hi ==> NodesIn(col[k], nodes) && row'[k] == row[k] && col'[k] == col[k]
    requires CatsKept(nodes, nodes')
    ensures forall k :: lo <= k < hi ==> NodesIn(col'[k], nodes')
    ensures SplitItems(g, row', col', nodes', lo, hi) == SplitItems(g, row, col, nodes, lo, hi)
    decreases hi - lo
  {
    forall k | lo <= k < hi ensures NodesIn(col'[k], nodes') {
      CombineCellsKept(g, row[k], col[k], nodes, nodes');
    }
    if lo < hi {
      SplitItemsSame(g, row, col, nodes, row', col', nodes', lo, hi - 1);
      CombineCellsKept(g, row[hi - 1], col[hi - 1], nodes, nodes');
    }
  }

  /** `x` is `item` with its dot moved over the category of node `t`: the
      trie state advanced, `t` appended to the antecedents, cost unchanged. */
  predicate CombinedFrom(g: Grammar, item: ActiveItem, t: nat, nodes: seq<Node>, x: ActiveItem)
    requires t < |nodes|
  {
    (item.state, nodes[t].cat) in g.next &&
    x == ActiveItem(g.next[(item.state, nodes[t].cat)], item.ants + [t], item.cost)
  }

  lemma {:induction false} ExtendByNodesHas(g: Grammar, item: ActiveItem, idxs: seq<nat>, nodes: seq<Node>, q: nat, x: ActiveItem)
    requires NodesIn(idxs, nodes) && q < |idxs| && CombinedFrom(g, item, idxs[q], nodes, x)
    ensures x in ExtendByNodes(g, item, idxs, nodes)
  {
    var init := idxs[..|idxs| - 1];
    if q < |init| {
      assert init[q] == idxs[q];
      ExtendByNodesHas(g, item, init, nodes, q, x);
    }
  }

  lemma {:induction false} ExtendByNodesFrom(g: Grammar, item: ActiveItem, idxs: seq<nat>, nodes: seq<Node>, x: ActiveItem)
    requires NodesIn(idxs, nodes) && x in ExtendByNodes(g, item, idxs, nodes)
    ensures exists q :: 0 <= q < |idxs| && CombinedFrom(g, item, idxs[q], nodes, x)
  {
    var init := idxs[..|idxs| - 1];
    var t := idxs[|idxs| - 1];
    if x in ExtendByNodes(g, item, init, nodes) {
      ExtendByNodesFrom(g, item, init, nodes, x);
      var q :| 0 <= q < |init| && CombinedFrom(g, item, init[q], nodes, x);
      assert init[q] == idxs[q];
    } else {
      assert x in ExtendNonTerminal(g, item, t, nodes[t].cat);
      assert CombinedFrom(g, item, idxs[|idxs| - 1], nodes, x);
    }
  }

  /** Extending one item over a passive cell yields exactly its extensions
      over the categories of the cell's nodes. */
  lemma ExtendByNodesIff(g: Grammar, item: ActiveItem, idxs: seq<nat>, nodes: seq<Node>, x: ActiveItem)
    requires NodesIn(idxs, nodes)
    ensures x in ExtendByNodes(g, item, idxs, nodes) <==>
      exists q :: 0 <= q < |idxs| && CombinedFrom(g, item, idxs[q], nodes, x)
  {
    if x in ExtendByNodes(g, item, idxs, nodes) {
      ExtendByNodesFrom(g, item, idxs, nodes, x);
    }
    if exists q :: 0 <= q < |idxs| && CombinedFrom(g, item, idxs[q], nodes, x) {
      var q :| 0 <= q < |idxs| && CombinedFrom(g, item, idxs[q], nodes, x);
      ExtendByNodesHas(g, item, idxs, nodes, q, x);
    }
  }

  /** Every combination of an item of the cell with a node of the passive
      cell is among the combined items. */
  lemma {:induction false} CombineCellsHas(g: Grammar, items: seq<ActiveItem>, idxs: seq<nat>, nodes: seq<Node>, p: nat, q: nat, x: ActiveItem)
    requires NodesIn(idxs, nodes) && p < |items| && q < |idxs| && CombinedFrom(g, items[p], idxs[q], nodes, x)
    ensures x in CombineCells(g, items, idxs, nodes)
  {
    var init := items[..|items| - 1];
    if p < |init| {
      assert init[p] == items[p];
      CombineCellsHas(g, init, idxs, nodes, p, q, x);
    } else {
      ExtendByNodesIff(g, items[p], idxs, nodes, x);
    }
  }

  /** Every combined item comes from an item of the cell and a node of the
      passive cell. */
  lemma {:induction false} CombineCellsFrom(g: Grammar, items: seq<ActiveItem>, idxs: seq<nat>, nodes: seq<Node>, x: ActiveItem)
    requires NodesIn(idxs, nodes) && x in CombineCells(g, items, idxs, nodes)
    ensures exists p, q :: 0 <= p < |items| && 0 <= q < |idxs| && CombinedFrom(g, items[p], idxs[q], nodes, x)
  {
    var init := items[..|items| - 1];
    var last := items[|items| - 1];
    if x in CombineCells(g, init, idxs, nodes) {
      CombineCellsFrom(g, init, idxs, nodes, x);
      var p, q :| 0 <= p < |init| && 0 <= q < |idxs| && CombinedFrom(g, init[p], idxs[q], nodes, x);
      assert items[p] == init[p];
    } else {
      ExtendByNodesIff(g, last, idxs, nodes, x);
      var q :| 0 <= q < |idxs| && CombinedFrom(g, last, idxs[q], nodes, x);
      assert CombinedFrom(g, items[|items| - 1], idxs[q], nodes, x);
    }
  }

  /** Combining a cell with a passive cell yields exactly the items with an
      antecedent list one node longer: an item of the cell, extended over the
      category of a node of the passive cell, cost unchanged. */
  lemma CombineCellsIff(g: Grammar, items: seq<ActiveItem>, idxs: seq<nat>, nodes: seq<Node>, x: ActiveItem)
    requires NodesIn(idxs, nodes)
    ensures x in CombineCells(g, items, idxs, nodes) <==>
      exists p, q :: 0 <= p < |items| && 0 <= q < |idxs| && CombinedFrom(g, items[p], idxs[q], nodes, x)
  {
    if x in CombineCells(g, items, idxs, nodes) {
      CombineCellsFrom(g, items, idxs, nodes, x);
    }
    if exists p, q :: 0 <= p < |items| && 0 <= q < |idxs| && CombinedFrom(g, items[p], idxs[q], nodes, x) {
      var p, q :| 0 <= p < |items| && 0 <= q < |idxs| && CombinedFrom(g, items[p], idxs[q], nodes, x);
      CombineCellsHas(g, items, idxs, nodes, p, q, x);
    }
  }

  /** `x` is `item` with its dot moved over the word of `arc`: the trie
      state advanced, antecedents kept, the arc's cost added. */
  predicate ScannedFrom(g: Grammar, item: ActiveItem, arc: LatticeArc, x: ActiveItem)
  {
    (item.state, arc.word) in g.next &&
    x == ActiveItem(g.next[(item.state, arc.word)], item.ants, item.cost + arc.cost)
  }

  lemma {:induction false} ExtendByArcHas(g: Grammar, items: seq<ActiveItem>, arc: LatticeArc, p: nat, x: ActiveItem)
    requires p < |items| && ScannedFrom(g, items[p], arc, x)
    ensures x in ExtendByArc(g, items, arc)
  {
    var init := items[..|items| - 1];
    if p < |init| {
      assert init[p] == items[p];
      ExtendByArcHas(g, init, arc, p, x);
    }
  }

  lemma {:induction false} ExtendByArcFrom(g: Grammar, items: seq<ActiveItem>, arc: LatticeArc, x: ActiveItem)
    requires x in ExtendByArc(g, items, arc)
    ensures exists p :: 0 <= p < |items| && ScannedFrom(g, items[p], arc, x)
  {
    var init := items[..|items| - 1];
    if x in ExtendByArc(g, init, arc) {
      ExtendByArcFrom(g, init, arc, x);
      var p :| 0 <= p < |init| && ScannedFrom(g, init[p], arc, x);
      assert items[p] == init[p];
    } else {
      assert ScannedFrom(g, items[|items| - 1], arc, x);
    }
  }

  /** Extending a cell over an arc yields exactly the items of the cell that
      have a trie step over the arc's word, antecedents kept, cost plus the
      arc's cost. */
  lemma ExtendByArcIff(g: Grammar, items: seq<ActiveItem>, arc: LatticeArc, x: ActiveItem)
    ensures x in ExtendByArc(g, items, arc) <==>
      exists p :: 0 <= p < |items| && ScannedFrom(g, items[p], arc, x)
  {
    if x in ExtendByArc(g, items, arc) {
      ExtendByArcFrom(g, items, arc, x);
    }
    if exists p :: 0 <= p < |items| && ScannedFrom(g, items[p], arc, x) {
      var p :| 0 <= p < |items| && ScannedFrom(g, items[p], arc, x);
      ExtendByArcHas(g, items, arc, p, x);
    }
  }

  lemma AppendAssoc<T>(a: seq<T>, b: seq<T>, c: seq<T>)
    ensures a + b + c == a + (b + c)
  {
  }

  /** What seeding puts on cell (x, y): the trie root, with no antecedents
      and no cost, on a diagonal cell whose empty span the grammar allows. */
  function Seed(g: Grammar, x: int, y: int): (items: seq<ActiveItem>)
    ensures |items| <= 1 && forall p :: 0 <= p < |items| ==> items[p].state == g.root && items[p].ants == []
    ensures items != [] <==> x == y && g.spanOk(x, x, 0)
  {
    if x == y && g.spanOk(x, x, 0) then [ActiveItem(g.root, [], 0)] else []
  }

  /** All antecedent lists of a cell name nodes of the forest. */
  predicate AntsIn(items: seq<ActiveItem>, bound: int)
  {
    forall p, q :: 0 <= p < |items| && 0 <= q < |items[p].ants| ==> items[p].ants[q] < bound
  }

  lemma {:induction false} CombineCellsAntsIn(g: Grammar, items: seq<ActiveItem>, idxs: seq<nat>, nodes: seq<Node>)
    requires NodesIn(idxs, nodes) && AntsIn(items, |nodes|)
    ensures AntsIn(CombineCells(g, items, idxs, nodes), |nodes|)
  {
    var out := CombineCells(g, items, idxs, nodes);
    forall p, q | 0 <= p < |out| && 0 <= q < |out[p].ants| ensures out[p].ants[q] < |nodes| {
      CombineCellsIff(g, items, idxs, nodes, out[p]);
      var p', q' :| 0 <= p' < |items| && 0 <= q' < |idxs| && CombinedFrom(g, items[p'], idxs[q'], nodes, out[p]);
      if q < |items[p'].ants| {
        assert out[p].ants[q] == items[p'].ants[q];
      }
    }
  }

  lemma {:induction false} ExtendByArcAntsIn(g: Grammar, items: seq<ActiveItem>, arc: LatticeArc, bound: int)
    requires AntsIn(items, bound)
    ensures AntsIn(ExtendByArc(g, items, arc), bound)
  {
    var out := ExtendByArc(g, items, arc);
    forall p, q | 0 <= p < |out| && 0 <= q < |out[p].ants| ensures out[p].ants[q] < bound {
      ExtendByArcIff(g, items, arc, out[p]);
    }
  }

  lemma AntsInAppend(a: seq<ActiveItem>, b: seq<ActiveItem>, bound: int)
    requires AntsIn(a, bound) && AntsIn(b, bound)
    ensures AntsIn(a + b, bound)
  {
    forall p, q | 0 <= p < |a + b| && 0 <= q < |(a + b)[p].ants| ensures (a + b)[p].ants[q] < bound {
      if p >= |a| {
        assert (a + b)[p] == b[p - |a|];
      }
    }
  }

  lemma {:induction false} ArcItemsAntsIn(g: Grammar, arcs: seq<LatticeArc>, d: int, items: seq<ActiveItem>, bound: int)
    requires AntsIn(items, bound)
    ensures AntsIn(ArcItems(g, arcs, d, items), bound)
  {
    if arcs != [] {
      var a := arcs[|arcs| - 1];
      ArcItemsAntsIn(g, arcs[..|arcs| - 1], d, items, bound);
      if a.dist2next == d {
        ExtendByArcAntsIn(g, items, a, bound);
        AntsInAppend(ArcItems(g, arcs[..|arcs| - 1], d, items), ExtendByArc(g, items, a), bound);
      } else {
        assert ArcItems(g, arcs, d, items) == ArcItems(g, arcs[..|arcs| - 1], d, items) + [];
      }
    }
  }

  lemma {:induction false} SplitItemsAntsIn(g: Grammar, row: seq<seq<ActiveItem>>, col: seq<seq<nat>>, nodes: seq<Node>, lo: int, hi: int)
    requires 0 <= lo && hi <= |row| && hi <= |col|
    requires forall k :: lo <= k < hi ==> NodesIn(col[k], nodes) && AntsIn(row[k], |nodes|)
    ensures AntsIn(SplitItems(g, row, col, nodes, lo, hi), |nodes|)
    decreases hi - lo
  {
    if lo < hi {
      SplitItemsAntsIn(g, row, col, nodes, lo, hi - 1);
      CombineCellsAntsIn(g, row[hi - 1], col[hi - 1], nodes);
      AntsInAppend(SplitItems(g, row, col, nodes, lo, hi - 1), CombineCells(g, row[hi - 1], col[hi - 1], nodes), |nodes|);
    }
  }

  ghost function Row(a: array2<seq<ActiveItem>>, i: int, len: int): (r: seq<seq<ActiveItem>>)
    reads a
    requires 0 <= i < a.Length0 && 0 <= len <= a.Length1
    ensures |r| == len && forall y :: 0 <= y < len ==> r[y] == a[i, y]
  {
    seq(len, y requires 0 <= y < len reads a => a[i, y])
  }

  ghost function Column(a: array2<seq<nat>>, j: int, len: int): (r: seq<seq<nat>>)
    reads a
    requires 0 <= j < a.Length1 && 0 <= len <= a.Length0
    ensures |r| == len && forall y :: 0 <= y < len ==> r[y] == a[y, j]
  {
    seq(len, y requires 0 <= y < len reads a => a[y, j])
  }

  class ActiveChart {
    /** The grammar whose trie the items walk. */
    const g: Grammar
    /** The forest whose node categories items are extended over. */
    const hg: Hypergraph
    /** The node lists of the passive chart. */
    const psv: array2<seq<nat>>
    const cells: array2<seq<ActiveItem>>

    ghost predicate Valid()
    {
      cells.Length0 == cells.Length1 == psv.Length0 == psv.Length1
    }

    /** The antecedents of every item are below `bound`. */
    ghost predicate ItemsIn(bound: int)
      reads cells
    {
      forall x, y :: 0 <= x < cells.Length0 && 0 <= y < cells.Length1 ==> AntsIn(cells[x, y], bound)
    }

    lemma ItemsInGrows(bound: int, bound': int)
      requires ItemsIn(bound) && bound <= bound'
      ensures ItemsIn(bound')
    {
    }

    constructor (g: Grammar, hg: Hypergraph, psv: array2<seq<nat>>)
      requires psv.Length0 == psv.Length1
      ensures this.g == g && this.hg == hg && this.psv == psv && Valid() && fresh(cells)
      ensures forall x, y :: 0 <= x < cells.Length0 && 0 <= y < cells.Length1 ==> cells[x, y] == []
    {
      this.g := g;
      this.hg := hg;
      this.psv := psv;
      cells := new seq<ActiveItem>[psv.Length0, psv.Length1]((x, y) => []);
    }

    /** Puts the trie root, with no antecedents and no cost, on each
        diagonal cell (i, i) where the grammar has rules for the empty span. */
    method SeedActiveChart(ghost bound: int)
      requires Valid() && ItemsIn(bound)
      modifies cells
      ensures forall x, y :: 0 <= x < cells.Length0 && 0 <= y < cells.Length1 ==>
        cells[x, y] == old(cells[x, y]) + Seed(g, x, y)
      ensures ItemsIn(bound)
    {
      var size := cells.Length0;
      var i := 0;
      while i < size
        invariant 0 <= i <= size
        invariant forall x, y :: 0 <= x < cells.Length0 && 0 <= y < cells.Length1 ==>
          cells[x, y] == old(cells[x, y]) + (if x < i then Seed(g, x, y) else [])
      {
        if g.spanOk(i, i, 0) {
          cells[i, i] := cells[i, i] + [ActiveItem(g.root, [], 0)];
        }
        i := i + 1;
      }
      forall x, y | 0 <= x < cells.Length0 && 0 <= y < cells.Length1 ensures AntsIn(cells[x, y], bound) {
        AntsInAppend(old(cells[x, y]), Seed(g, x, y), bound);
      }
    }

    /** Extends the items of (i, k) by the nodes of passive cell (k, j) into (i, j). */
    method ExtendActiveItems(i: int, k: int, j: int)
      requires Valid() && 0 <= i <= k < j < cells.Length0
      requires NodesIn(psv[k, j], hg.nodes)
      modifies cells
      ensures cells[i, j] == old(cells[i, j]) + CombineCells(g, old(cells[i, k]), psv[k, j], hg.nodes)
      ensures forall x, y :: 0 <= x < cells.Length0 && 0 <= y < cells.Length1 && (x != i || y != j) ==>
        cells[x, y] == old(cells[x, y])
    {
      var icell := cells[i, k];
      var idxs := psv[k, j];
      var di := 0;
      while di < |icell|
        invariant 0 <= di <= |icell|
        invariant cells[i, j] == old(cells[i, j]) + CombineCells(g, icell[..di], idxs, hg.nodes)
        invariant forall x, y :: 0 <= x < cells.Length0 && 0 <= y < cells.Length1 && (x != i || y != j) ==>
          cells[x, y] == old(cells[x, y])
      {
        assert icell[..di + 1][..di] == icell[..di];
        ExtendItemByNodes(i, j, icell[di], idxs);
        AppendAssoc(old(cells[i, j]), CombineCells(g, icell[..di], idxs, hg.nodes), ExtendByNodes(g, icell[di], idxs, hg.nodes));
        di := di + 1;
      }
      assert icell[..di] == icell;
    }

    /** Extends one item by every node of `idxs` into cell (i, j). */
    method ExtendItemByNodes(i: int, j: int, item: ActiveItem, idxs: seq<nat>)
      requires Valid() && 0 <= i < cells.Length0 && 0 <= j < cells.Length1
      requires NodesIn(idxs, hg.nodes)
      modifies cells
      ensures cells[i, j] == old(cells[i, j]) + ExtendByNodes(g, item, idxs, hg.nodes)
      ensures forall x, y :: 0 <= x < cells.Length0 && 0 <= y < cells.Length1 && (x != i || y != j) ==>
        cells[x, y] == old(cells[x, y])
    {
      var ni := 0;
      while ni < |idxs|
        invariant 0 <= ni <= |idxs|
        invariant cells[i, j] == old(cells[i, j]) + ExtendByNodes(g, item, idxs[..ni], hg.nodes)
        invariant forall x, y :: 0 <= x < cells.Length0 && 0 <= y < cells.Length1 && (x != i || y != j) ==>
          cells[x, y] == old(cells[x, y])
      {
        assert idxs[..ni + 1][..ni] == idxs[..ni];
        cells[i, j] := cells[i, j] + ExtendNonTerminal(g, item, idxs[ni], hg.nodes[idxs[ni]].cat);
        AppendAssoc(old(cells[i, j]), ExtendByNodes(g, item, idxs[..ni], hg.nodes), ExtendNonTerminal(g, item, idxs[ni], hg.nodes[idxs[ni]].cat));
        ni := ni + 1;
      }
      assert idxs[..ni] == idxs;
    }

    /** Extends each item of `ec` over one arc into cell (i, t). */
    method ExtendOverArc(i: int, t: int, ec: seq<ActiveItem>, arc: LatticeArc)
      requires Valid() && 0 <= i < cells.Length0 && 0 <= t < cells.Length1
      modifies cells
      ensures cells[i, t] == old(cells[i, t]) + ExtendByArc(g, ec, arc)
      ensures forall x, y :: 0 <= x < cells.Length0 && 0 <= y < cells.Length1 && (x != i || y != t) ==>
        cells[x, y] == old(cells[x, y])
    {
      var di := 0;
      while di < |ec|
        invariant 0 <= di <= |ec|
        invariant cells[i, t] == old(cells[i, t]) + ExtendByArc(g, ec[..di], arc)
        invariant forall x, y :: 0 <= x < cells.Length0 && 0 <= y < cells.Length1 && (x != i || y != t) ==>
          cells[x, y] == old(cells[x, y])
      {
        assert ec[..di + 1][..di] == ec[..di];
        cells[i, t] := cells[i, t] + ExtendTerminal(g, ec[di], arc.word, arc.cost);
        AppendAssoc(old(cells[i, t]), ExtendByArc(g, ec[..di], arc), ExtendTerminal(g, ec[di], arc.word, arc.cost));
        di := di + 1;
      }
      assert ec[..di] == ec;
    }

    /** Advances the dots into span (i, j): first combines (i, k) with the
        passive cell (k, j) for every split point i < k < j, then extends
        the items of (i, j - 1) over each arc leaving position j - 1 into the
        cell (i, j - 1 + length of the arc). */
    method AdvanceDotsForAllItemsInCell(i: int, j: int, input: seq<seq<LatticeArc>>)
      requires Valid() && 0 <= i < j <= |input| && cells.Length0 == |input| + 1
      requires WellFormed(input)
      requires forall k :: i < k < j ==> NodesIn(psv[k, j], hg.nodes)
      requires ItemsIn(|hg.nodes|)
      modifies cells
      ensures cells[i, j] == old(cells[i, j]) +
        SplitItems(g, old(Row(cells, i, j)), Column(psv, j, j), hg.nodes, i + 1, j) +
        ArcItems(g, input[j - 1], 1, old(cells[i, j - 1]))
      ensures forall y :: j < y < cells.Length1 ==>
        cells[i, y] == old(cells[i, y]) + ArcItems(g, input[j - 1], y - j + 1, old(cells[i, j - 1]))
      ensures forall x, y :: 0 <= x < cells.Length0 && 0 <= y < cells.Length1 && (x != i || y < j) ==>
        cells[x, y] == old(cells[x, y])
      ensures ItemsIn(|hg.nodes|)
    {
      ghost var row := Row(cells, i, j);
      ghost var col := Column(psv, j, j);
      ghost var before := cells[i, j - 1];
      ghost var bound := |hg.nodes|;
      forall k | i + 1 <= k < j ensures NodesIn(col[k], hg.nodes) && AntsIn(row[k], bound) {
      }
      CombineSplits(i, j, row, col);
      ExtendOverArcs(i, j, input[j - 1]);
      SplitItemsAntsIn(g, row, col, hg.nodes, i + 1, j);
      ArcItemsAntsIn(g, input[j - 1], 1, before, bound);
      AntsInAppend(old(cells[i, j]), SplitItems(g, row, col, hg.nodes, i + 1, j), bound);
      AntsInAppend(old(cells[i, j]) + SplitItems(g, row, col, hg.nodes, i + 1, j), ArcItems(g, input[j - 1], 1, before), bound);
      forall y | j < y < cells.Length1 ensures AntsIn(cells[i, y], bound) {
        ArcItemsAntsIn(g, input[j - 1], y - j + 1, before, bound);
        AntsInAppend(old(cells[i, y]), ArcItems(g, input[j - 1], y - j + 1, before), bound);
      }
    }

    /** The split-point loop: (i, k) combined with (k, j) for i < k < j. */
    method CombineSplits(i: int, j: int, ghost row: seq<seq<ActiveItem>>, ghost col: seq<seq<nat>>)
      requires Valid() && 0 <= i < j < cells.Length0
      requires row == Row(cells, i, j) && col == Column(psv, j, j)
      requires forall q :: i + 1 <= q < j ==> NodesIn(col[q], hg.nodes)
      modifies cells
      ensures cells[i, j] == old(cells[i, j]) + SplitItems(g, row, col, hg.nodes, i + 1, j)
      ensures forall x, y :: 0 <= x < cells.Length0 && 0 <= y < cells.Length1 && (x != i || y != j) ==>
        cells[x, y] == old(cells[x, y])
    {
      var k := i + 1;
      while k < j
        invariant i + 1 <= k <= j
        invariant forall q :: i + 1 <= q < j ==> NodesIn(col[q], hg.nodes)
        invariant cells[i, j] == old(cells[i, j]) + SplitItems(g, row, col, hg.nodes, i + 1, k)
        invariant forall x, y :: 0 <= x < cells.Length0 && 0 <= y < cells.Length1 && (x != i || y != j) ==>
          cells[x, y] == old(cells[x, y])
      {
        assert row[k] == cells[i, k] && col[k] == psv[k, j];
        ExtendActiveItems(i, k, j);
        AppendAssoc(old(cells[i, j]), SplitItems(g, row, col, hg.nodes, i + 1, k), CombineCells(g, row[k], col[k], hg.nodes));
        k := k + 1;
      }
    }

    /** The arc loop: the items of (i, j - 1) extended over each arc leaving
        position j - 1, into the cell the arc reaches. */
    method ExtendOverArcs(i: int, j: int, outArcs: seq<LatticeArc>)
      requires Valid() && 0 <= i < j < cells.Length0
      requires forall q :: 0 <= q < |outArcs| ==> 1 <= outArcs[q].dist2next && j - 1 + outArcs[q].dist2next < cells.Length0
      modifies cells
      ensures forall y :: j <= y < cells.Length1 ==>
        cells[i, y] == old(cells[i, y]) + ArcItems(g, outArcs, y - j + 1, old(cells[i, j - 1]))
      ensures forall x, y :: 0 <= x < cells.Length0 && 0 <= y < cells.Length1 && (x != i || y < j) ==>
        cells[x, y] == old(cells[x, y])
    {
      ghost var mid := Row(cells, i, cells.Length1);
      var ec := cells[i, j - 1];
      var a := 0;
      while a < |outArcs|
        invariant 0 <= a <= |outArcs|
        invariant cells[i, j - 1] == ec
        invariant forall y :: j <= y < cells.Length1 ==> cells[i, y] == mid[y] + ArcItems(g, outArcs[..a], y - j + 1, ec)
        invariant forall x, y :: 0 <= x < cells.Length0 && 0 <= y < cells.Length1 && (x != i || y < j) ==>
          cells[x, y] == old(cells[x, y])
      {
        assert outArcs[..a + 1][..a] == outArcs[..a];
        var arc := outArcs[a];
        ExtendOverArc(i, j + arc.dist2next - 1, ec, arc);
        a := a + 1;
      }
      assert outArcs[..a] == outArcs;
    }
  }
}
