/** A parsed sentence as the extractor holds it: the tree, its terminals in
    word order, and the lazily built table of word pairs that form an
    acceptable constituent. Spans and heads are also set lazily, by the
    first check that needs them. */
module ParsedTrees {
  import opened Wrappers
  import opened SyntaxTree
  import opened SyntaxSpans
  import opened SpanChecks

  /** The tree with its spans numbered, as both checks first ensure. */
  function Spanned(t: Item, terms: seq<seq<nat>>): (s: Item)
    requires |terms| >= 2 && Leaves(t) == terms && (t.begin != -1 ==> Checkable(t, terms))
    ensures Checkable(s, terms) && Leaves(s) == terms && s.begin != -1
  {
    if t.begin == -1 then
      SpansPrepared(t, terms);
      SetSpans(t, 0).0
    else t
  }

  /** The tree with its heads set as well, as the dependency check then
      ensures. */
  function Headed(s: Item, terms: seq<seq<nat>>): (r: Item)
    requires |terms| >= 2 && Checkable(s, terms) && Leaves(s) == terms
    ensures Checkable(r, terms) && Leaves(r) == terms && r.begin != -1 && r.headIndex != -1
  {
    assert s.kids != [];
    if s.headIndex == -1 then
      HeadsPrepared(s, terms);
      SetHeads(s)
    else s
  }

  /** The tree as the checks of a table leave it. */
  ghost function Goal(t: Item, terms: seq<seq<nat>>, flattened: bool): Item
    requires |terms| >= 2 ==> Leaves(t) == terms && (t.begin != -1 ==> Checkable(t, terms))
  {
    if |terms| < 2 then t
    else if flattened then Spanned(t, terms)
    else Headed(Spanned(t, terms), terms)
  }

  lemma SpansPrepared(t: Item, terms: seq<seq<nat>>)
    requires |terms| >= 2 && Leaves(t) == terms
    ensures Checkable(SetSpans(t, 0).0, terms) && Leaves(SetSpans(t, 0).0) == terms
  {
    SpansNest(t, 0);
    SpansNumberLeaves(t, 0);
    SpansKeepLeaves(t, 0);
  }

  lemma HeadsPrepared(s: Item, terms: seq<seq<nat>>)
    requires Checkable(s, terms) && Leaves(s) == terms
    ensures Checkable(SetHeads(s), terms) && Leaves(SetHeads(s)) == terms
  {
    var r := SetHeads(s);
    HeadsFrame(s);
    FrameSpans(r, s);
    LeavesByShape(r, s);
    forall k | 0 <= k < |terms|
      ensures LeafNumbered(r, terms[k], k)
    {
      FrameLeaf(r, s, terms[k], k);
    }
  }

  /** A prepared tree is prepared: the table's checks see one tree. */
  lemma GoalReached(t: Item, terms: seq<seq<nat>>, flattened: bool)
    requires |terms| >= 2 ==> Leaves(t) == terms && (t.begin != -1 ==> Checkable(t, terms))
    ensures Goal(Goal(t, terms, flattened), terms, flattened) == Goal(t, terms, flattened)
  {
  }

  /** The items of the span from `i` to `j` never include the root when
      there are several: the dependency check reads the parent of every
      item. */
  predicate ItemsBelowRoot(t: Item, terms: seq<seq<nat>>, i: nat, j: nat)
    requires Checkable(t, terms) && i <= j < |terms|
  {
    |Items(t, terms, i, j)| == 1 || Below(t, Items(t, terms, i, j))
  }

  /** The answer of the flattened or the dependency check for the span. */
  predicate Accepts(t: Item, terms: seq<seq<nat>>, i: nat, j: nat, flattened: bool)
    requires Checkable(t, terms) && i <= j < |terms|
    requires !flattened ==> ItemsBelowRoot(t, terms, i, j)
  {
    if flattened then SharedParent(Items(t, terms, i, j)) else FixFloat(t, Items(t, terms, i, j))
  }

  /** Cell value `v` is the check's answer for the pair (i, j) of the
      prepared tree `t`. */
  predicate CellOk(t: Item, terms: seq<seq<nat>>, i: nat, j: nat, flattened: bool, v: bool)
  {
    Checkable(t, terms) && i < j < |terms| &&
    (flattened || ItemsBelowRoot(t, terms, i, j)) && v == Accepts(t, terms, i, j, flattened)
  }

  /** No pair of the sentence has the root among several items. */
  predicate AllBelowRoot(t: Item, terms: seq<seq<nat>>)
  {
    Checkable(t, terms) && forall i, j :: 0 <= i < j < |terms| ==> ItemsBelowRoot(t, terms, i, j)
  }

  class ParsedTree {
    var root: Item
    const terminals: seq<seq<nat>>
    /** The table of accepted pairs, one cell per pair i < j; null until
        first asked for. */
    var constraint: array?<bool>
    /** The tree and the check the table was built with. */
    ghost var tableRoot: Item
    ghost var flattenedTable: bool

    /** The terminals are the leaves, in order; spans, once set, nest and
        number the words. */
    ghost predicate TreeOk()
      reads this
    {
      |terminals| >= 2 ==> Leaves(root) == terminals && (root.begin != -1 ==> Checkable(root, terminals))
    }

    /** Cell Offset(n, i, j) holds the check's answer for the pair (i, j). */
    ghost predicate TableOk()
      reads this, constraint
    {
      constraint != null ==>
        constraint.Length == RowStart(|terminals|, |terminals|) &&
        forall i, j :: 0 <= i < j < |terminals| ==>
          CellOk(tableRoot, terminals, i, j, flattenedTable, constraint[Offset(|terminals|, i, j)])
    }

    ghost predicate Valid()
      reads this, constraint
    {
      TreeOk() && TableOk()
    }

    /** A tree as the reader builds it, before spans are set. */
    constructor (t: Item, terms: seq<seq<nat>>)
      requires |terms| >= 2 ==> Leaves(t) == terms
      requires t.begin == -1
      ensures Valid() && root == t && terminals == terms && constraint == null
    {
      root := t;
      terminals := terms;
      constraint := null;
    }

    /** The postorder numbering of the words from 0. */
    method SetSpanInfo()
      requires TreeOk()
      modifies this
      ensures TreeOk() && root == SetSpans(old(root), 0).0
      ensures constraint == old(constraint) && tableRoot == old(tableRoot) && flattenedTable == old(flattenedTable)
    {
      if |terminals| >= 2 {
        SpansPrepared(root, terminals);
      }
      root := SetSpans(root, 0).0;
    }

    /** The head pass over the whole tree. */
    method SetHeadWord()
      requires TreeOk()
      modifies this
      ensures TreeOk() && root == SetHeads(old(root))
      ensures constraint == old(constraint) && tableRoot == old(tableRoot) && flattenedTable == old(flattenedTable)
    {
      var r := SetHeads(root);
      HeadsFrame(root);
      FrameSpans(r, root);
      LeavesByShape(r, root);
      if |terminals| >= 2 && root.begin != -1 {
        HeadsPrepared(root, terminals);
      }
      root := r;
    }

    /** The parent of a node that is not the root. */
    function ParentOf(p: seq<nat>): (u: seq<nat>)
      reads this
      requires ValidPath(root, p) && p != []
      ensures ValidPath(root, u) && u == p[..|p| - 1]
    {
      PrefixValid(root, p, |p| - 1);
      p[..|p| - 1]
    }

    /** The inner climb of both checks. */
    method Raise(p: seq<nat>, e: int) returns (q: seq<nat>)
      requires ValidPath(root, p)
      ensures q == Climb(root, p, e)
    {
      q := p;
      while q != [] && At(root, ParentOf(q)).begin == At(root, q).begin && At(root, ParentOf(q)).end <= e
        invariant ValidPath(root, q) && Climb(root, q, e) == Climb(root, p, e)
        decreases |q|
      {
        q := ParentOf(q);
      }
    }

    /** The flattened walk: the items of the span from word `b` to word
        `e`, one after the other, must all have the parent of the first
        item that has one. */
    method WalkShared(b: nat, e: nat) returns (ok: bool)
      requires Checkable(root, terminals) && b <= e < |terminals|
      ensures ok == SharedParent(Items(root, terminals, b, e))
    {
      FlatFromShared(root, terminals, b, e);
      var k: nat := b;
      var p := ParentOf(terminals[b]);
      var common: Option<seq<nat>> := None;
      while true
        invariant k <= e && FlatFrom(root, terminals, k, e, common) == FlatFrom(root, terminals, b, e, None)
        invariant p == ParentOf(terminals[k])
        decreases e - k
      {
        var q := Raise(p, e);
        assert q == ItemAt(root, terminals, k, e);
        if common == None {
          common := Parent(q);
        }
        if common != None && Parent(q) != common {
          return false;
        }
        if At(root, q).end < e {
          k := At(root, q).end + 1;
          p := ParentOf(terminals[k]);
        } else {
          return true;
        }
      }
    }

    /** The flattened check of the span from word `b` to word `e`. */
    method IsDepFixFloatStructureFlattened(b: nat, e: nat) returns (ok: bool)
      requires TreeOk() && b <= e < |terminals| && |terminals| >= 2
      modifies this
      ensures TreeOk() && root == Spanned(old(root), terminals)
      ensures constraint == old(constraint) && tableRoot == old(tableRoot) && flattenedTable == old(flattenedTable)
      ensures ok == SharedParent(Items(root, terminals, b, e))
    {
      if root.begin == -1 {
        SetSpanInfo();
      }
      ok := WalkShared(b, e);
    }

    /** The items of the span from word `b` to word `e`, collected. */
    method CollectItems(b: nat, e: nat) returns (items: seq<seq<nat>>)
      requires Checkable(root, terminals) && b <= e < |terminals|
      ensures items == Items(root, terminals, b, e)
    {
      var k: nat := b;
      items := [];
      var p := ParentOf(terminals[b]);
      ItemsAccCollects(root, terminals, b, e, []);
      assert [] + Items(root, terminals, b, e) == Items(root, terminals, b, e);
      while true
        invariant k <= e && ItemsAcc(root, terminals, k, e, items) == Items(root, terminals, b, e)
        invariant p == ParentOf(terminals[k])
        decreases e - k
      {
        var q := Raise(p, e);
        assert q == ItemAt(root, terminals, k, e);
        items := items + [q];
        if At(root, q).end < e {
          k := At(root, q).end + 1;
          p := ParentOf(terminals[k]);
        } else {
          return;
        }
      }
    }

    /** The first loop of the dependency test: the position of the head
        item, -1 when there is none; `unique` is false as soon as a second
        one turns up. */
    method FindHead(items: seq<seq<nat>>) returns (head: int, unique: bool)
      requires Below(root, items)
      ensures -1 <= head < |items|
      ensures unique ==> Heads(root, items, |items|) == if head == -1 then [] else [head]
      ensures !unique ==> |Heads(root, items, |items|)| >= 2
    {
      head := -1;
      var i := 0;
      while i < |items|
        invariant 0 <= i <= |items|
        invariant -1 <= head < i && Heads(root, items, i) == if head == -1 then [] else [head]
      {
        var isHead := At(root, ParentOf(items[i])).headIndex == At(root, items[i]).brother;
        assert isHead == IsHeadItem(root, items[i]);
        HeadsStep(root, items, i);
        if isHead {
          if head != -1 {
            assert Heads(root, items, i + 1) == [head] + [i];
            HeadsGrow(root, items, i + 1, |items|);
            return head, false;
          }
          assert Heads(root, items, i + 1) == [] + [i];
          head := i;
        }
        i := i + 1;
      }
      unique := true;
    }

    /** With no head item: do neighbouring items share a dependency head? */
    method ChainTest(items: seq<seq<nat>>) returns (ok: bool)
      requires |items| >= 1 && Below(root, items)
      ensures ok == SameDeps(root, items)
    {
      var i := 1;
      while i < |items| && At(root, items[i]).depHead == At(root, items[i - 1]).depHead
        invariant 1 <= i <= |items|
        invariant forall j :: 1 <= j < i ==> At(root, items[j]).depHead == At(root, items[j - 1]).depHead
      {
        i := i + 1;
      }
      ChainedIsSame(root, items);
      ok := i == |items|;
    }

    /** With the one head item at `head`: does every other item, not a head
        itself, depend on its head word? */
    method HeadTest(items: seq<seq<nat>>, head: nat) returns (ok: bool)
      requires Below(root, items) && head < |items| && Heads(root, items, |items|) == [head]
      ensures ok == DependOn(root, items, head)
    {
      var i := 0;
      while i < |items| &&
        (i == head || (At(root, items[i]).depHead == At(root, items[head]).headWord &&
                       At(root, ParentOf(items[i])).headIndex != At(root, items[i]).brother))
        invariant 0 <= i <= |items|
        invariant forall j :: 0 <= j < i && j != head ==> At(root, items[j]).depHead == At(root, items[head]).headWord
      {
        i := i + 1;
      }
      if i < |items| && i != head {
        OnlyHead(root, items, head, i);
      }
      ok := i == |items|;
    }

    /** The dependency test on two or more items. */
    method DepTest(items: seq<seq<nat>>) returns (ok: bool)
      requires |items| > 1 && Below(root, items)
      ensures ok == FixFloat(root, items)
    {
      var head, unique := FindHead(items);
      if !unique {
        return false;
      }
      if head == -1 {
        ok := ChainTest(items);
      } else {
        ok := HeadTest(items, head);
      }
    }

    /** The dependency check of the span from word `b` to word `e`. */
    method IsDepFixFloatStructure(b: nat, e: nat) returns (ok: bool)
      requires TreeOk() && b <= e < |terminals| && |terminals| >= 2
      requires ItemsBelowRoot(Headed(Spanned(root, terminals), terminals), terminals, b, e)
      modifies this
      ensures TreeOk() && root == Headed(Spanned(old(root), terminals), terminals)
      ensures constraint == old(constraint) && tableRoot == old(tableRoot) && flattenedTable == old(flattenedTable)
      ensures ok == FixFloat(root, Items(root, terminals, b, e))
    {
      if root.begin == -1 {
        SetSpanInfo();
      }
      if root.headIndex == -1 {
        SetHeadWord();
      }
      var items := CollectItems(b, e);
      if |items| == 1 {
        return true;
      }
      ok := DepTest(items);
    }

    /** The tree is on its way to `goal`, the tree the checks leave, whose
        pairs the check can answer. */
    ghost predicate ReadyFor(flattened: bool, goal: Item)
      reads this
    {
      TreeOk() && Goal(root, terminals, flattened) == goal &&
      (!flattened && |terminals| >= 2 ==> AllBelowRoot(goal, terminals))
    }

    /** The check of the pair (i, j), the flattened one or the dependency
        one. */
    method CheckPair(i: nat, j: nat, flattened: bool, ghost goal: Item) returns (ok: bool)
      requires ReadyFor(flattened, goal) && i < j < |terminals|
      modifies this
      ensures ReadyFor(flattened, goal) && root == goal
      ensures constraint == old(constraint) && tableRoot == old(tableRoot) && flattenedTable == old(flattenedTable)
      ensures CellOk(goal, terminals, i, j, flattened, ok)
    {
      if flattened {
        ok := IsDepFixFloatStructureFlattened(i, j);
      } else {
        ok := IsDepFixFloatStructure(i, j);
      }
    }

    /** Cell (i, j) of the table, set when the pair's check passes. */
    method SetCell(table: array<bool>, i: nat, j: nat, flattened: bool, ghost goal: Item)
      requires ReadyFor(flattened, goal) && i < j < |terminals| && table.Length == RowStart(|terminals|, |terminals|)
      requires !table[Offset(|terminals|, i, j)]
      modifies this, table
      ensures ReadyFor(flattened, goal) && root == goal
      ensures constraint == old(constraint) && tableRoot == old(tableRoot) && flattenedTable == old(flattenedTable)
      ensures forall c :: 0 <= c < table.Length && c != Offset(|terminals|, i, j) ==> table[c] == old(table[c])
      ensures CellOk(goal, terminals, i, j, flattened, table[Offset(|terminals|, i, j)])
    {
      var ok := CheckPair(i, j, flattened, goal);
      if ok {
        table[Offset(|terminals|, i, j)] := true;
      }
    }

    /** Row `i` of the table: the pairs (i, j), j > i, in order, each cell
        set when its check passes. */
    method FillRow(table: array<bool>, i: nat, flattened: bool, ghost goal: Item)
      requires ReadyFor(flattened, goal) && i < |terminals| && table.Length == RowStart(|terminals|, |terminals|)
      requires forall c :: 0 <= c < table.Length && c >= RowStart(|terminals|, i) ==> !table[c]
      modifies this, table
      ensures ReadyFor(flattened, goal)
      ensures old(root) == goal || i + 1 < |terminals| ==> root == goal
      ensures constraint == old(constraint) && tableRoot == old(tableRoot) && flattenedTable == old(flattenedTable)
      ensures forall c :: 0 <= c < table.Length && c >= RowStart(|terminals|, i + 1) ==> !table[c]
      ensures forall c :: 0 <= c < table.Length && c < RowStart(|terminals|, i) ==> table[c] == old(table[c])
      ensures forall j :: i < j < |terminals| ==> CellOk(goal, terminals, i, j, flattened, table[Offset(|terminals|, i, j)])
    {
      var n := |terminals|;
      var j := i + 1;
      while j < n
        invariant i + 1 <= j <= n
        invariant ReadyFor(flattened, goal)
        invariant old(root) == goal || j > i + 1 ==> root == goal
        invariant constraint == old(constraint) && tableRoot == old(tableRoot) && flattenedTable == old(flattenedTable)
        invariant forall c :: 0 <= c < table.Length && c >= RowStart(n, i) + (j - i - 1) ==> !table[c]
        invariant forall c :: 0 <= c < table.Length && c < RowStart(n, i) ==> table[c] == old(table[c])
        invariant forall j' :: i < j' < j ==> CellOk(goal, terminals, i, j', flattened, table[Offset(n, i, j')])
      {
        assert Offset(n, i, j) == RowStart(n, i) + (j - i - 1);
        SetCell(table, i, j, flattened, goal);
        j := j + 1;
      }
      assert RowStart(n, i + 1) == RowStart(n, i) + (n - i - 1);
    }

    /** The rows of the table, in order. */
    method FillTable(table: array<bool>, flattened: bool, ghost goal: Item)
      requires ReadyFor(flattened, goal) && table.Length == RowStart(|terminals|, |terminals|)
      requires forall c :: 0 <= c < table.Length ==> !table[c]
      modifies this, table
      ensures ReadyFor(flattened, goal) && root == goal
      ensures constraint == old(constraint) && tableRoot == old(tableRoot) && flattenedTable == old(flattenedTable)
      ensures forall i, j :: 0 <= i < j < |terminals| ==>
        CellOk(goal, terminals, i, j, flattened, table[Offset(|terminals|, i, j)])
    {
      var n := |terminals|;
      var i := 0;
      while i < n
        invariant 0 <= i <= n
        invariant ReadyFor(flattened, goal) && (i > 0 && n >= 2 ==> root == goal)
        invariant constraint == old(constraint) && tableRoot == old(tableRoot) && flattenedTable == old(flattenedTable)
        invariant forall c :: 0 <= c < table.Length && c >= RowStart(n, i) ==> !table[c]
        invariant forall i', j' :: 0 <= i' < i && i' < j' < n ==>
          CellOk(goal, terminals, i', j', flattened, table[Offset(n, i', j')])
      {
        FillRow(table, i, flattened, goal);
        RowsBefore(n, i);
        i := i + 1;
      }
      if n < 2 {
        assert Goal(root, terminals, flattened) == root;
      }
    }

    /** Builds the table once: every pair i < j is checked, and its cell
        set when the check passes. */
    method InitializeConstraint(flattened: bool)
      requires Valid()
      requires constraint == null && !flattened && |terminals| >= 2 ==>
        AllBelowRoot(Headed(Spanned(root, terminals), terminals), terminals)
      modifies this
      ensures Valid() && constraint != null
      ensures old(constraint) != null ==> (constraint == old(constraint) && root == old(root) &&
        tableRoot == old(tableRoot) && flattenedTable == old(flattenedTable))
      ensures old(constraint) == null ==> (fresh(constraint) && flattenedTable == flattened &&
        tableRoot == root && root == Goal(old(root), terminals, flattened))
      ensures |terminals| >= 2 ==> constraint[Offset(|terminals|, 0, |terminals| - 1)]
    {
      var n := |terminals|;
      if constraint != null {
        if n >= 2 {
          WholeSentenceCell();
        }
        return;
      }
      var table := new bool[n * (n - 1) / 2](_ => false);
      TableSize(n);
      constraint := table;
      ghost var goal := Goal(root, terminals, flattened);
      FillTable(table, flattened, goal);
      tableRoot := root;
      flattenedTable := flattened;
      if n >= 2 {
        WholeSentenceCell();
      }
    }

    /** The cell of the whole sentence is set, whichever check built the
        table. */
    lemma WholeSentenceCell()
      requires TableOk() && constraint != null && |terminals| >= 2
      ensures constraint[Offset(|terminals|, 0, |terminals| - 1)]
    {
      var n := |terminals|;
      assert CellOk(tableRoot, terminals, 0, n - 1, flattenedTable, constraint[Offset(n, 0, n - 1)]);
      WholeSentence(tableRoot, terminals);
    }

    /** The table's answer for the pair (i, j), built on first use with the
        check asked for then; later calls read the same table whatever
        check they ask for. */
    method IsMeetConstraint(i: nat, j: nat, flattened: bool) returns (r: bool)
      requires Valid() && i < j < |terminals|
      requires constraint == null && !flattened ==>
        AllBelowRoot(Headed(Spanned(root, terminals), terminals), terminals)
      modifies this
      ensures Valid() && constraint != null
      ensures old(constraint) != null ==> flattenedTable == old(flattenedTable) && tableRoot == old(tableRoot)
      ensures old(constraint) == null ==> flattenedTable == flattened
      ensures CellOk(tableRoot, terminals, i, j, flattenedTable, r)
    {
      if constraint == null {
        InitializeConstraint(flattened);
      }
      var position := Offset(|terminals|, i, j);
      r := constraint[position];
    }
  }
}
