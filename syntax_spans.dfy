/** The passes over a built parse tree: postorder span numbering, and
    head selection with dependency heads. */
module SyntaxSpans {
  import opened Wrappers
  import opened SyntaxTree
  import HeadRules

  // ---------------------------------------------------------------
  // Leaves and shape

  /** The paths of the leaves, left to right. */
  function Leaves(t: Item): (ls: seq<seq<nat>>)
    ensures |ls| >= 1
    ensures t.kids != [] ==> forall k :: 0 <= k < |ls| ==> ls[k] != []
    decreases t
  {
    if t.kids == [] then [[]] else LeavesUpTo(t.kids, |t.kids|)
  }

  /** The leaves under the first `n` children, each path starting with its
      child's position. */
  function LeavesUpTo(ks: seq<Item>, n: nat): (ls: seq<seq<nat>>)
    requires n <= |ks|
    ensures n > 0 ==> |ls| >= 1
    ensures forall k :: 0 <= k < |ls| ==> ls[k] != []
    decreases ks, n
  {
    if n == 0 then [] else LeavesUpTo(ks, n - 1) + Under(n - 1, Leaves(ks[n - 1]))
  }

  function Under(i: nat, ps: seq<seq<nat>>): (r: seq<seq<nat>>)
    ensures |r| == |ps| && forall k :: 0 <= k < |ps| ==> r[k] == [i] + ps[k]
  {
    seq(|ps|, k requires 0 <= k < |ps| => [i] + ps[k])
  }

  /** The branching of a tree, with every label and field blanked. */
  function Shape(t: Item): Item
    decreases t
  {
    Item("", seq(|t.kids|, i requires 0 <= i < |t.kids| => Shape(t.kids[i])), 0, 0, 0, 0, 0, 0)
  }

  /** The leaves depend on the branching only. */
  lemma {:induction false} LeavesByShape(a: Item, b: Item)
    requires Shape(a) == Shape(b)
    ensures Leaves(a) == Leaves(b)
    decreases a
  {
    assert |a.kids| == |Shape(a).kids| == |b.kids|;
    if a.kids != [] {
      forall i | 0 <= i < |a.kids|
        ensures Shape(a.kids[i]) == Shape(b.kids[i])
      {
        assert Shape(a).kids[i] == Shape(b).kids[i];
      }
      LeavesUpToByShape(a.kids, b.kids, |a.kids|);
    }
  }

  lemma {:induction false} LeavesUpToByShape(xs: seq<Item>, ys: seq<Item>, n: nat)
    requires n <= |xs| == |ys| && forall i :: 0 <= i < |xs| ==> Shape(xs[i]) == Shape(ys[i])
    ensures LeavesUpTo(xs, n) == LeavesUpTo(ys, n)
    decreases xs, n
  {
    if n > 0 {
      LeavesUpToByShape(xs, ys, n - 1);
      LeavesByShape(xs[n - 1], ys[n - 1]);
    }
  }

  // ---------------------------------------------------------------
  // Span numbering

  /** The span pass, children first: a leaf takes the next number, an
      inner node spans from its first child's begin to its last child's
      end. Returns the next unused number. */
  function SetSpans(t: Item, next: nat): (r: (Item, nat))
    ensures r.1 == next + |Leaves(t)|
    ensures r.0.begin == next && r.0.end == r.1 - 1
    decreases t
  {
    if t.kids == [] then (t.(begin := next, end := next), next + 1)
    else
      var s := SpansUpTo(t.kids, |t.kids|, next);
      (t.(kids := s.0, begin := s.0[0].begin, end := s.0[|s.0| - 1].end), s.1)
  }

  /** The pass over the first `n` children, left to right. */
  function SpansUpTo(ks: seq<Item>, n: nat, next: nat): (r: (seq<Item>, nat))
    requires n <= |ks|
    ensures |r.0| == n && r.1 == next + |LeavesUpTo(ks, n)|
    ensures n > 0 ==> r.0[0].begin == next && r.0[n - 1].end == r.1 - 1
    decreases ks, n
  {
    if n == 0 then ([], next)
    else
      var pre := SpansUpTo(ks, n - 1, next);
      var last := SetSpans(ks[n - 1], pre.1);
      (pre.0 + [last.0], last.1)
  }

  /** Spans nest: a node's span is not empty, a leaf's is one number, an
      inner node's runs from its first child's begin to its last child's
      end, and every child's lies inside its parent's. */
  predicate WellSpanned(t: Item)
    decreases t
  {
    t.begin <= t.end &&
    (t.kids == [] ==> t.begin == t.end) &&
    (t.kids != [] ==> t.begin == t.kids[0].begin && t.end == t.kids[|t.kids| - 1].end) &&
    forall i :: 0 <= i < |t.kids| ==> t.begin <= t.kids[i].begin && t.kids[i].end <= t.end && WellSpanned(t.kids[i])
  }

  lemma {:induction false} SpansNest(t: Item, next: nat)
    ensures WellSpanned(SetSpans(t, next).0)
    decreases t
  {
    if t.kids != [] {
      var s := SpansUpTo(t.kids, |t.kids|, next);
      assert SetSpans(t, next).0 == t.(kids := s.0, begin := s.0[0].begin, end := s.0[|s.0| - 1].end);
      SpansUpToNest(t.kids, |t.kids|, next);
    }
  }

  lemma {:induction false} SpansUpToNest(ks: seq<Item>, n: nat, next: nat)
    requires n <= |ks|
    ensures forall i :: 0 <= i < n ==>
      next <= SpansUpTo(ks, n, next).0[i].begin && SpansUpTo(ks, n, next).0[i].end < SpansUpTo(ks, n, next).1 &&
      WellSpanned(SpansUpTo(ks, n, next).0[i])
    decreases ks, n
  {
    if n > 0 {
      var pre := SpansUpTo(ks, n - 1, next);
      var last := SetSpans(ks[n - 1], pre.1);
      var r := SpansUpTo(ks, n, next);
      assert r == (pre.0 + [last.0], last.1);
      SpansUpToNest(ks, n - 1, next);
      SpansNest(ks[n - 1], pre.1);
      assert forall i :: 0 <= i < n - 1 ==> r.0[i] == pre.0[i];
      assert r.0[n - 1] == last.0;
    }
  }

  /** Leaf k, left to right, is numbered next + k. */
  lemma {:induction false} SpansNumberLeaves(t: Item, next: nat)
    ensures forall k :: 0 <= k < |Leaves(t)| ==> LeafNumbered(SetSpans(t, next).0, Leaves(t)[k], next + k)
    decreases t
  {
    if t.kids != [] {
      var s := SpansUpTo(t.kids, |t.kids|, next);
      var r := SetSpans(t, next).0;
      assert r == t.(kids := s.0, begin := s.0[0].begin, end := s.0[|s.0| - 1].end);
      var ls := Leaves(t);
      SpansUpToNumberLeaves(t.kids, |t.kids|, next);
      forall k | 0 <= k < |ls|
        ensures LeafNumbered(r, ls[k], next + k)
      {
        assert LeafNumberedIn(s.0, ls[k], next + k);
      }
    }
  }

  /** The path leads to a leaf numbered `k`. */
  predicate LeafNumbered(t: Item, p: seq<nat>, k: int)
  {
    ValidPath(t, p) && At(t, p).kids == [] && At(t, p).begin == k && At(t, p).end == k
  }

  /** The same, for a path into a list of trees. */
  predicate LeafNumberedIn(ts: seq<Item>, p: seq<nat>, k: int)
  {
    p != [] && p[0] < |ts| && LeafNumbered(ts[p[0]], p[1..], k)
  }

  lemma {:induction false} SpansUpToNumberLeaves(ks: seq<Item>, n: nat, next: nat)
    requires n <= |ks|
    ensures forall k :: 0 <= k < |LeavesUpTo(ks, n)| ==>
      LeafNumberedIn(SpansUpTo(ks, n, next).0, LeavesUpTo(ks, n)[k], next + k)
    decreases ks, n
  {
    if n > 0 {
      var pre := SpansUpTo(ks, n - 1, next);
      var last := SetSpans(ks[n - 1], pre.1);
      var r := SpansUpTo(ks, n, next);
      assert r == (pre.0 + [last.0], last.1);
      var lpre := LeavesUpTo(ks, n - 1);
      var ls := LeavesUpTo(ks, n);
      var mine := Leaves(ks[n - 1]);
      assert ls == lpre + Under(n - 1, mine);
      SpansUpToNumberLeaves(ks, n - 1, next);
      SpansNumberLeaves(ks[n - 1], pre.1);
      forall k | 0 <= k < |ls|
        ensures LeafNumberedIn(r.0, ls[k], next + k)
      {
        if k < |lpre| {
          assert ls[k] == lpre[k];
          assert LeafNumberedIn(pre.0, lpre[k], next + k);
          assert r.0[lpre[k][0]] == pre.0[lpre[k][0]];
        } else {
          var m := k - |lpre|;
          assert ls[k] == [n - 1] + mine[m];
          assert LeafNumbered(last.0, mine[m], pre.1 + m);
          assert ls[k][1..] == mine[m];
        }
      }
    }
  }

  /** The tree with its spans blanked. */
  function SpanFree(t: Item): Item
    decreases t
  {
    t.(begin := -1, end := -1, kids := seq(|t.kids|, i requires 0 <= i < |t.kids| => SpanFree(t.kids[i])))
  }

  /** The span pass changes the spans and nothing else. */
  lemma {:induction false} SpansKeep(t: Item, next: nat)
    ensures SpanFree(SetSpans(t, next).0) == SpanFree(t)
    decreases t
  {
    if t.kids != [] {
      var r := SetSpans(t, next).0;
      SpansUpToKeep(t.kids, |t.kids|, next);
      assert SpanFree(r).kids == SpanFree(t).kids;
    }
  }

  lemma {:induction false} SpansUpToKeep(ks: seq<Item>, n: nat, next: nat)
    requires n <= |ks|
    ensures forall i :: 0 <= i < n ==> SpanFree(SpansUpTo(ks, n, next).0[i]) == SpanFree(ks[i])
    decreases ks, n
  {
    if n > 0 {
      SpansUpToKeep(ks, n - 1, next);
      SpansKeep(ks[n - 1], SpansUpTo(ks, n - 1, next).1);
    }
  }

  lemma {:induction false} ShapeSpanFree(t: Item)
    ensures Shape(SpanFree(t)) == Shape(t)
    decreases t
  {
    forall i | 0 <= i < |t.kids|
      ensures Shape(SpanFree(t.kids[i])) == Shape(t.kids[i])
    {
      ShapeSpanFree(t.kids[i]);
    }
    assert Shape(SpanFree(t)).kids == Shape(t).kids;
  }

  /** The span pass keeps the leaves where they were. */
  lemma SpansKeepLeaves(t: Item, next: nat)
    ensures Leaves(SetSpans(t, next).0) == Leaves(t)
  {
    var r := SetSpans(t, next).0;
    SpansKeep(t, next);
    ShapeSpanFree(t);
    ShapeSpanFree(r);
    LeavesByShape(r, t);
  }

  // ---------------------------------------------------------------
  // Heads

  function Terms(ks: seq<Item>): (ts: seq<string>)
    ensures |ts| == |ks| && forall i :: 0 <= i < |ks| ==> ts[i] == ks[i].term
  {
    seq(|ks|, i requires 0 <= i < |ks| => ks[i].term)
  }

  /** The walk down the head chain from `x` that writes the dependency
      head `d` on every node it passes: `x`, its head child, that one's
      head child, and so on to a leaf. */
  function DepChain(x: Item, d: int): (r: Item)
    ensures |r.kids| == |x.kids| && r.headIndex == x.headIndex && r.headWord == x.headWord
    ensures forall i :: 0 <= i < |x.kids| ==> (r.kids[i].kids == []) == (x.kids[i].kids == [])
    decreases x
  {
    if x.kids != [] && 0 <= x.headIndex < |x.kids| then
      x.(depHead := d, kids := x.kids[x.headIndex := DepChain(x.kids[x.headIndex], d)])
    else x.(depHead := d)
  }

  /** Every child but the head has its head chain marked with `d`. */
  function MarkDeps(kids: seq<Item>, h: int, d: int): (r: seq<Item>)
    ensures |r| == |kids| && (0 <= h < |kids| ==> r[h] == kids[h])
    ensures forall i :: 0 <= i < |kids| ==> r[i].headWord == kids[i].headWord && (r[i].kids == []) == (kids[i].kids == [])
  {
    seq(|kids|, i requires 0 <= i < |kids| => if i == h then kids[i] else DepChain(kids[i], d))
  }

  /** The head pass, children first: a node with one child takes it as its
      head, any other inner node asks the head rules; the node's head word
      is its head child's, and unless the node is a pre-terminal, every
      other child's head chain depends on that word. */
  function SetHeads(t: Item): (r: Item)
    ensures |r.kids| == |t.kids| && r.term == t.term && r.begin == t.begin && r.end == t.end
    ensures t.kids != [] ==> r.headIndex >= 0
    decreases t
  {
    if t.kids == [] then t
    else
      var kids := seq(|t.kids|, i requires 0 <= i < |t.kids| => SetHeads(t.kids[i]));
      var h := if |t.kids| == 1 then 0 else HeadRules.HeadOf(t.term, Terms(t.kids));
      var hw := kids[h].headWord;
      t.(kids := if IsPreTerminal(t) then kids else MarkDeps(kids, h, hw), headIndex := h, headWord := hw)
  }

  /** Every inner node's head index names one of its children, and its
      head word is that child's. */
  predicate HeadsOk(t: Item)
    decreases t
  {
    (t.kids != [] ==> 0 <= t.headIndex < |t.kids| && t.headWord == t.kids[t.headIndex].headWord) &&
    forall i :: 0 <= i < |t.kids| ==> HeadsOk(t.kids[i])
  }

  /** The dependency head `d` is written all down the head chain. */
  predicate ChainMarked(x: Item, d: int)
    decreases x
  {
    x.depHead == d && (x.kids != [] && 0 <= x.headIndex < |x.kids| ==> ChainMarked(x.kids[x.headIndex], d))
  }

  /** At every inner node that is not a pre-terminal, every child but the
      head depends, all down its head chain, on the node's head word. */
  predicate DepsOk(t: Item)
    decreases t
  {
    (t.kids != [] && !IsPreTerminal(t) ==>
      forall i :: 0 <= i < |t.kids| && i != t.headIndex ==> ChainMarked(t.kids[i], t.headWord)) &&
    forall i :: 0 <= i < |t.kids| ==> DepsOk(t.kids[i])
  }

  lemma {:induction false} DepChainMarks(x: Item, d: int)
    ensures ChainMarked(DepChain(x, d), d)
    decreases x
  {
    if x.kids != [] && 0 <= x.headIndex < |x.kids| {
      DepChainMarks(x.kids[x.headIndex], d);
    }
  }

  /** Marking a chain keeps the heads and the marks below it. */
  lemma {:induction false} DepChainKeeps(x: Item, d: int)
    requires HeadsOk(x) && DepsOk(x)
    ensures HeadsOk(DepChain(x, d)) && DepsOk(DepChain(x, d))
    decreases x
  {
    if x.kids != [] {
      var h := x.headIndex;
      var r := DepChain(x, d);
      DepChainKeeps(x.kids[h], d);
      assert forall i :: 0 <= i < |x.kids| && i != h ==> r.kids[i] == x.kids[i];
      assert IsPreTerminal(r) == IsPreTerminal(x);
    }
  }

  /** After the head pass every inner node has a head child and the head
      word of that child, and the dependency heads are marked. */
  lemma {:induction false} HeadsSet(t: Item)
    ensures HeadsOk(SetHeads(t)) && DepsOk(SetHeads(t))
    decreases t
  {
    if t.kids != [] {
      var kids := seq(|t.kids|, i requires 0 <= i < |t.kids| => SetHeads(t.kids[i]));
      var h := if |t.kids| == 1 then 0 else HeadRules.HeadOf(t.term, Terms(t.kids));
      var hw := kids[h].headWord;
      var r := SetHeads(t);
      forall i | 0 <= i < |t.kids|
        ensures HeadsOk(kids[i]) && DepsOk(kids[i])
      {
        HeadsSet(t.kids[i]);
      }
      assert forall i :: 0 <= i < |t.kids| ==> (kids[i].kids == []) == (t.kids[i].kids == []);
      if IsPreTerminal(t) {
        assert r.kids == kids;
      } else {
        var marked := MarkDeps(kids, h, hw);
        assert r.kids == marked;
        forall i | 0 <= i < |t.kids| && i != h
          ensures HeadsOk(marked[i]) && DepsOk(marked[i]) && ChainMarked(marked[i], hw)
        {
          DepChainKeeps(kids[i], hw);
          DepChainMarks(kids[i], hw);
        }
        assert !IsPreTerminal(r);
      }
    }
  }

  /** The head words found at the leaves. */
  function LeafWords(t: Item): set<int>
    decreases t
  {
    if t.kids == [] then {t.headWord}
    else set i, w | 0 <= i < |t.kids| && w in LeafWords(t.kids[i]) :: w
  }

  /** A node's head word is the head word of one of its leaves: with the
      words numbered, the index of a word it dominates. */
  lemma {:induction false} HeadWordIsLeafWord(t: Item)
    ensures SetHeads(t).headWord in LeafWords(t)
    decreases t
  {
    if t.kids != [] {
      var h := if |t.kids| == 1 then 0 else HeadRules.HeadOf(t.term, Terms(t.kids));
      HeadWordIsLeafWord(t.kids[h]);
    }
  }

  /** The tree with its head fields cleared, except the word numbers at
      the leaves. */
  function HeadFree(t: Item): Item
    decreases t
  {
    t.(headIndex := -1, depHead := -1, headWord := if t.kids == [] then t.headWord else -1,
       kids := seq(|t.kids|, i requires 0 <= i < |t.kids| => HeadFree(t.kids[i])))
  }

  lemma {:induction false} DepChainFrame(x: Item, d: int)
    ensures HeadFree(DepChain(x, d)) == HeadFree(x)
    decreases x
  {
    if x.kids != [] && 0 <= x.headIndex < |x.kids| {
      DepChainFrame(x.kids[x.headIndex], d);
      var r := DepChain(x, d);
      assert forall i :: 0 <= i < |x.kids| ==> HeadFree(r.kids[i]) == HeadFree(x.kids[i]);
    }
  }

  /** The head pass changes the head fields and nothing else. */
  lemma {:induction false} HeadsFrame(t: Item)
    ensures HeadFree(SetHeads(t)) == HeadFree(t)
    decreases t
  {
    if t.kids != [] {
      var kids := seq(|t.kids|, i requires 0 <= i < |t.kids| => SetHeads(t.kids[i]));
      var h := if |t.kids| == 1 then 0 else HeadRules.HeadOf(t.term, Terms(t.kids));
      var hw := kids[h].headWord;
      var r := SetHeads(t);
      forall i | 0 <= i < |t.kids|
        ensures HeadFree(r.kids[i]) == HeadFree(t.kids[i])
      {
        HeadsFrame(t.kids[i]);
        if !IsPreTerminal(t) && i != h {
          DepChainFrame(kids[i], hw);
        }
      }
    }
  }

  /** Trees that differ only in their head fields have the same spans,
      shape and numbered leaves. */
  lemma {:induction false} FrameSpans(a: Item, b: Item)
    requires HeadFree(a) == HeadFree(b)
    ensures a.begin == b.begin && a.end == b.end && |a.kids| == |b.kids|
    ensures WellSpanned(a) == WellSpanned(b) && Shape(a) == Shape(b)
    decreases a
  {
    assert |a.kids| == |HeadFree(a).kids| == |b.kids|;
    forall i | 0 <= i < |a.kids|
      ensures a.kids[i].begin == b.kids[i].begin && a.kids[i].end == b.kids[i].end
      ensures WellSpanned(a.kids[i]) == WellSpanned(b.kids[i]) && Shape(a.kids[i]) == Shape(b.kids[i])
    {
      assert HeadFree(a.kids[i]) == HeadFree(a).kids[i];
      FrameSpans(a.kids[i], b.kids[i]);
    }
    assert a.begin == HeadFree(a).begin && a.end == HeadFree(a).end;
    assert b.begin == HeadFree(b).begin && b.end == HeadFree(b).end;
    assert Shape(a).kids == Shape(b).kids;
  }

  lemma {:induction false} FrameLeaf(a: Item, b: Item, p: seq<nat>, k: int)
    requires HeadFree(a) == HeadFree(b)
    ensures LeafNumbered(a, p, k) == LeafNumbered(b, p, k)
    decreases |p|
  {
    assert |a.kids| == |HeadFree(a).kids| == |b.kids|;
    assert a.begin == HeadFree(a).begin && a.end == HeadFree(a).end;
    if p != [] && p[0] < |a.kids| {
      assert HeadFree(a.kids[p[0]]) == HeadFree(a).kids[p[0]];
      FrameLeaf(a.kids[p[0]], b.kids[p[0]], p[1..], k);
    }
  }
}
