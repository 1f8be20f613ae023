/** The two tests a word span must pass before the extractor accepts it as
    a constituent: they cut the span into the largest subtrees ("items")
    that lie inside it and ask whether the items hang together. */
module SpanChecks {
  import opened Wrappers
  import opened SyntaxTree
  import opened SyntaxSpans

  /** What the tests need of the tree: spans nest, the root covers words
      0 to n - 1, and terminal k is a leaf, not the root, numbered k. */
  predicate Checkable(t: Item, terms: seq<seq<nat>>)
  {
    WellSpanned(t) && t.begin == 0 && t.end == |terms| - 1 &&
    forall k :: 0 <= k < |terms| ==> terms[k] != [] && LeafNumbered(t, terms[k], k)
  }

  /** A node's span lies inside each of its ancestors'. */
  lemma {:induction false} InsideAncestor(t: Item, q: seq<nat>, p: seq<nat>)
    requires WellSpanned(t) && ValidPath(t, p) && IsPrefix(q, p)
    ensures ValidPath(t, q) && At(t, q).begin <= At(t, p).begin && At(t, p).end <= At(t, q).end
    decreases |p|
  {
    if p != [] {
      if q == [] {
        InsideAncestor(t.kids[p[0]], [], p[1..]);
      } else {
        assert q[0] == p[0];
        assert p[1..][..|q| - 1] == q[1..];
        InsideAncestor(t.kids[p[0]], q[1..], p[1..]);
      }
    }
  }

  /** The inner climb: from the node at `p`, go up while the parent starts
      where the node starts and ends no later than word `e`. The result is
      an ancestor (or `p` itself) that starts where `p` starts, ends no
      later than `e` unless it is `p`, and cannot climb further. */
  function Climb(t: Item, p: seq<nat>, e: int): (q: seq<nat>)
    requires ValidPath(t, p)
    ensures IsPrefix(q, p) && ValidPath(t, q)
    ensures At(t, q).begin == At(t, p).begin && (q == p || At(t, q).end <= e)
    ensures q != [] ==> (ValidPath(t, q[..|q| - 1]) &&
      (At(t, q[..|q| - 1]).begin != At(t, q).begin || At(t, q[..|q| - 1]).end > e))
    decreases |p|
  {
    if p == [] then p
    else
      PrefixValid(t, p, |p| - 1);
      var up := p[..|p| - 1];
      if At(t, up).begin == At(t, p).begin && At(t, up).end <= e then
        var q := Climb(t, up, e);
        assert p[..|q|] == up[..|q|];
        q
      else p
  }

  /** The item that starts the walk at word `k`: the parent of that word's
      leaf, raised by the climb; it covers word `k`. */
  function ItemAt(t: Item, terms: seq<seq<nat>>, k: nat, e: int): (q: seq<nat>)
    requires Checkable(t, terms) && k < |terms|
    ensures ValidPath(t, q) && At(t, q).begin <= k <= At(t, q).end
  {
    PrefixValid(t, terms[k], |terms[k]| - 1);
    var up := terms[k][..|terms[k]| - 1];
    var q := Climb(t, up, e);
    InsideAncestor(t, up, terms[k]);
    InsideAncestor(t, q, up);
    q
  }

  /** The items of the span from word `k` to word `e`: take the item at
      `k`; if it ends before `e`, carry on from the word after it. */
  function Items(t: Item, terms: seq<seq<nat>>, k: nat, e: nat): (items: seq<seq<nat>>)
    requires Checkable(t, terms) && k <= e < |terms|
    ensures |items| >= 1 && items[0] == ItemAt(t, terms, k, e)
    decreases e - k
  {
    var q := ItemAt(t, terms, k, e);
    if At(t, q).end < e then [q] + Items(t, terms, At(t, q).end + 1, e) else [q]
  }

  /** One step of the walk: the item at `k`, then the items from the word
      after it. */
  lemma ItemsNext(t: Item, terms: seq<seq<nat>>, k: nat, e: nat)
    requires Checkable(t, terms) && k <= e < |terms| && At(t, ItemAt(t, terms, k, e)).end < e
    ensures Items(t, terms, k, e) == [ItemAt(t, terms, k, e)] + Items(t, terms, At(t, ItemAt(t, terms, k, e)).end + 1, e)
  {
  }

  /** The last step of the walk. */
  lemma ItemsLast(t: Item, terms: seq<seq<nat>>, k: nat, e: nat)
    requires Checkable(t, terms) && k <= e < |terms| && At(t, ItemAt(t, terms, k, e)).end >= e
    ensures Items(t, terms, k, e) == [ItemAt(t, terms, k, e)]
  {
  }

  /** Items that are nodes of the tree, all ending before word `e` but the
      last, which reaches it. */
  predicate EndAt(t: Item, items: seq<seq<nat>>, e: int)
  {
    (forall i :: 0 <= i < |items| ==> ValidPath(t, items[i])) && |items| >= 1 &&
    e <= At(t, items[|items| - 1]).end &&
    forall i :: 0 <= i < |items| - 1 ==> At(t, items[i]).end < e
  }

  /** Each item reaches the word after the one before it ends. */
  predicate Gapless(t: Item, items: seq<seq<nat>>)
    requires forall i :: 0 <= i < |items| ==> ValidPath(t, items[i])
  {
    forall i :: 0 <= i < |items| - 1 ==>
      At(t, items[i + 1]).begin <= At(t, items[i]).end + 1 <= At(t, items[i + 1]).end
  }

  lemma WalkCons(t: Item, q: seq<nat>, rest: seq<seq<nat>>, e: int)
    requires ValidPath(t, q) && At(t, q).end < e && EndAt(t, rest, e) && Gapless(t, rest)
    requires At(t, rest[0]).begin <= At(t, q).end + 1 <= At(t, rest[0]).end
    ensures EndAt(t, [q] + rest, e) && Gapless(t, [q] + rest)
  {
    var items := [q] + rest;
    forall i | 0 <= i < |items|
      ensures ValidPath(t, items[i])
    {
      if i > 0 {
        assert items[i] == rest[i - 1];
      }
    }
    assert items[|items| - 1] == rest[|rest| - 1];
    forall i | 0 <= i < |items| - 1
      ensures At(t, items[i]).end < e
    {
      if i > 0 {
        assert items[i] == rest[i - 1];
      }
    }
    forall i | 0 <= i < |items| - 1
      ensures At(t, items[i + 1]).begin <= At(t, items[i]).end + 1 <= At(t, items[i + 1]).end
    {
      assert items[i + 1] == rest[i];
      if i > 0 {
        assert items[i] == rest[i - 1];
      }
    }
  }

  /** The items cover every word from `k` to `e` with no gap: the first
      covers `k` (by `ItemAt`), each next one covers the word after the one
      before, every one but the last ends before `e`, and the last reaches
      it. */
  lemma {:induction false} ItemsCover(t: Item, terms: seq<seq<nat>>, k: nat, e: nat)
    requires Checkable(t, terms) && k <= e < |terms|
    ensures EndAt(t, Items(t, terms, k, e), e) && Gapless(t, Items(t, terms, k, e))
    decreases e - k
  {
    var q := ItemAt(t, terms, k, e);
    if At(t, q).end < e {
      var next := At(t, q).end + 1;
      ItemsCover(t, terms, next, e);
      ItemsNext(t, terms, k, e);
      WalkCons(t, q, Items(t, terms, next, e), e);
    } else {
      ItemsLast(t, terms, k, e);
    }
  }

  /** The walk that collects the items, as it runs: `acc` holds the items
      collected so far. */
  function ItemsAcc(t: Item, terms: seq<seq<nat>>, k: nat, e: nat, acc: seq<seq<nat>>): seq<seq<nat>>
    requires Checkable(t, terms) && k <= e < |terms|
    decreases e - k
  {
    var q := ItemAt(t, terms, k, e);
    if At(t, q).end < e then ItemsAcc(t, terms, At(t, q).end + 1, e, acc + [q]) else acc + [q]
  }

  lemma Assoc<T>(a: seq<T>, x: T, r: seq<T>)
    ensures (a + [x]) + r == a + ([x] + r)
  {
  }

  /** The running walk collects the items. */
  lemma {:induction false} ItemsAccCollects(t: Item, terms: seq<seq<nat>>, k: nat, e: nat, acc: seq<seq<nat>>)
    requires Checkable(t, terms) && k <= e < |terms|
    ensures ItemsAcc(t, terms, k, e, acc) == acc + Items(t, terms, k, e)
    decreases e - k
  {
    var q := ItemAt(t, terms, k, e);
    if At(t, q).end < e {
      var next := At(t, q).end + 1;
      ItemsAccCollects(t, terms, next, e, acc + [q]);
      ItemsNext(t, terms, k, e);
      Assoc(acc, q, Items(t, terms, next, e));
    } else {
      ItemsLast(t, terms, k, e);
    }
  }

  /** The flattened walk, as it runs: `common` is the parent of the first
      item that has one, once it is known. */
  function FlatFrom(t: Item, terms: seq<seq<nat>>, k: nat, e: nat, common: Option<seq<nat>>): bool
    requires Checkable(t, terms) && k <= e < |terms|
    decreases e - k
  {
    var q := ItemAt(t, terms, k, e);
    var c := if common.None? then Parent(q) else common;
    if c.Some? && Parent(q) != c then false
    else if At(t, q).end < e then FlatFrom(t, terms, At(t, q).end + 1, e, c)
    else true
  }

  /** Every item has parent `c`. */
  predicate AllParent(items: seq<seq<nat>>, c: Option<seq<nat>>)
  {
    forall i :: 0 <= i < |items| ==> Parent(items[i]) == c
  }

  lemma AllParentCons(q: seq<nat>, rest: seq<seq<nat>>, c: Option<seq<nat>>)
    ensures AllParent([q] + rest, c) <==> Parent(q) == c && AllParent(rest, c)
  {
    var items := [q] + rest;
    if AllParent(items, c) {
      assert Parent(items[0]) == c;
      forall j | 0 <= j < |rest|
        ensures Parent(rest[j]) == c
      {
        assert rest[j] == items[j + 1];
      }
    }
    if Parent(q) == c && AllParent(rest, c) {
      forall i | 0 <= i < |items|
        ensures Parent(items[i]) == c
      {
        if i > 0 {
          assert items[i] == rest[i - 1];
        }
      }
    }
  }

  /** One step of the flattened walk. */
  lemma FlatNext(t: Item, terms: seq<seq<nat>>, k: nat, e: nat, common: Option<seq<nat>>)
    requires Checkable(t, terms) && k <= e < |terms|
    ensures var q := ItemAt(t, terms, k, e);
      var c := if common.None? then Parent(q) else common;
      FlatFrom(t, terms, k, e, common) ==
        (!(c.Some? && Parent(q) != c) && (At(t, q).end < e ==> FlatFrom(t, terms, At(t, q).end + 1, e, c)))
  {
  }

  /** From word `k` on, with the parent `c` known, the walk passes when
      every item has parent `c`. */
  lemma {:induction false} FlatFromKnown(t: Item, terms: seq<seq<nat>>, k: nat, e: nat, c: seq<nat>)
    requires Checkable(t, terms) && k <= e < |terms|
    ensures FlatFrom(t, terms, k, e, Some(c)) == AllParent(Items(t, terms, k, e), Some(c))
    decreases e - k
  {
    var q := ItemAt(t, terms, k, e);
    FlatNext(t, terms, k, e, Some(c));
    if At(t, q).end < e {
      var next := At(t, q).end + 1;
      FlatFromKnown(t, terms, next, e, c);
      ItemsNext(t, terms, k, e);
      AllParentCons(q, Items(t, terms, next, e), Some(c));
    } else {
      ItemsLast(t, terms, k, e);
      AllParentCons(q, [], Some(c));
    }
  }

  /** The flattened walk passes exactly when all items share a parent. */
  lemma FlatFromShared(t: Item, terms: seq<seq<nat>>, b: nat, e: nat)
    requires Checkable(t, terms) && b <= e < |terms|
    ensures FlatFrom(t, terms, b, e, None) == SharedParent(Items(t, terms, b, e))
  {
    var q := ItemAt(t, terms, b, e);
    FlatNext(t, terms, b, e, None);
    if At(t, q).end < e {
      assert q != [] by {
        assert At(t, []) == t;
      }
      var next := At(t, q).end + 1;
      var rest := Items(t, terms, next, e);
      FlatFromKnown(t, terms, next, e, q[..|q| - 1]);
      assert Parent(q) == Some(q[..|q| - 1]);
      ItemsNext(t, terms, b, e);
      AllParentCons(q, rest, Parent(q));
      assert FlatFrom(t, terms, b, e, None) == FlatFrom(t, terms, next, e, Parent(q));
      assert Items(t, terms, b, e) == [q] + rest;
    } else {
      ItemsLast(t, terms, b, e);
      assert AllParent([q], Parent(q));
    }
  }

  /** The root can only be an item on its own: it reaches the last word. */
  lemma RootItemAlone(t: Item, terms: seq<seq<nat>>, k: nat, e: nat)
    requires Checkable(t, terms) && k <= e < |terms|
    ensures Items(t, terms, k, e)[0] == [] ==> |Items(t, terms, k, e)| == 1
  {
  }

  /** The flattened test: every item has the same parent. */
  predicate SharedParent(items: seq<seq<nat>>)
  {
    items == [] || AllParent(items, Parent(items[0]))
  }

  // ---------------------------------------------------------------
  // The dependency test

  /** An item is the head of its parent. */
  predicate IsHeadItem(t: Item, q: seq<nat>)
    requires ValidPath(t, q) && q != []
  {
    PrefixValid(t, q, |q| - 1);
    At(t, q[..|q| - 1]).headIndex == At(t, q).brother
  }

  /** Items are paths below the root. */
  predicate Below(t: Item, items: seq<seq<nat>>)
  {
    forall i :: 0 <= i < |items| ==> items[i] != [] && ValidPath(t, items[i])
  }

  /** The positions, among the first `n` items, of the head items. */
  function Heads(t: Item, items: seq<seq<nat>>, n: nat): (hs: seq<nat>)
    requires n <= |items| && Below(t, items)
    ensures |hs| <= n && forall i :: 0 <= i < |hs| ==> hs[i] < n
  {
    if n == 0 then []
    else if IsHeadItem(t, items[n - 1]) then Heads(t, items, n - 1) + [n - 1]
    else Heads(t, items, n - 1)
  }

  /** The heads are exactly the head items among the first `n`, in
      increasing order. */
  lemma {:induction false} HeadsExact(t: Item, items: seq<seq<nat>>, n: nat)
    requires n <= |items| && Below(t, items)
    ensures forall i :: 0 <= i < |Heads(t, items, n)| ==>
      Heads(t, items, n)[i] < n && IsHeadItem(t, items[Heads(t, items, n)[i]])
    ensures forall i :: 0 <= i < n && IsHeadItem(t, items[i]) ==> i in Heads(t, items, n)
    ensures forall i, j :: 0 <= i < j < |Heads(t, items, n)| ==> Heads(t, items, n)[i] < Heads(t, items, n)[j]
  {
    if n > 0 {
      HeadsExact(t, items, n - 1);
    }
  }

  /** When the `h`-th item is the one head, no other item is a head. */
  lemma OnlyHead(t: Item, items: seq<seq<nat>>, h: nat, i: nat)
    requires Below(t, items) && i < |items| && i != h && Heads(t, items, |items|) == [h]
    ensures !IsHeadItem(t, items[i])
  {
    HeadsExact(t, items, |items|);
  }

  /** One more item: its position joins the heads when it is a head. */
  lemma HeadsStep(t: Item, items: seq<seq<nat>>, i: nat)
    requires i < |items| && Below(t, items)
    ensures Heads(t, items, i + 1) == if IsHeadItem(t, items[i]) then Heads(t, items, i) + [i] else Heads(t, items, i)
  {
  }

  /** Each item has the dependency head of the one before it. */
  predicate ChainedDeps(t: Item, items: seq<seq<nat>>)
    requires Below(t, items)
  {
    forall i :: 1 <= i < |items| ==> At(t, items[i]).depHead == At(t, items[i - 1]).depHead
  }

  /** Looking at more items finds at least the same heads. */
  lemma {:induction false} HeadsGrow(t: Item, items: seq<seq<nat>>, m: nat, n: nat)
    requires m <= n <= |items| && Below(t, items)
    ensures |Heads(t, items, m)| <= |Heads(t, items, n)|
    decreases n - m
  {
    if m < n {
      HeadsGrow(t, items, m, n - 1);
    }
  }

  /** Every item has the same dependency head. */
  predicate SameDeps(t: Item, items: seq<seq<nat>>)
    requires Below(t, items)
  {
    forall i :: 0 <= i < |items| ==> At(t, items[i]).depHead == At(t, items[0]).depHead
  }

  /** Comparing neighbours is comparing with the first. */
  lemma {:induction false} ChainedIsSame(t: Item, items: seq<seq<nat>>)
    requires Below(t, items)
    ensures ChainedDeps(t, items) <==> SameDeps(t, items)
  {
    if ChainedDeps(t, items) {
      var i := 0;
      while i < |items|
        invariant 0 <= i <= |items|
        invariant forall j :: 0 <= j < i ==> At(t, items[j]).depHead == At(t, items[0]).depHead
      {
        if i > 0 {
          assert At(t, items[i]).depHead == At(t, items[i - 1]).depHead;
        }
        i := i + 1;
      }
    }
  }

  /** Every item but the `h`-th depends on the `h`-th's head word. */
  predicate DependOn(t: Item, items: seq<seq<nat>>, h: nat)
    requires Below(t, items) && h < |items|
  {
    forall i :: 0 <= i < |items| && i != h ==> At(t, items[i]).depHead == At(t, items[h]).headWord
  }

  /** The dependency test on the items: one item passes; otherwise either
      no item is a head and all share one dependency head, or exactly one
      is and every other depends on its head word. */
  predicate FixFloat(t: Item, items: seq<seq<nat>>)
    requires |items| > 1 ==> Below(t, items)
  {
    |items| == 1 ||
    (|items| > 1 &&
     ((|Heads(t, items, |items|)| == 0 && SameDeps(t, items)) ||
      (|Heads(t, items, |items|)| == 1 && DependOn(t, items, Heads(t, items, |items|)[0]))))
  }

  // ---------------------------------------------------------------
  // The whole sentence

  /** Every ancestor of a node that starts where the root starts, and below
      a root that ends by `e`, is climbed: the climb reaches the root. */
  lemma {:induction false} ClimbToRoot(t: Item, p: seq<nat>, e: int)
    requires WellSpanned(t) && ValidPath(t, p) && At(t, p).begin == t.begin && t.end <= e
    ensures Climb(t, p, e) == []
    decreases |p|
  {
    if p != [] {
      PrefixValid(t, p, |p| - 1);
      var up := p[..|p| - 1];
      assert IsPrefix(up, p);
      InsideAncestor(t, up, p);
      InsideAncestor(t, [], up);
      ClimbToRoot(t, up, e);
    }
  }

  /** The span of the whole sentence is the root alone, so it passes both
      tests. */
  lemma WholeSentence(t: Item, terms: seq<seq<nat>>)
    requires Checkable(t, terms) && |terms| >= 1
    ensures Items(t, terms, 0, |terms| - 1) == [[]]
    ensures SharedParent(Items(t, terms, 0, |terms| - 1)) && FixFloat(t, Items(t, terms, 0, |terms| - 1))
  {
    var up := terms[0][..|terms[0]| - 1];
    PrefixValid(t, terms[0], |terms[0]| - 1);
    assert IsPrefix(up, terms[0]);
    InsideAncestor(t, up, terms[0]);
    InsideAncestor(t, [], up);
    ClimbToRoot(t, up, |terms| - 1);
  }

  // ---------------------------------------------------------------
  // The constraint table

  /** The first cell of row `i` of the table of pairs i < j over `n`
      words: the rows before it hold n - 1, n - 2, ... cells. */
  function RowStart(n: int, i: nat): int
  {
    if i == 0 then 0 else RowStart(n, i - 1) + (n - i)
  }

  lemma {:induction false} RowStartClosed(n: int, i: nat)
    ensures 2 * RowStart(n, i) == (2 * n - 1) * i - i * i
  {
    if i > 0 {
      RowStartClosed(n, i - 1);
    }
  }

  lemma {:induction false} RowStartGrows(n: int, i: nat, i': nat)
    requires i <= i' <= n
    ensures RowStart(n, i) <= RowStart(n, i')
    decreases i' - i
  {
    if i < i' {
      RowStartGrows(n, i, i' - 1);
    }
  }

  lemma TableSize(n: nat)
    ensures n * (n - 1) / 2 == RowStart(n, n)
  {
    RowStartClosed(n, n);
    assert (2 * n - 1) * n - n * n == n * (n - 1);
  }

  /** The cell of the pair (i, j) in the table of `n` words: row `i` holds
      the pairs (i, i + 1) to (i, n - 1), so every cell lies inside the
      table of RowStart(n, n), that is n(n-1)/2, cells. */
  function Offset(n: int, i: int, j: int): (off: int)
    requires 0 <= i < j < n
    ensures off == RowStart(n, i) + j - i - 1
    ensures 0 <= off < RowStart(n, n)
  {
    RowStartClosed(n, i);
    RowStartGrows(n, 0, i);
    RowStartGrows(n, i + 1, n);
    ((2 * n - 1) * i - i * i) / 2 + j - i - 1
  }

  /** The rows before row `i` lie before its first cell. */
  lemma RowsBefore(n: int, i: int)
    requires 0 <= i < n
    ensures forall i', j' :: 0 <= i' < i && i' < j' < n ==> Offset(n, i', j') < RowStart(n, i)
  {
    forall i', j' | 0 <= i' < i && i' < j' < n
      ensures Offset(n, i', j') < RowStart(n, i)
    {
      RowStartGrows(n, i' + 1, i);
    }
  }

  lemma OffsetInjective(n: int, i: int, j: int, i': int, j': int)
    requires 0 <= i < j < n && 0 <= i' < j' < n
    requires Offset(n, i, j) == Offset(n, i', j')
    ensures i == i' && j == j'
  {
    if i < i' {
      RowStartGrows(n, i + 1, i');
    } else if i' < i {
      RowStartGrows(n, i' + 1, i);
    }
  }
}
