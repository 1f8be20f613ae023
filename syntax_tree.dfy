/** Parse trees built from the bracket tokens. A node is a value holding
    its children; a pointer to a node is the path of child indices that
    leads to it from the root, so a node's parent is the path without its
    last index and the root has none. */
module SyntaxTree {
  import opened Wrappers
  import opened SyntaxReader

  /** A node: its label or word, its children, and the fields the span
      and head passes fill in (-1 until then). */
  datatype Item = Item(term: string, kids: seq<Item>, begin: int, end: int,
                       headIndex: int, brother: int, depHead: int, headWord: int)

  function NewItem(term: string): Item
  {
    Item(term, [], -1, -1, -1, -1, -1, -1)
  }

  /** Every child records its position among its brothers. */
  predicate BrothersNumbered(it: Item)
  {
    forall i :: 0 <= i < |it.kids| ==> it.kids[i].brother == i
  }

  /** Adding a child: it goes last, learns its position, and the position
      is returned. */
  function Append(parent: Item, child: Item): (r: (Item, nat))
    ensures r.1 == |parent.kids| && |r.0.kids| == r.1 + 1
    ensures r.0.kids[..r.1] == parent.kids && r.0.kids[r.1] == child.(brother := r.1)
    ensures r.0.(kids := parent.kids) == parent
  {
    var idx := |parent.kids|;
    (parent.(kids := parent.kids + [child.(brother := idx)]), idx)
  }

  /** Appending keeps the children numbered. */
  lemma AppendNumbered(parent: Item, child: Item)
    requires BrothersNumbered(parent)
    ensures BrothersNumbered(Append(parent, child).0)
  {
  }

  /** A node with children that are all leaves. */
  predicate IsPreTerminal(it: Item)
  {
    |it.kids| > 0 && LeavesFrom(it.kids, 0)
  }

  /** The scan over the children from index `i`: false at the first child
      that has children of its own. */
  function LeavesFrom(kids: seq<Item>, i: nat): (r: bool)
    ensures r <==> forall j :: i <= j < |kids| ==> kids[j].kids == []
    decreases |kids| - i
  {
    if i >= |kids| then true
    else if kids[i].kids != [] then false
    else LeavesFrom(kids, i + 1)
  }

  /** A pre-terminal has at least one child, and every child is a leaf. */
  lemma PreTerminalMeans(it: Item)
    ensures IsPreTerminal(it) <==> |it.kids| > 0 && forall j :: 0 <= j < |it.kids| ==> it.kids[j].kids == []
  {
  }

  // ---------------------------------------------------------------
  // Paths

  predicate ValidPath(t: Item, p: seq<nat>)
    decreases |p|
  {
    p == [] || (p[0] < |t.kids| && ValidPath(t.kids[p[0]], p[1..]))
  }

  /** The node a path leads to. */
  function At(t: Item, p: seq<nat>): Item
    requires ValidPath(t, p)
    decreases |p|
  {
    if p == [] then t else At(t.kids[p[0]], p[1..])
  }

  predicate IsPrefix(q: seq<nat>, p: seq<nat>)
  {
    |q| <= |p| && p[..|q|] == q
  }

  function Parent(p: seq<nat>): Option<seq<nat>>
  {
    if p == [] then None else Some(p[..|p| - 1])
  }

  /** `fnAppend` on the node a path leads to; the path is valid wherever
      it is used (the construction invariant below). */
  function AppendAt(t: Item, p: seq<nat>, child: Item): (r: (Item, nat))
    decreases |p|
  {
    if p == [] then Append(t, child)
    else if p[0] < |t.kids| then
      var sub := AppendAt(t.kids[p[0]], p[1..], child);
      (t.(kids := t.kids[p[0] := sub.0]), sub.1)
    else (t, 0)
  }

  /** The head word index set on the node a path leads to. */
  function SetHeadWordAt(t: Item, p: seq<nat>, k: int): Item
    decreases |p|
  {
    if p == [] then t.(headWord := k)
    else if p[0] < |t.kids| then t.(kids := t.kids[p[0] := SetHeadWordAt(t.kids[p[0]], p[1..], k)])
    else t
  }

  /** After appending under `p`: the new child is at `p` extended with its
      position, which is the old number of children there. */
  lemma {:induction false} AppendAtNew(t: Item, p: seq<nat>, child: Item)
    requires ValidPath(t, p)
    ensures var r := AppendAt(t, p, child);
      r.1 == |At(t, p).kids| && ValidPath(r.0, p + [r.1]) && At(r.0, p + [r.1]) == child.(brother := r.1)
    decreases |p|
  {
    var r := AppendAt(t, p, child);
    if p == [] {
      assert ValidPath(r.0.kids[r.1], []);
    } else {
      AppendAtNew(t.kids[p[0]], p[1..], child);
      assert (p + [r.1])[1..] == p[1..] + [r.1];
    }
  }

  /** After appending under `p`: every path stays valid, and a node that
      is not `p` or one of its ancestors is unchanged. */
  lemma {:induction false} AppendAtOther(t: Item, p: seq<nat>, child: Item, q: seq<nat>)
    requires ValidPath(t, p) && ValidPath(t, q)
    ensures var r := AppendAt(t, p, child);
      ValidPath(r.0, q) && (!IsPrefix(q, p) ==> At(r.0, q) == At(t, q))
    decreases |p|
  {
    var r := AppendAt(t, p, child);
    if p == [] {
      if q != [] {
        assert r.0.kids[q[0]] == t.kids[q[0]];
      }
    } else if q != [] {
      if q[0] == p[0] {
        AppendAtOther(t.kids[p[0]], p[1..], child, q[1..]);
        if !IsPrefix(q, p) {
          assert !IsPrefix(q[1..], p[1..]);
        }
      } else {
        assert r.0.kids[q[0]] == t.kids[q[0]];
      }
    }
  }

  /** Setting the head word at `p` changes that node's field and nothing
      off the path to it. */
  lemma {:induction false} SetHeadWordAtOther(t: Item, p: seq<nat>, k: int, q: seq<nat>)
    requires ValidPath(t, p) && ValidPath(t, q)
    ensures var t' := SetHeadWordAt(t, p, k);
      ValidPath(t', q) && |At(t', q).kids| == |At(t, q).kids| &&
      (q == p ==> At(t', q) == At(t, q).(headWord := k)) &&
      (!IsPrefix(q, p) ==> At(t', q) == At(t, q))
    decreases |p|
  {
    var t' := SetHeadWordAt(t, p, k);
    if p != [] && q != [] {
      if q[0] == p[0] {
        SetHeadWordAtOther(t.kids[p[0]], p[1..], k, q[1..]);
        if !IsPrefix(q, p) {
          assert !IsPrefix(q[1..], p[1..]);
        }
        if q == p {
          assert q[1..] == p[1..];
        }
      } else {
        assert t'.kids[q[0]] == t.kids[q[0]];
      }
    }
  }

  /** A path leading to a leaf is a prefix of no other valid path. */
  lemma {:induction false} LeafPrefix(t: Item, q: seq<nat>, p: seq<nat>)
    requires ValidPath(t, q) && ValidPath(t, p) && At(t, q).kids == [] && IsPrefix(q, p)
    ensures q == p
    decreases |q|
  {
    if q != [] {
      assert p[0] == q[0];
      LeafPrefix(t.kids[q[0]], q[1..], p[1..]);
    }
  }

  // ---------------------------------------------------------------
  // Construction

  /** A token that opens or closes a bracket. */
  predicate IsBracket(s: string)
  {
    s == Open || s == Close
  }

  /** Token `i` is a word: neither it nor the token before it is a
      bracket. */
  predicate IsTerminalAt(vec: seq<string>, i: nat)
    requires 1 <= i < |vec|
  {
    !IsBracket(vec[i]) && !IsBracket(vec[i - 1])
  }

  /** The words among tokens `lo` .. `hi - 1`, in order. */
  function TerminalWords(vec: seq<string>, lo: nat, hi: nat): (ws: seq<string>)
    requires 1 <= lo && hi <= |vec|
    decreases hi - lo
  {
    if hi <= lo then []
    else TerminalWords(vec, lo, hi - 1) + (if IsTerminalAt(vec, hi - 1) then [vec[hi - 1]] else [])
  }

  /** The state of the construction loop: the tree so far, the current
      node (none once the root has been closed), the words found so far,
      and the bracket counts. */
  datatype Builder = Builder(root: Item, cur: Option<seq<nat>>, terminals: seq<seq<nat>>, left: nat, right: nat)

  /** A parse: the root and the paths of the words, in order. */
  datatype Parse = Parse(root: Item, terminals: seq<seq<nat>>)

  /** How the construction ends: a parse, a null tree, or a word arriving
      with no current node (the source then dereferences a null pointer). */
  datatype Outcome = Built(parse: Parse) | NullTree | Undefined

  function Start(vec: seq<string>): Builder
    requires |vec| >= 2
  {
    Builder(NewItem(vec[1]), Some([]), [], 1, 1)
  }

  /** One token: "(" is counted; ")" is counted and moves to the parent,
      or gives the null tree if there is no current node; any other token
      becomes a new child of the current node, which becomes current
      unless the token is a word. */
  function Step(vec: seq<string>, i: nat, b: Builder): Outcome
    requires 2 <= i < |vec|
  {
    if vec[i] == Open then Built(Parse(b.root, b.terminals))
    else if vec[i] == Close then
      if b.cur.None? then NullTree else Built(Parse(b.root, b.terminals))
    else if b.cur.None? then Undefined
    else Built(Parse(b.root, b.terminals))
  }

  function Next(vec: seq<string>, i: nat, b: Builder): Builder
    requires 2 <= i < |vec|
    requires vec[i] == Open || b.cur.Some?
  {
    if vec[i] == Open then b.(left := b.left + 1)
    else if vec[i] == Close then b.(right := b.right + 1, cur := Parent(b.cur.value))
    else
      var r := AppendAt(b.root, b.cur.value, NewItem(vec[i]));
      var path := b.cur.value + [r.1];
      if IsTerminalAt(vec, i) then b.(root := r.0, terminals := b.terminals + [path])
      else b.(root := r.0, cur := Some(path))
  }

  /** The loop over tokens 2 .. |vec| - 2 from token `i` on, then the
      bracket check and the numbering of the words. */
  function Run(vec: seq<string>, i: nat, b: Builder): Outcome
    requires 2 <= i && |vec| >= 2
    decreases |vec| - i
  {
    if i >= |vec| - 1 then Finish(b)
    else if Step(vec, i, b).Built? then Run(vec, i + 1, Next(vec, i, b))
    else Step(vec, i, b)
  }

  function Finish(b: Builder): Outcome
  {
    if b.left != b.right then NullTree
    else Built(Parse(Numbered(b.root, b.terminals, |b.terminals|), b.terminals))
  }

  /** Words 0 .. n-1 numbered with their positions. */
  function Numbered(root: Item, terminals: seq<seq<nat>>, n: nat): Item
    requires n <= |terminals|
  {
    if n == 0 then root
    else SetHeadWordAt(Numbered(root, terminals, n - 1), terminals[n - 1], n - 1)
  }

  lemma RunStep(vec: seq<string>, i: nat, b: Builder)
    requires 2 <= i < |vec| - 1
    ensures Step(vec, i, b).Built? ==> Run(vec, i, b) == Run(vec, i + 1, Next(vec, i, b))
    ensures Step(vec, i, b).NullTree? ==> Run(vec, i, b) == NullTree
  {
  }

  function Convert(vec: seq<string>): Outcome
    requires |vec| >= 2
  {
    Run(vec, 2, Start(vec))
  }

  /** `fnConvertFromString` on the tokens of a line. */
  method ConvertFromString(vec: seq<string>) returns (r: Option<Parse>)
    requires |vec| >= 2 && Convert(vec) != Undefined
    ensures r.Some? <==> Convert(vec).Built?
    ensures r.Some? ==> r.value == Convert(vec).parse
    ensures r.Some? ==> WordsNumbered(vec, r.value) && Occurrences(vec, Open, 2) == Occurrences(vec, Close, 2)
  {
    ConvertWords(vec);
    ConvertBalanced(vec);
    var left, right := 1, 1;
    var root := NewItem(vec[1]);
    var cur: Option<seq<nat>> := Some([]);
    var terminals: seq<seq<nat>> := [];
    var i := 2;
    while i < |vec| - 1
      invariant 2 <= i
      invariant Convert(vec) == Run(vec, i, Builder(root, cur, terminals, left, right))
    {
      ghost var b := Builder(root, cur, terminals, left, right);
      RunStep(vec, i, b);
      if vec[i] == Open {
        left := left + 1;
      } else if vec[i] == Close {
        right := right + 1;
        if cur.None? {
          return None;
        }
        cur := Parent(cur.value);
      } else {
        var added := AppendAt(root, cur.value, NewItem(vec[i]));
        root := added.0;
        var path := cur.value + [added.1];
        if !IsBracket(vec[i - 1]) {
          terminals := terminals + [path];
        } else {
          cur := Some(path);
        }
      }
      assert Builder(root, cur, terminals, left, right) == Next(vec, i, b);
      i := i + 1;
    }
    if left != right {
      return None;
    }
    var numbered := root;
    for k := 0 to |terminals|
      invariant numbered == Numbered(root, terminals, k)
    {
      numbered := SetHeadWordAt(numbered, terminals[k], k);
    }
    r := Some(Parse(numbered, terminals));
  }

  // ---------------------------------------------------------------
  // What the construction promises

  /** The number of copies of `tok` among tokens `i` .. |vec| - 2, the
      ones the loop reads. */
  function Occurrences(vec: seq<string>, tok: string, i: nat): nat
    decreases |vec| - i
  {
    if i + 1 >= |vec| then 0 else (if vec[i] == tok then 1 else 0) + Occurrences(vec, tok, i + 1)
  }

  lemma {:induction false} RunCounts(vec: seq<string>, i: nat, b: Builder)
    requires 2 <= i && |vec| >= 2
    ensures Run(vec, i, b).Built? ==> b.left + Occurrences(vec, Open, i) == b.right + Occurrences(vec, Close, i)
    decreases |vec| - i
  {
    if i < |vec| - 1 && Step(vec, i, b).Built? {
      RunCounts(vec, i + 1, Next(vec, i, b));
    }
  }

  /** A tree is built only when the loop met as many "(" as ")": with more
      of either, the result is the null tree (or undefined). */
  lemma ConvertBalanced(vec: seq<string>)
    requires |vec| >= 2
    ensures Convert(vec).Built? ==> Occurrences(vec, Open, 2) == Occurrences(vec, Close, 2)
  {
    RunCounts(vec, 2, Start(vec));
  }

  /** Every node's children record their positions. */
  predicate AllNumbered(t: Item)
    decreases t
  {
    BrothersNumbered(t) && forall i :: 0 <= i < |t.kids| ==> AllNumbered(t.kids[i])
  }

  lemma {:induction false} AppendAtNumbered(t: Item, p: seq<nat>, child: Item)
    requires AllNumbered(t) && AllNumbered(child)
    ensures AllNumbered(AppendAt(t, p, child).0) && AppendAt(t, p, child).0.brother == t.brother
    ensures AppendAt(t, p, child).0.term == t.term
    decreases |p|
  {
    if p == [] {
      var r := Append(t, child);
      assert forall i :: 0 <= i < |r.0.kids| - 1 ==> r.0.kids[i] == t.kids[i];
      assert AllNumbered(r.0.kids[r.1]);
    } else if p[0] < |t.kids| {
      AppendAtNumbered(t.kids[p[0]], p[1..], child);
    }
  }

  lemma {:induction false} SetHeadWordAtNumbered(t: Item, p: seq<nat>, k: int)
    requires AllNumbered(t)
    ensures AllNumbered(SetHeadWordAt(t, p, k)) && SetHeadWordAt(t, p, k).brother == t.brother
    ensures SetHeadWordAt(t, p, k).term == t.term
    decreases |p|
  {
    if p != [] && p[0] < |t.kids| {
      SetHeadWordAtNumbered(t.kids[p[0]], p[1..], k);
    }
  }

  lemma PrefixValid(t: Item, p: seq<nat>, n: nat)
    requires ValidPath(t, p) && n <= |p|
    ensures ValidPath(t, p[..n])
    decreases |p|
  {
    if n > 0 {
      PrefixValid(t.kids[p[0]], p[1..], n - 1);
      assert p[..n][1..] == p[1..][..n - 1];
    }
  }

  /** A path one step longer is valid only through an existing child. */
  lemma {:induction false} ExtendValid(t: Item, p: seq<nat>, x: nat)
    requires ValidPath(t, p + [x])
    ensures ValidPath(t, p) && x < |At(t, p).kids|
    decreases |p|
  {
    if p != [] {
      assert (p + [x])[1..] == p[1..] + [x];
      ExtendValid(t.kids[p[0]], p[1..], x);
    } else {
      assert (p + [x])[1..] == [];
    }
  }

  lemma PrefixOfExtend(q: seq<nat>, p: seq<nat>, x: nat)
    requires IsPrefix(q, p + [x])
    ensures q == p + [x] || IsPrefix(q, p)
  {
    if |q| <= |p| {
      assert (p + [x])[..|q|] == p[..|q|];
    }
  }

  /** Word `k` found so far: a leaf holding the word, off the path to the
      current node. */
  predicate TerminalOk(b: Builder, k: nat, w: string)
    requires k < |b.terminals|
  {
    ValidPath(b.root, b.terminals[k]) && At(b.root, b.terminals[k]).kids == [] &&
    At(b.root, b.terminals[k]).term == w &&
    (b.cur.Some? ==> !IsPrefix(b.terminals[k], b.cur.value))
  }

  /** The construction invariant before token `i`. */
  predicate Inv(vec: seq<string>, i: nat, b: Builder)
    requires 2 <= i <= |vec|
  {
    var words := TerminalWords(vec, 2, i);
    b.root.term == vec[1] && AllNumbered(b.root) &&
    (b.cur.Some? ==> ValidPath(b.root, b.cur.value)) &&
    |b.terminals| == |words| &&
    (forall k :: 0 <= k < |b.terminals| ==> TerminalOk(b, k, words[k])) &&
    (forall k, l :: 0 <= k < l < |b.terminals| ==> b.terminals[k] != b.terminals[l])
  }

  lemma StepBracket(vec: seq<string>, i: nat, b: Builder)
    requires 2 <= i < |vec| - 1 && Inv(vec, i, b) && Step(vec, i, b).Built? && IsBracket(vec[i])
    ensures Inv(vec, i + 1, Next(vec, i, b))
  {
    var b' := Next(vec, i, b);
    assert TerminalWords(vec, 2, i + 1) == TerminalWords(vec, 2, i) + [];
    if vec[i] == Close {
      var c := b.cur.value;
      if c != [] {
        PrefixValid(b.root, c, |c| - 1);
      }
    }
  }

  lemma StepWord(vec: seq<string>, i: nat, b: Builder)
    requires 2 <= i < |vec| - 1 && Inv(vec, i, b) && Step(vec, i, b).Built? && !IsBracket(vec[i])
    ensures Inv(vec, i + 1, Next(vec, i, b))
  {
    var c := b.cur.value;
    var child := NewItem(vec[i]);
    var r := AppendAt(b.root, c, child);
    var np := c + [r.1];
    var words := TerminalWords(vec, 2, i);
    AppendAtNew(b.root, c, child);
    AppendAtNumbered(b.root, c, child);
    AppendAtOther(b.root, c, child, c);
    forall k | 0 <= k < |b.terminals|
      ensures ValidPath(b.root, b.terminals[k]) && ValidPath(r.0, b.terminals[k]) && At(r.0, b.terminals[k]) == At(b.root, b.terminals[k])
      ensures b.terminals[k] != np && !IsPrefix(b.terminals[k], np)
    {
      assert TerminalOk(b, k, words[k]);
      var q := b.terminals[k];
      AppendAtOther(b.root, c, child, q);
      if q == np {
        ExtendValid(b.root, c, r.1);
      }
      if IsPrefix(q, np) {
        PrefixOfExtend(q, c, r.1);
      }
    }
    if IsTerminalAt(vec, i) {
      assert TerminalWords(vec, 2, i + 1) == words + [vec[i]];
      assert !IsPrefix(np, c);
    } else {
      assert TerminalWords(vec, 2, i + 1) == words + [];
    }
  }

  lemma {:induction false} RunWords(vec: seq<string>, i: nat, b: Builder)
    requires 2 <= i <= |vec| && (i < |vec| || |vec| == 2) && Inv(vec, i, b)
    ensures Run(vec, i, b).Built? ==> WordsNumbered(vec, Run(vec, i, b).parse)
    decreases |vec| - i
  {
    if i < |vec| - 1 {
      if Step(vec, i, b).Built? {
        if IsBracket(vec[i]) {
          StepBracket(vec, i, b);
        } else {
          StepWord(vec, i, b);
        }
        RunWords(vec, i + 1, Next(vec, i, b));
      }
    } else if b.left == b.right {
      var words := TerminalWords(vec, 2, i);
      var n := |b.terminals|;
      forall k | 0 <= k < n
        ensures ValidPath(b.root, b.terminals[k]) && At(b.root, b.terminals[k]).kids == []
      {
        assert TerminalOk(b, k, words[k]);
      }
      NumberedLeaves(b.root, b.terminals, n);
      NumberedRoot(b.root, b.terminals, n);
      forall k | 0 <= k < n
        ensures At(Numbered(b.root, b.terminals, n), b.terminals[k]).term == words[k]
      {
        assert TerminalOk(b, k, words[k]);
      }
    }
  }

  /** The words of a parse: word k is a leaf holding the k-th word token,
      with head word index k; the root carries the first label and every
      node's children record their positions. */
  predicate WordsNumbered(vec: seq<string>, p: Parse)
    requires |vec| >= 2
  {
    var words := TerminalWords(vec, 2, |vec| - 1);
    p.root.term == vec[1] && AllNumbered(p.root) &&
    |p.terminals| == |words| &&
    forall k :: 0 <= k < |words| ==>
      ValidPath(p.root, p.terminals[k]) && At(p.root, p.terminals[k]).kids == [] &&
      At(p.root, p.terminals[k]).term == words[k] && At(p.root, p.terminals[k]).headWord == k
  }

  /** Numbering sets the head word index of word k to k and changes
      nothing else at the words. */
  lemma {:induction false} NumberedLeaves(root: Item, terminals: seq<seq<nat>>, n: nat)
    requires n <= |terminals|
    requires forall k :: 0 <= k < |terminals| ==> ValidPath(root, terminals[k]) && At(root, terminals[k]).kids == []
    requires forall k, l :: 0 <= k < l < |terminals| ==> terminals[k] != terminals[l]
    ensures forall k :: 0 <= k < |terminals| ==> ValidPath(Numbered(root, terminals, n), terminals[k])
    ensures forall k :: 0 <= k < |terminals| ==>
      At(Numbered(root, terminals, n), terminals[k]) == At(root, terminals[k]).(headWord := if k < n then k else At(root, terminals[k]).headWord)
  {
    if n > 0 {
      NumberedLeaves(root, terminals, n - 1);
      var prev := Numbered(root, terminals, n - 1);
      var p := terminals[n - 1];
      forall k | 0 <= k < |terminals|
        ensures ValidPath(Numbered(root, terminals, n), terminals[k])
        ensures At(Numbered(root, terminals, n), terminals[k]) == At(root, terminals[k]).(headWord := if k < n then k else At(root, terminals[k]).headWord)
      {
        var q := terminals[k];
        SetHeadWordAtOther(prev, p, n - 1, q);
        if k != n - 1 && IsPrefix(q, p) {
          LeafPrefix(prev, q, p);
        }
      }
    }
  }

  lemma {:induction false} NumberedRoot(root: Item, terminals: seq<seq<nat>>, n: nat)
    requires n <= |terminals| && AllNumbered(root)
    ensures AllNumbered(Numbered(root, terminals, n)) && Numbered(root, terminals, n).term == root.term
  {
    if n > 0 {
      NumberedRoot(root, terminals, n - 1);
      SetHeadWordAtNumbered(Numbered(root, terminals, n - 1), terminals[n - 1], n - 1);
    }
  }

  /** What a built tree promises: see WordsNumbered. */
  lemma ConvertWords(vec: seq<string>)
    requires |vec| >= 2
    ensures Convert(vec).Built? ==> WordsNumbered(vec, Convert(vec).parse)
  {
    assert TerminalWords(vec, 2, 2) == [];
    RunWords(vec, 2, Start(vec));
  }
}
