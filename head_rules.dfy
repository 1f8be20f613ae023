/** Head-child selection by head rules. A node's label selects a list of
    groups; each group has a direction ('0': search the children right to
    left, '1': left to right) and a set of labels. The first group that
    matches a child decides, and a bare trailing "0" or "1" gives the last
    or the first child. The list is written as one string of tokens (a
    group is its direction glued to its first label, followed by its other
    labels) and read back by a scanner. */
module HeadRules {
  import opened Wrappers

  /** The search direction of a group, written '0' (right to left) or
      '1' (left to right). */
  datatype Direction = RightToLeft | LeftToRight

  function DirChar(d: Direction): (c: char)
    ensures IsDirection(c)
  {
    if d == RightToLeft then '0' else '1'
  }

  /** A label inside a list: not empty and not starting with a direction,
      so it never ends a group. */
  type Label = s: string | s != [] && !IsDirection(s[0]) witness "A"

  /** A token: not empty. */
  type Token = s: string | s != [] witness "0"

  datatype Group = Group(dir: Direction, first: Label, rest: seq<Label>)

  /** The head list of one label: its groups, the bare final token, and
      any tokens after it (never read). */
  datatype HeadList = HeadList(groups: seq<Group>, last: Direction, trailing: seq<Token>)

  function Labels(g: Group): seq<string>
  {
    [g.first] + g.rest
  }

  /** The head lists for the Chinese treebank labels; any other label gets
      the bare list "0". */
  function Table(tag: string): HeadList
  {
    match tag
    case "ADJP" => HeadList([Group(RightToLeft, "ADJP", ["JJ"]), Group(RightToLeft, "AD", ["NN", "CS"])], RightToLeft, [])
    case "ADVP" => HeadList([Group(RightToLeft, "ADVP", ["AD"])], RightToLeft, [])
    case "CLP" => HeadList([Group(RightToLeft, "CLP", ["M"])], RightToLeft, [])
    case "CP" => HeadList([Group(RightToLeft, "DEC", ["SP"]), Group(LeftToRight, "ADVP", ["CS"]), Group(RightToLeft, "CP", ["IP"])], RightToLeft, [])
    case "DNP" => HeadList([Group(RightToLeft, "DNP", ["DEG"]), Group(RightToLeft, "DEC", [])], RightToLeft, [])
    case "DVP" => HeadList([Group(RightToLeft, "DVP", ["DEV"])], RightToLeft, [])
    case "DP" => HeadList([Group(LeftToRight, "DP", ["DT"])], LeftToRight, [])
    case "FRAG" => HeadList([Group(RightToLeft, "VV", ["NR", "NN"])], RightToLeft, [])
    case "INTJ" => HeadList([Group(RightToLeft, "INTJ", ["IJ"])], RightToLeft, [])
    case "LST" => HeadList([Group(LeftToRight, "LST", ["CD", "OD"])], LeftToRight, [])
    case "IP" => HeadList([Group(RightToLeft, "IP", ["VP"]), Group(RightToLeft, "VV", [])], RightToLeft, [])
    case "LCP" => HeadList([Group(RightToLeft, "LCP", ["LC"])], RightToLeft, [])
    case "NP" => HeadList([Group(RightToLeft, "NP", ["NN", "NT", "NR", "QP"])], RightToLeft, [])
    case "PP" => HeadList([Group(LeftToRight, "PP", ["P"])], LeftToRight, [])
    case "PRN" => HeadList([], RightToLeft, ["NP", "IP", "VP", "NT", "NR", "NN", "0"])
    case "QP" => HeadList([Group(RightToLeft, "QP", ["CLP", "CD", "OD"])], RightToLeft, [])
    case "VP" =>
      HeadList([Group(LeftToRight, "VP", ["VA", "VC", "VE", "VV", "BA", "LB", "VCD", "VSB", "VRD", "VNV", "VCP"])], LeftToRight, [])
    case "VCD" => HeadList([Group(RightToLeft, "VCD", ["VV", "VA", "VC", "VE"])], RightToLeft, [])
    case "VRD" => HeadList([Group(RightToLeft, "VRD", ["VV", "VA", "VC", "VE"])], RightToLeft, [])
    case "VSB" => HeadList([Group(RightToLeft, "VSB", ["VV", "VA", "VC", "VE"])], RightToLeft, [])
    case "VCP" => HeadList([Group(RightToLeft, "VCP", ["VV", "VA", "VC", "VE"])], RightToLeft, [])
    case "VNV" => HeadList([Group(RightToLeft, "VNV", ["VV", "VA", "VC", "VE"])], RightToLeft, [])
    case "VPT" => HeadList([Group(RightToLeft, "VNV", ["VV", "VA", "VC", "VE"])], RightToLeft, [])
    case "UCP" => HeadList([], RightToLeft, [])
    case "WHNP" => HeadList([Group(RightToLeft, "WHNP", ["NP", "NN", "NT", "NR", "QP"])], RightToLeft, [])
    case "WHPP" => HeadList([Group(LeftToRight, "WHPP", ["PP", "P"])], LeftToRight, [])
    case _ => HeadList([], RightToLeft, [])
  }

  /** The labels the table knows. */
  const Known: seq<string> := ["ADJP", "ADVP", "CLP", "CP", "DNP", "DVP", "DP", "FRAG", "INTJ", "LST", "IP",
    "LCP", "NP", "PP", "PRN", "QP", "VP", "VCD", "VRD", "VSB", "VCP", "VNV", "VPT", "UCP", "WHNP", "WHPP"]

  predicate IsBare(t: string)
  {
    t == "0" || t == "1"
  }

  predicate IsDirection(c: char)
  {
    c == '0' || c == '1'
  }

  // ---------------------------------------------------------------
  // The written form

  function GroupTokens(g: Group): seq<string>
  {
    [[DirChar(g.dir)] + g.first] + g.rest
  }

  function Tokens(gs: seq<Group>): (toks: seq<string>)
    ensures forall k :: 0 <= k < |toks| ==> toks[k] != []
  {
    if gs == [] then [] else GroupTokens(gs[0]) + Tokens(gs[1..])
  }

  /** The token string of a head list, as the table spells it. */
  function Render(h: HeadList): (toks: seq<string>)
    ensures Scannable(toks)
  {
    var toks := Tokens(h.groups) + ([[DirChar(h.last)]] + h.trailing);
    assert toks[|Tokens(h.groups)|] == [DirChar(h.last)];
    toks
  }

  /** A token string the scanner can read to the end: no empty token, and
      a bare token somewhere to stop at. */
  predicate Scannable(toks: seq<string>)
  {
    (forall k :: 0 <= k < |toks| ==> toks[k] != []) && ("0" in toks || "1" in toks)
  }

  // ---------------------------------------------------------------
  // Searching the children

  /** The last child before `n` whose label is in `labels`. */
  function LastIn(kids: seq<string>, labels: seq<string>, n: nat): (r: Option<nat>)
    requires n <= |kids|
    ensures r.Some? ==> r.value < n && kids[r.value] in labels && forall j :: r.value < j < n ==> kids[j] !in labels
    ensures r.None? ==> forall j :: 0 <= j < n ==> kids[j] !in labels
  {
    if n == 0 then None
    else if kids[n - 1] in labels then Some(n - 1)
    else LastIn(kids, labels, n - 1)
  }

  /** The first child from `i` on whose label is in `labels`. */
  function FirstIn(kids: seq<string>, labels: seq<string>, i: nat): (r: Option<nat>)
    requires i <= |kids|
    ensures r.Some? ==> i <= r.value < |kids| && kids[r.value] in labels && forall j :: i <= j < r.value ==> kids[j] !in labels
    ensures r.None? ==> forall j :: i <= j < |kids| ==> kids[j] !in labels
    decreases |kids| - i
  {
    if i == |kids| then None
    else if kids[i] in labels then Some(i)
    else FirstIn(kids, labels, i + 1)
  }

  /** A group's search: right to left for direction '0', left to right
      otherwise. */
  function Search(dir: char, labels: seq<string>, kids: seq<string>): Option<nat>
  {
    if dir == '0' then LastIn(kids, labels, |kids|) else FirstIn(kids, labels, 0)
  }

  // ---------------------------------------------------------------
  // The reference: a decision list

  /** The first group that matches a child decides; with none, the bare
      final token gives the last ("0") or the first ("1") child. */
  function Decide(gs: seq<Group>, last: Direction, kids: seq<string>): (h: int)
    ensures |kids| > 0 ==> 0 <= h < |kids|
  {
    if gs == [] then (if last == RightToLeft then |kids| - 1 else 0)
    else match Search(DirChar(gs[0].dir), Labels(gs[0]), kids)
      case Some(j) => j
      case None => Decide(gs[1..], last, kids)
  }

  /** The head child of a node labelled `label` with children labelled
      `kids`. */
  function HeadOf(tag: string, kids: seq<string>): (h: int)
    ensures |kids| > 0 ==> 0 <= h < |kids|
  {
    var t := Table(tag);
    Decide(t.groups, t.last, kids)
  }

  // ---------------------------------------------------------------
  // The scanner

  /** What the scanner holds: no group, or the direction and labels of
      the group being read. */
  datatype Pending = Idle | Reading(dir: char, labels: seq<string>)

  /** The scanner over the remaining tokens. With no group open, a bare
      token answers at once and any other token opens a group; with a
      group open, a token starting with a direction ends the group, which
      is searched and, failing that, dropped, the token being read again;
      any other token joins the group. */
  function Scan(toks: seq<string>, kids: seq<string>, st: Pending): int
    requires Scannable(toks)
    decreases 2 * |toks| + (if st.Reading? then 1 else 0)
  {
    var t := toks[0];
    match st
    case Idle =>
      if t == "0" then |kids| - 1
      else if t == "1" then 0
      else Scan(toks[1..], kids, Reading(t[0], [t[1..]]))
    case Reading(dir, labels) =>
      if IsDirection(t[0]) then
        match Search(dir, labels, kids)
        case Some(j) => j
        case None => Scan(toks, kids, Idle)
      else Scan(toks[1..], kids, Reading(dir, labels + [t]))
  }

  /** The scanner reading a head list's tokens. */
  method HeadWordRule(toks: seq<string>, kids: seq<string>) returns (h: int)
    requires Scannable(toks)
    ensures h == Scan(toks, kids, Idle)
  {
    var p := 0;
    var st := Idle;
    while true
      invariant p < |toks| && Scannable(toks[p..])
      invariant Scan(toks[p..], kids, st) == Scan(toks, kids, Idle)
      decreases 2 * (|toks| - p) + (if st.Reading? then 1 else 0)
    {
      var t := toks[p];
      assert t == toks[p..][0];
      if st.Idle? {
        if t == "0" {
          return |kids| - 1;
        }
        if t == "1" {
          return 0;
        }
        assert toks[p..][1..] == toks[p + 1..];
        st := Reading(t[0], [t[1..]]);
        p := p + 1;
      } else if IsDirection(t[0]) {
        var found := SearchChildren(st.dir, st.labels, kids);
        if found >= 0 {
          return found;
        }
        st := Idle;
      } else {
        assert toks[p..][1..] == toks[p + 1..];
        st := Reading(st.dir, st.labels + [t]);
        p := p + 1;
      }
    }
  }

  /** The search loops of the scanner; -1 when no child matches. */
  method SearchChildren(dir: char, labels: seq<string>, kids: seq<string>) returns (j: int)
    ensures j >= 0 <==> Search(dir, labels, kids).Some?
    ensures j >= 0 ==> j == Search(dir, labels, kids).value
  {
    if dir == '0' {
      j := |kids| - 1;
      while j >= 0
        invariant -1 <= j < |kids|
        invariant LastIn(kids, labels, |kids|) == LastIn(kids, labels, j + 1)
      {
        if kids[j] in labels {
          return;
        }
        j := j - 1;
      }
    } else {
      j := 0;
      while j < |kids|
        invariant 0 <= j <= |kids|
        invariant FirstIn(kids, labels, 0) == FirstIn(kids, labels, j)
      {
        if kids[j] in labels {
          return;
        }
        j := j + 1;
      }
      j := -1;
    }
  }

  /** The head child of a node: the scanner run over the label's list. */
  method GetHeadWord(tag: string, kids: seq<string>) returns (h: int)
    ensures h == HeadOf(tag, kids)
    ensures |kids| > 0 ==> 0 <= h < |kids|
  {
    h := HeadWordRule(Render(Table(tag)), kids);
    ScanRender(Table(tag), kids);
  }

  // ---------------------------------------------------------------
  // The scanner computes the decision list

  /** Labels that do not start with a direction join the open group. */
  lemma {:induction false} ReadRest(rest: seq<Label>, tail: seq<string>, kids: seq<string>, dir: char, labels: seq<string>)
    requires Scannable(tail)
    ensures Scannable(rest + tail)
    ensures Scan(rest + tail, kids, Reading(dir, labels)) == Scan(tail, kids, Reading(dir, labels + rest))
  {
    if rest == [] {
      assert rest + tail == tail;
      assert labels + rest == labels;
    } else {
      ReadRest(rest[1..], tail, kids, dir, labels + [rest[0]]);
      assert (rest + tail)[1..] == rest[1..] + tail;
      assert (labels + [rest[0]]) + rest[1..] == labels + rest;
    }
  }

  /** The first token after a group starts with a direction. */
  lemma NextStartsWithDirection(h: HeadList)
    ensures Render(h) != [] && IsDirection(Render(h)[0][0])
  {
    if h.groups != [] {
      assert Render(h)[0] == [DirChar(h.groups[0].dir)] + h.groups[0].first;
    } else {
      assert Render(h)[0] == [DirChar(h.last)];
    }
  }

  lemma {:induction false} ScanTokens(gs: seq<Group>, last: Direction, trailing: seq<Token>, kids: seq<string>)
    ensures Scan(Render(HeadList(gs, last, trailing)), kids, Idle) == Decide(gs, last, kids)
  {
    var tail := [[DirChar(last)]] + trailing;
    if gs == [] {
      assert Render(HeadList(gs, last, trailing)) == tail;
      assert tail[0] == [DirChar(last)];
    } else {
      var g := gs[0];
      var d := DirChar(g.dir);
      var after := Render(HeadList(gs[1..], last, trailing));
      var toks := Render(HeadList(gs, last, trailing));
      assert toks == [[d] + g.first] + (g.rest + after);
      ReadRest(g.rest, after, kids, d, [g.first]);
      assert toks[1..] == g.rest + after;
      assert toks[0] == [d] + g.first;
      assert toks[0][1..] == g.first;
      NextStartsWithDirection(HeadList(gs[1..], last, trailing));
      ScanTokens(gs[1..], last, trailing, kids);
    }
  }

  /** Reading a list's written form selects what the decision list
      selects. */
  lemma ScanRender(h: HeadList, kids: seq<string>)
    ensures Scan(Render(h), kids, Idle) == Decide(h.groups, h.last, kids)
  {
    ScanTokens(h.groups, h.last, h.trailing, kids);
  }

  // ---------------------------------------------------------------
  // Consequences

  /** A label the table does not know takes its last child. */
  lemma UnknownLabelTakesLast(tag: string, kids: seq<string>)
    requires tag !in Known
    ensures HeadOf(tag, kids) == |kids| - 1
  {
  }

  /** A list that starts with a bare "0" takes the last child, whatever
      follows it. */
  lemma BareFirstTakesLast(h: HeadList, kids: seq<string>)
    requires h.groups == [] && h.last == RightToLeft
    ensures Scan(Render(h), kids, Idle) == |kids| - 1
  {
    ScanRender(h, kids);
  }

  /** The list for PRN starts with a bare "0", so a PRN node always takes
      its last child. */
  lemma ParentheticalTakesLast(kids: seq<string>)
    ensures HeadOf("PRN", kids) == |kids| - 1
  {
    assert Table("PRN").groups == [];
  }

  /** A few heads: an NP takes its rightmost noun-like child, a VP its
      leftmost verb, a CP its rightmost complementizer, a PP its leftmost
      preposition. */
  lemma NounPhraseHeads()
    ensures HeadOf("NP", ["DNP", "NP"]) == 1
    ensures HeadOf("NP", ["NN", "NN"]) == 1
  {
    assert Table("NP") == HeadList([Group(RightToLeft, "NP", ["NN", "NT", "NR", "QP"])], RightToLeft, []);
  }

  lemma VerbPhraseHead()
    ensures HeadOf("VP", ["ADVP", "VV", "NP"]) == 1
  {
    assert Table("VP").groups[0].dir == LeftToRight;
  }

  lemma ClauseHeads()
    ensures HeadOf("CP", ["IP", "DEC"]) == 1
    ensures HeadOf("PP", ["P", "NP"]) == 0
  {
    assert Table("CP").groups[0] == Group(RightToLeft, "DEC", ["SP"]);
    assert Table("PP") == HeadList([Group(LeftToRight, "PP", ["P"])], LeftToRight, []);
  }
}
