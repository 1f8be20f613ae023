/** Sparse rule features: the rule-identity feature, the rule-hash feature
    and the source and target bigram features, with the per-input caches
    that remember each rule's features. The symbol and feature dictionaries
    are parameters: `td` gives a terminal's or category's text, `fd` a
    feature name's id. */
module RuleFeatures {
  import opened Forest
  import opened Decimal
  import opened Wrappers
  import opened HexMap

  /** A sparse feature vector: feature id to value, absent meaning 0. */
  type SparseVector = map<int, real>

  function Get(v: SparseVector, k: int): real
  {
    if k in v then v[k] else 0.0
  }

  /** Adds `x` to feature `fid`. */
  function AddValue(v: SparseVector, fid: int, x: real): (r: SparseVector)
    ensures Get(r, fid) == Get(v, fid) + x
    ensures forall k :: k != fid ==> Get(r, k) == Get(v, k)
    ensures r.Keys == v.Keys + {fid}
  {
    v[fid := Get(v, fid) + x]
  }

  /** The sum of two vectors. */
  function Plus(v: SparseVector, w: SparseVector): (r: SparseVector)
    ensures forall k :: Get(r, k) == Get(v, k) + Get(w, k)
    ensures r.Keys == v.Keys + w.Keys
  {
    map k | k in v.Keys + w.Keys :: Get(v, k) + Get(w, k)
  }

  /** Adds 1 to each feature in `ids`, in order. */
  function AddEach(v: SparseVector, ids: seq<int>): SparseVector
    decreases |ids|
  {
    if ids == [] then v else AddEach(AddValue(v, ids[0], 1.0), ids[1..])
  }

  /** Each feature gains the number of times it occurs in `ids`, and the
      features present are those of `v` and those in `ids`. */
  lemma {:induction false} AddEachCounts(v: SparseVector, ids: seq<int>)
    ensures forall k :: Get(AddEach(v, ids), k) == Get(v, k) + multiset(ids)[k] as real
    ensures forall k :: k in AddEach(v, ids) <==> k in v || k in ids
    decreases |ids|
  {
    if ids != [] {
      AddEachCounts(AddValue(v, ids[0], 1.0), ids[1..]);
      assert ids == [ids[0]] + ids[1..];
      assert multiset(ids) == multiset{ids[0]} + multiset(ids[1..]);
    }
  }

  /** The character `Escape` writes for `c`. */
  function EscapeChar(c: char): char
  {
    if c == '=' || c == ';' then '_' else c
  }

  /** A feature name with '=' and ';', which the feature file format
      reserves, replaced by '_'. */
  function Escape(x: string): (y: string)
    ensures |y| == |x|
    ensures forall i :: 0 <= i < |x| ==> y[i] == EscapeChar(x[i])
  {
    if x == [] then [] else [EscapeChar(x[0])] + Escape(x[1..])
  }

  /** No escaped name holds '=' or ';', every other character is kept, and
      escaping twice is escaping once. */
  lemma EscapeProperties(x: string)
    ensures forall i :: 0 <= i < |x| ==> Escape(x)[i] != '=' && Escape(x)[i] != ';'
    ensures forall i :: 0 <= i < |x| && x[i] != '=' && x[i] != ';' ==> Escape(x)[i] == x[i]
    ensures Escape(Escape(x)) == Escape(x)
  {
  }

  /** Escaping distributes over concatenation. */
  lemma EscapeConcat(x: string, y: string)
    ensures Escape(x + y) == Escape(x) + Escape(y)
  {
    assert forall i :: 0 <= i < |x + y| ==> Escape(x + y)[i] == (Escape(x) + Escape(y))[i];
  }

  /** The escaping loop over a copy of the name. */
  method EscapeCopy(x: string) returns (y: string)
    ensures y == Escape(x)
  {
    y := x;
    var i := 0;
    while i < |y|
      invariant 0 <= i <= |y| == |x|
      invariant forall k :: 0 <= k < i ==> y[k] == EscapeChar(x[k])
      invariant forall k :: i <= k < |y| ==> y[k] == x[k]
    {
      if y[i] == '=' {
        y := y[i := '_'];
      }
      if y[i] == ';' {
        y := y[i := '_'];
      }
      i := i + 1;
    }
  }

  /** Parts joined with '_'. */
  function Join(parts: seq<string>): string
  {
    if parts == [] then "" else if |parts| == 1 then parts[0] else parts[0] + "_" + Join(parts[1..])
  }

  /** Source-side symbols are never 0: terminals are positive, nonterminal
      categories negative. */
  predicate SourceSymbolsOk(f: seq<int>)
  {
    forall i :: 0 <= i < |f| ==> f[i] != 0
  }

  /** A source symbol: a terminal's text, or 'N' and a category's name. */
  function FSymbol(w: int, td: int -> string): string
    requires w != 0
  {
    if w < 0 then "N" + td(-w) else td(w)
  }

  /** A target symbol: a terminal's text, or 'N' and the 1-based index of
      the nonterminal, which the target side stores as 0, -1, -2, ... */
  function ESymbol(w: int, td: int -> string): string
  {
    if w <= 0 then "N" + IntToString(1 - w) else td(w)
  }

  /** A target nonterminal's index can be read back from its text. */
  lemma ESymbolIndex(w: int, td: int -> string)
    requires w <= 0
    ensures ESymbol(w, td)[0] == 'N' && ParseInt(ESymbol(w, td)[1..]) == Some(1 - w) && 1 - w >= 1
  {
    IntRoundTrip(1 - w);
    assert ESymbol(w, td)[1..] == IntToString(1 - w);
  }

  function FSymbols(f: seq<int>, td: int -> string): (r: seq<string>)
    requires SourceSymbolsOk(f)
    ensures |r| == |f|
  {
    seq(|f|, i requires 0 <= i < |f| => FSymbol(f[i], td))
  }

  function ESymbols(e: seq<int>, td: int -> string): (r: seq<string>)
    ensures |r| == |e|
  {
    seq(|e|, i requires 0 <= i < |e| => ESymbol(e[i], td))
  }

  /** The rule-identity feature name, before escaping: "R:", the left-hand
      side category and ':' for a rule with one, the source symbols, ':',
      the target symbols. */
  function RawIdentityName(rule: Rule, td: int -> string): string
    requires SourceSymbolsOk(rule.f)
  {
    "R:" + (if rule.lhs < 0 then td(-rule.lhs) + ":" else "") + Join(FSymbols(rule.f, td)) + ":" + Join(ESymbols(rule.e, td))
  }

  function IdentityName(rule: Rule, td: int -> string): string
    requires SourceSymbolsOk(rule.f)
  {
    Escape(RawIdentityName(rule, td))
  }

  /** The name begins with "R:" and holds neither '=' nor ';'. */
  lemma IdentityNameShape(rule: Rule, td: int -> string)
    requires SourceSymbolsOk(rule.f)
    ensures var n := IdentityName(rule, td); |n| >= 3 && n[..2] == "R:"
    ensures var n := IdentityName(rule, td); forall i :: 0 <= i < |n| ==> n[i] != '=' && n[i] != ';'
  {
    var raw := RawIdentityName(rule, td);
    EscapeProperties(raw);
    assert raw[0] == 'R' && raw[1] == ':';
  }

  /** The rule [X] -> [X,1] a ||| [1] b, with X, a and b the texts of 1, 5
      and 7, is named "R:X:NX_a:N1_b". */
  lemma IdentityNameExample(td: int -> string)
    requires td(1) == "X" && td(5) == "a" && td(7) == "b"
    ensures IdentityName(Rule(0, -1, [-1, 5], [0, 7], 1), td) == "R:X:NX_a:N1_b"
  {
    RawIdentityNameExample(td);
    var raw := "R:X:NX_a:N1_b";
    forall i | 0 <= i < |raw|
      ensures Escape(raw)[i] == raw[i]
    {
      assert raw[i] != '=' && raw[i] != ';';
    }
  }

  lemma RawIdentityNameExample(td: int -> string)
    requires td(1) == "X" && td(5) == "a" && td(7) == "b"
    ensures RawIdentityName(Rule(0, -1, [-1, 5], [0, 7], 1), td) == "R:X:NX_a:N1_b"
  {
    ExampleSymbols(td);
    var fs: seq<string>, es: seq<string> := ["NX", "a"], ["N1", "b"];
    assert fs[1..] == ["a"] && es[1..] == ["b"];
    assert Join(fs) == "NX" + "_" + "a" == "NX_a";
    assert Join(es) == "N1" + "_" + "b" == "N1_b";
  }

  lemma ExampleSymbols(td: int -> string)
    requires td(1) == "X" && td(5) == "a" && td(7) == "b"
    ensures FSymbols([-1, 5], td) == ["NX", "a"] && ESymbols([0, 7], td) == ["N1", "b"]
  {
    var fs, es := FSymbols([-1, 5], td), ESymbols([0, 7], td);
    assert fs[0] == "N" + td(1) == "NX" && fs[1] == "a";
    assert IntToString(1) == "1";
    assert es[0] == "N" + IntToString(1) == "N1" && es[1] == "b";
  }

  /** The rule-identity feature: 1 for the rule's own feature, whose id is
      computed once per rule and input and kept until the next input. */
  class RuleIdentityFeatures {
    const td: int -> string
    const fd: string -> int
    var rule2Fid: map<Rule, int>
    /** How many names have been built since the cache was created. */
    ghost var built: nat

    ghost predicate Valid()
      reads this
    {
      forall r :: r in rule2Fid ==> SourceSymbolsOk(r.f) && rule2Fid[r] == fd(IdentityName(r, td))
    }

    constructor (td: int -> string, fd: string -> int)
      ensures Valid() && rule2Fid == map[] && this.td == td && this.fd == fd && built == 0
    {
      this.td, this.fd := td, fd;
      rule2Fid := map[];
      built := 0;
    }

    /** A new input clears the cache. */
    method PrepareForInput()
      modifies this
      ensures Valid() && rule2Fid == map[] && built == old(built)
    {
      rule2Fid := map[];
    }

    /** Adds 1 to the rule's identity feature; the name is built only when
        the rule is not cached yet. */
    method TraversalFeatures(rule: Rule, features: SparseVector) returns (features': SparseVector)
      requires Valid() && SourceSymbolsOk(rule.f)
      modifies this
      ensures Valid()
      ensures features' == AddValue(features, fd(IdentityName(rule, td)), 1.0)
      ensures rule2Fid == old(rule2Fid)[rule := fd(IdentityName(rule, td))]
      ensures built == old(built) + (if rule in old(rule2Fid) then 0 else 1)
    {
      if rule !in rule2Fid {
        var raw := "R:" + (if rule.lhs < 0 then td(-rule.lhs) + ":" else "") + Join(FSymbols(rule.f, td)) + ":" + Join(ESymbols(rule.e, td));
        var name := EscapeCopy(raw);
        rule2Fid := rule2Fid[rule := fd(name)];
        built := built + 1;
      }
      features' := AddValue(features, rule2Fid[rule], 1.0);
    }
  }

  /** The rule-hash feature name: "H:" and the hash's nibbles, least
      significant first, stopping after the highest non-zero one. */
  method HashFeatureName(h: nat) returns (name: string)
    ensures name == "H:" + HexLsbFirst(h)
  {
    name := "H:";
    var g := h;
    while g != 0
      invariant name + HexLsbFirst(g) == "H:" + HexLsbFirst(h)
      decreases g
    {
      name := name + [HexDigit(g % 16)];
      g := g / 16;
    }
  }

  /** The name reads back as the hash; a zero hash gives just "H:". */
  lemma HashFeatureNameDecodes(h: nat)
    ensures NibblesValue(("H:" + HexLsbFirst(h))[2..]) == h
    ensures h == 0 ==> "H:" + HexLsbFirst(h) == "H:"
  {
    assert ("H:" + HexLsbFirst(h))[2..] == HexLsbFirst(h);
    HexLsbFirstRoundTrip(h);
  }

  /** The rule-hash feature: 1 for the feature named after the hash of the
      rule's text (the hash function is a parameter). */
  method RuleHashTraversal(rule: Rule, hash: Rule -> nat, fd: string -> int, features: SparseVector)
      returns (features': SparseVector)
    ensures features' == AddValue(features, fd("H:" + HexLsbFirst(hash(rule))), 1.0)
  {
    var name := HashFeatureName(hash(rule));
    features' := AddValue(features, fd(name), 1.0);
  }

  function Abs(w: int): nat
  {
    if w < 0 then -w else w
  }

  /** The texts of a rule side's symbols, signs dropped. */
  function Words(syms: seq<int>, td: int -> string): (r: seq<string>)
    ensures |r| == |syms|
  {
    seq(|syms|, i requires 0 <= i < |syms| => td(Abs(syms[i])))
  }

  /** The chain's i-th word, with "<r>" before the first and "</r>" after
      the last. */
  function Bound(words: seq<string>, i: int): string
    requires -1 <= i <= |words|
  {
    if i == -1 then "<r>" else if i == |words| then "</r>" else words[i]
  }

  /** The bigram names of a side: prefix, "<r>_w0", then "w0_w1", ...,
      and finally "w(k-1)_</r>". */
  function BigramNames(prefix: string, words: seq<string>): (r: seq<string>)
    ensures |r| == |words| + 1
  {
    seq(|words| + 1, i requires 0 <= i <= |words| => prefix + Bound(words, i - 1) + "_" + Bound(words, i))
  }

  /** The feature id of the i-th bigram. */
  function BigramId(prefix: string, syms: seq<int>, td: int -> string, fd: string -> int, i: nat): int
    requires i <= |syms|
  {
    fd(Escape(BigramNames(prefix, Words(syms, td))[i]))
  }

  /** The chain stops at symbol i when the symbol is 0 or its bigram has
      no valid feature id. */
  predicate StopsAt(prefix: string, syms: seq<int>, td: int -> string, fd: string -> int, i: nat)
    requires i < |syms|
  {
    syms[i] == 0 || BigramId(prefix, syms, td, fd, i) <= 0
  }

  /** The first stopping symbol at or after `i`, or the side's length. */
  function FirstStop(prefix: string, syms: seq<int>, td: int -> string, fd: string -> int, i: nat): (t: nat)
    requires i <= |syms|
    ensures i <= t <= |syms|
    ensures t < |syms| ==> StopsAt(prefix, syms, td, fd, t)
    ensures forall j :: i <= j < t ==> !StopsAt(prefix, syms, td, fd, j)
    decreases |syms| - i
  {
    if i == |syms| then i
    else if StopsAt(prefix, syms, td, fd, i) then i
    else FirstStop(prefix, syms, td, fd, i + 1)
  }

  function BigramIds(prefix: string, syms: seq<int>, td: int -> string, fd: string -> int, n: nat): (r: seq<int>)
    requires n <= |syms| + 1
    ensures |r| == n
  {
    seq(n, j requires 0 <= j < n => BigramId(prefix, syms, td, fd, j))
  }

  /** The bigram features of a side and whether the chain completed: 1 for
      each bigram up to the first stop; a completed chain also sets the
      closing bigram to 1. */
  function ChainFeatures(prefix: string, syms: seq<int>, td: int -> string, fd: string -> int): (SparseVector, bool)
  {
    var t := FirstStop(prefix, syms, td, fd, 0);
    var f := AddEach(map[], BigramIds(prefix, syms, td, fd, t));
    if t < |syms| then (f, false) else (f[BigramId(prefix, syms, td, fd, |syms|) := 1.0], true)
  }

  /** A chain completes exactly when no symbol stops it; then every bigram
      of the side, closing one included, has a feature, and no other
      feature is present. */
  lemma ChainFeaturesComplete(prefix: string, syms: seq<int>, td: int -> string, fd: string -> int)
    ensures ChainFeatures(prefix, syms, td, fd).1 <==> forall j :: 0 <= j < |syms| ==> !StopsAt(prefix, syms, td, fd, j)
    ensures ChainFeatures(prefix, syms, td, fd).1 ==>
      forall k :: k in ChainFeatures(prefix, syms, td, fd).0 <==> k in BigramIds(prefix, syms, td, fd, |syms| + 1)
  {
    var t := FirstStop(prefix, syms, td, fd, 0);
    var ids := BigramIds(prefix, syms, td, fd, t);
    AddEachCounts(map[], ids);
    if t == |syms| {
      assert BigramIds(prefix, syms, td, fd, |syms| + 1) == ids + [BigramId(prefix, syms, td, fd, |syms|)];
    }
  }

  /** A chain that first stops at symbol i holds the first i bigrams. */
  lemma ChainStops(prefix: string, syms: seq<int>, td: int -> string, fd: string -> int, i: nat)
    requires i < |syms| && StopsAt(prefix, syms, td, fd, i)
    requires forall j :: 0 <= j < i ==> !StopsAt(prefix, syms, td, fd, j)
    ensures ChainFeatures(prefix, syms, td, fd) == (AddEach(map[], BigramIds(prefix, syms, td, fd, i)), false)
  {
    FirstStopIs(prefix, syms, td, fd, 0, i);
  }

  /** A chain no symbol stops holds every bigram and the closing one. */
  lemma ChainCompletes(prefix: string, syms: seq<int>, td: int -> string, fd: string -> int)
    requires forall j :: 0 <= j < |syms| ==> !StopsAt(prefix, syms, td, fd, j)
    ensures ChainFeatures(prefix, syms, td, fd) ==
      (AddEach(map[], BigramIds(prefix, syms, td, fd, |syms|))[BigramId(prefix, syms, td, fd, |syms|) := 1.0], true)
  {
    var t := FirstStop(prefix, syms, td, fd, 0);
    assert t == |syms|;
  }

  lemma {:induction false} FirstStopIs(prefix: string, syms: seq<int>, td: int -> string, fd: string -> int, k: nat, i: nat)
    requires k <= i < |syms| && StopsAt(prefix, syms, td, fd, i)
    requires forall j :: k <= j < i ==> !StopsAt(prefix, syms, td, fd, j)
    ensures FirstStop(prefix, syms, td, fd, k) == i
    decreases i - k
  {
    if k < i {
      FirstStopIs(prefix, syms, td, fd, k + 1, i);
    }
  }

  /** The i-th bigram's name, from the previous and the current word. */
  lemma BigramIdAt(prefix: string, syms: seq<int>, td: int -> string, fd: string -> int, i: nat)
    requires i <= |syms|
    ensures BigramId(prefix, syms, td, fd, i) ==
      fd(Escape(prefix + Bound(Words(syms, td), i - 1) + "_" + (if i < |syms| then td(Abs(syms[i])) else "</r>")))
  {
  }

  /** The state of the chain loop after `i` symbols: none stopped it, the
      previous word is the (i-1)-th, and the features are the first i bigrams. */
  predicate ChainSoFar(prefix: string, syms: seq<int>, td: int -> string, fd: string -> int, i: nat, prev: string, f: SparseVector)
  {
    i <= |syms| &&
    (forall j :: 0 <= j < i ==> !StopsAt(prefix, syms, td, fd, j)) &&
    prev == Bound(Words(syms, td), i - 1) &&
    f == AddEach(map[], BigramIds(prefix, syms, td, fd, i))
  }

  /** One step of the chain loop: a symbol 0 or a bigram without a valid
      id ends the chain with the features so far; otherwise the bigram is
      counted and its word becomes the previous one. */
  lemma ChainStep(prefix: string, syms: seq<int>, td: int -> string, fd: string -> int, i: nat, prev: string, f: SparseVector)
    requires i < |syms| && ChainSoFar(prefix, syms, td, fd, i, prev, f)
    ensures var w := Abs(syms[i]);
      var fid := fd(Escape(prefix + prev + "_" + td(w)));
      if w == 0 || fid <= 0 then ChainFeatures(prefix, syms, td, fd) == (f, false)
      else ChainSoFar(prefix, syms, td, fd, i + 1, td(w), AddValue(f, fid, 1.0))
  {
    BigramIdAt(prefix, syms, td, fd, i);
    if StopsAt(prefix, syms, td, fd, i) {
      ChainStops(prefix, syms, td, fd, i);
    } else {
      ExtendIds(prefix, syms, td, fd, i, f);
    }
  }

  /** The end of the chain loop: the closing bigram is set to 1. */
  lemma ChainEnd(prefix: string, syms: seq<int>, td: int -> string, fd: string -> int, prev: string, f: SparseVector)
    requires ChainSoFar(prefix, syms, td, fd, |syms|, prev, f)
    ensures ChainFeatures(prefix, syms, td, fd) == (f[fd(Escape(prefix + prev + "_" + "</r>")) := 1.0], true)
  {
    BigramIdAt(prefix, syms, td, fd, |syms|);
    ChainCompletes(prefix, syms, td, fd);
  }

  /** The bigram chain loop: the previous word is carried along, and the
      loop returns early, leaving the features built so far, at a symbol
      that stops it. */
  method BuildChain(prefix: string, syms: seq<int>, td: int -> string, fd: string -> int) returns (f: SparseVector, complete: bool)
    ensures (f, complete) == ChainFeatures(prefix, syms, td, fd)
  {
    f := map[];
    var prev := "<r>";
    var i := 0;
    while i < |syms|
      invariant ChainSoFar(prefix, syms, td, fd, i, prev, f)
    {
      ChainStep(prefix, syms, td, fd, i, prev, f);
      var w := Abs(syms[i]);
      if w == 0 {
        return f, false;
      }
      var cur := td(w);
      var fid := fd(Escape(prefix + prev + "_" + cur));
      if fid <= 0 {
        return f, false;
      }
      f := AddValue(f, fid, 1.0);
      prev := cur;
      i := i + 1;
    }
    ChainEnd(prefix, syms, td, fd, prev, f);
    f := f[fd(Escape(prefix + prev + "_" + "</r>")) := 1.0];
    complete := true;
  }

  /** One more bigram adds 1 to its feature. */
  lemma ExtendIds(prefix: string, syms: seq<int>, td: int -> string, fd: string -> int, i: nat, f: SparseVector)
    requires i < |syms| && f == AddEach(map[], BigramIds(prefix, syms, td, fd, i))
    ensures AddEach(map[], BigramIds(prefix, syms, td, fd, i + 1)) == AddValue(f, BigramId(prefix, syms, td, fd, i), 1.0)
  {
    assert BigramIds(prefix, syms, td, fd, i + 1) == BigramIds(prefix, syms, td, fd, i) + [BigramId(prefix, syms, td, fd, i)];
    AddEachSnoc(map[], BigramIds(prefix, syms, td, fd, i), BigramId(prefix, syms, td, fd, i));
  }

  lemma {:induction false} AddEachSnoc(v: SparseVector, ids: seq<int>, id: int)
    ensures AddEach(v, ids + [id]) == AddValue(AddEach(v, ids), id, 1.0)
    decreases |ids|
  {
    if ids != [] {
      assert (ids + [id])[1..] == ids[1..] + [id];
      AddEachSnoc(AddValue(v, ids[0], 1.0), ids[1..], id);
    } else {
      assert (ids + [id])[1..] == [];
    }
  }

  /** The source-side ("RBS:") or target-side ("RBT:") bigram features, with
      each rule's vector cached until the next input. */
  class RuleBigramFeatures {
    const source: bool
    const prefix: string
    const td: int -> string
    const fd: string -> int
    var rule2Feats: map<Rule, SparseVector>

    function Side(rule: Rule): seq<int>
      reads this
    {
      if source then rule.f else rule.e
    }

    ghost predicate Valid()
      reads this
    {
      forall r :: r in rule2Feats ==> rule2Feats[r] == ChainFeatures(prefix, Side(r), td, fd).0
    }

    constructor (source: bool, td: int -> string, fd: string -> int)
      ensures Valid() && rule2Feats == map[] && this.source == source && this.td == td && this.fd == fd
      ensures prefix == if source then "RBS:" else "RBT:"
    {
      this.source, this.td, this.fd := source, td, fd;
      prefix := if source then "RBS:" else "RBT:";
      rule2Feats := map[];
    }

    /** A new input clears the cache. */
    method PrepareForInput()
      modifies this
      ensures Valid() && rule2Feats == map[]
    {
      rule2Feats := map[];
    }

    /** Adds the rule's bigram features. A rule seen before adds its cached
        vector; a new rule's vector is built and cached, and added only when
        its chain completed: a chain that stopped early is cached as it
        stands and adds nothing on this first call. */
    method TraversalFeatures(rule: Rule, features: SparseVector) returns (features': SparseVector)
      requires Valid() && (source ==> SourceSymbolsOk(rule.f))
      modifies this
      ensures Valid()
      ensures rule2Feats == old(rule2Feats)[rule := ChainFeatures(prefix, Side(rule), td, fd).0]
      ensures features' == if rule in old(rule2Feats) || ChainFeatures(prefix, Side(rule), td, fd).1
        then Plus(features, ChainFeatures(prefix, Side(rule), td, fd).0) else features
    {
      if rule in rule2Feats {
        features' := Plus(features, rule2Feats[rule]);
        return;
      }
      var f, complete := BuildChain(prefix, Side(rule), td, fd);
      CacheChain(rule, f);
      if !complete {
        return features;
      }
      features' := Plus(features, f);
    }

    /** Stores a rule's chain vector, keeping the cache valid. */
    method CacheChain(rule: Rule, f: SparseVector)
      requires Valid() && f == ChainFeatures(prefix, Side(rule), td, fd).0
      modifies this
      ensures Valid() && rule2Feats == old(rule2Feats)[rule := f]
    {
      rule2Feats := rule2Feats[rule := f];
    }
  }
}
