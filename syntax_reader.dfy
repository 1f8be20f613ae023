/** The bracket tokenizer of the parse-tree reader: a line holding one
    bracketed parse is cut into "(" and ")" tokens and the labels and
    words between them. */
module SyntaxReader {
  const Open: string := "("
  const Close: string := ")"
  const RootLabel: string := "ROOT"

  /** A C string as the reader sees it: bytes, none of them NUL. A byte of
      0x80 or more (a piece of a UTF-8 character) is a negative `char`:
      the trailing loop's `> 0` test keeps it, and the leading loop, which
      would skip it, only ever meets blanks before the opening bracket that
      `Balanced` asks for. */
  predicate Plain(line: string)
  {
    forall k :: 0 <= k < |line| ==> 0 < line[k] as int < 256
  }

  /** What the trimming loops skip. */
  predicate IsLow(c: char)
  {
    c <= ' '
  }

  /** What `%s` treats as white space. */
  predicate IsSpace(c: char)
  {
    c == ' ' || c == '\t' || c == '\n' || c == '\r' || c == '\U{0B}' || c == '\U{0C}'
  }

  /** The length left once the trailing low characters are cut off. */
  function TrimEnd(s: string): (n: nat)
    ensures n <= |s| && (n > 0 ==> !IsLow(s[n - 1]))
    ensures forall k :: n <= k < |s| ==> IsLow(s[k])
  {
    if s == [] || !IsLow(s[|s| - 1]) then |s| else TrimEnd(s[..|s| - 1])
  }

  /** The index of the first character that is not low. */
  function SkipLow(s: string): (a: nat)
    ensures a <= |s| && (a < |s| ==> !IsLow(s[a]))
    ensures forall k :: 0 <= k < a ==> IsLow(s[k])
  {
    if s == [] || !IsLow(s[0]) then 0 else 1 + SkipLow(s[1..])
  }

  /** The line without its leading and trailing low characters. */
  function Core(line: string): (core: string)
    ensures core == [] || (!IsLow(core[0]) && !IsLow(core[|core| - 1]))
  {
    var t := line[..TrimEnd(line)];
    t[SkipLow(t)..]
  }

  /** The length of the run of non-space characters `s` starts with. */
  function WordLen(s: string): (n: nat)
    ensures n <= |s| && (n < |s| ==> IsSpace(s[n]))
    ensures forall k :: 0 <= k < n ==> !IsSpace(s[k])
  {
    if s == [] || IsSpace(s[0]) then 0 else 1 + WordLen(s[1..])
  }

  predicate IsWord(w: string)
  {
    w != [] && forall k :: 0 <= k < |w| ==> !IsSpace(w[k])
  }

  /** The words `%s` reads one after another. */
  function Words(s: string): (ws: seq<string>)
    ensures forall i :: 0 <= i < |ws| ==> ws[i] != [] && IsWord(ws[i])
    decreases |s|
  {
    if s == [] then []
    else if IsSpace(s[0]) then Words(s[1..])
    else
      var n := WordLen(s);
      [s[..n]] + Words(s[n..])
  }

  function Flatten(ws: seq<string>): string
  {
    if ws == [] then [] else ws[0] + Flatten(ws[1..])
  }

  function NoSpaces(s: string): (r: string)
    ensures forall k :: 0 <= k < |r| ==> !IsSpace(r[k])
  {
    if s == [] then [] else (if IsSpace(s[0]) then [] else [s[0]]) + NoSpaces(s[1..])
  }

  /** The number of copies of `c` that `s` starts with. */
  function Leading(s: string, c: char): (n: nat)
    ensures n <= |s| && (n < |s| ==> s[n] != c)
    ensures forall k :: 0 <= k < n ==> s[k] == c
  {
    if s == [] || s[0] != c then 0 else 1 + Leading(s[1..], c)
  }

  /** The number of copies of `c` that `s` ends with. */
  function Trailing(s: string, c: char): (n: nat)
    ensures n <= |s| && (n < |s| ==> s[|s| - n - 1] != c)
    ensures forall k :: |s| - n <= k < |s| ==> s[k] == c
  {
    if s == [] || s[|s| - 1] != c then 0 else 1 + Trailing(s[..|s| - 1], c)
  }

  /** The index of the first `c` in `s`. */
  function Find(s: string, c: char): (r: int)
    ensures -1 <= r < |s| && (r >= 0 ==> s[r] == c)
    ensures forall k :: 0 <= k < |s| && (r < 0 || k < r) ==> s[k] != c
  {
    if s == [] then -1
    else if s[0] == c then 0
    else var r := Find(s[1..], c); if r < 0 then -1 else r + 1
  }

  function Copies(x: string, k: nat): (r: seq<string>)
    ensures |r| == k && forall i :: 0 <= i < k ==> r[i] == x
  {
    if k == 0 then [] else Copies(x, k - 1) + [x]
  }

  /** `k` copies of the character `c`. */
  function Run(c: char, k: nat): (r: string)
    ensures |r| == k && forall i :: 0 <= i < k ==> r[i] == c
  {
    if k == 0 then [] else Run(c, k - 1) + [c]
  }

  function Unless(w: string): (r: seq<string>)
    ensures r == [] <==> w == []
  {
    if w == [] then [] else [w]
  }

  /** The tokens one word is cut into, with the counts of the "(" and ")"
      tokens the reader counts for it. */
  datatype Split = Split(pieces: seq<string>, opens: nat, closes: nat)

  /** One word: a word starting with "(" gives one "(" per leading
      bracket and then the rest of the word if the word is longer than one
      character; a word ending with ")" gives its text before the trailing
      brackets and one ")" per trailing bracket; any other word with a ")"
      inside is cut at its first ")", the run of ")" and then of "(" after
      it become tokens of their own, and what follows is one more token. */
  function TokenPieces(t: string): (r: Split)
    requires t != []
  {
    if t[0] == '(' then OpenPieces(t)
    else if t[|t| - 1] == ')' then ClosePieces(t)
    else
      var q := Find(t, ')');
      if q < 0 then Split([t], 0, 0) else CutPieces(t, q)
  }

  function OpenPieces(t: string): Split
    requires t != []
  {
    var k := Leading(t, '(');
    Split(Copies(Open, k) + (if |t| > 1 then [t[k..]] else []), k, 0)
  }

  function ClosePieces(t: string): Split
  {
    var k := Trailing(t, ')');
    Split(Unless(t[..|t| - k]) + Copies(Close, k), 0, k)
  }

  function CutPieces(t: string, q: nat): Split
    requires q < |t|
  {
    var rest := t[q + 1..];
    var c := Leading(rest, ')');
    var o := Leading(rest[c..], '(');
    Split(CutList(t[..q], rest, c, o), o, 1 + c)
  }

  /** The tokens of a word cut at a ")" with `a` before it and `rest`
      after it, where `rest` starts with `c` more ")" and then `o` "(". */
  function CutList(a: string, rest: string, c: nat, o: nat): seq<string>
    requires c + o <= |rest|
  {
    Unless(a) + Copies(Close, 1 + c) + Copies(Open, o) + Unless(rest[c + o..])
  }

  /** The tokens of the words, in order, with the counts added up. */
  function ReadPieces(ws: seq<string>): (r: Split)
    requires forall i :: 0 <= i < |ws| ==> ws[i] != []
  {
    if ws == [] then Split([], 0, 0)
    else
      var init := ReadPieces(ws[..|ws| - 1]);
      var last := TokenPieces(ws[|ws| - 1]);
      Split(init.pieces + last.pieces, init.opens + last.opens, init.closes + last.closes)
  }

  /** "ROOT" goes in as the label of an unlabelled outermost bracket. */
  function InsertRoot(vec: seq<string>): (r: seq<string>)
    ensures |r| >= 2 ==> r[1] != Open
    ensures r == vec || (|vec| >= 2 && vec[1] == Open && r == vec[..1] + [RootLabel] + vec[1..])
  {
    if |vec| >= 2 && vec[1] == Open then vec[..1] + [RootLabel] + vec[1..] else vec
  }

  /** The tokens of a line: none for a blank line. */
  function Tokenized(line: string): seq<string>
  {
    var core := Core(line);
    if core == [] then [] else InsertRoot(ReadPieces(Words(core)).pieces)
  }

  /** What the reader needs of a line that is not blank: it starts with a
      bracket (otherwise the counters are read uninitialised, and a line
      starting with '<' is re-examined forever), and the bracket counts
      agree (the reader asserts it). */
  predicate Balanced(line: string)
  {
    var core := Core(line);
    core == [] || (core[0] == '(' && ReadPieces(Words(core)).opens == ReadPieces(Words(core)).closes)
  }

  method ReadSyntactic(line: string) returns (vec: seq<string>)
    requires Plain(line) && Balanced(line)
    ensures vec == Tokenized(line)
  {
    vec := [];
    var n := TrimmedLength(line);
    var t := line[..n];
    if t == [] {
      return;
    }
    var a := FirstNonLow(t);
    var ws := Words(t[a..]);
    var left: nat, right: nat := 0, 0;
    for i := 0 to |ws|
      invariant ReadPieces(ws[..i]) == Split(vec, left, right)
    {
      var sp := TokenPieces(ws[i]);
      ReadPiecesStep(ws, i);
      vec := vec + sp.pieces;
      left := left + sp.opens;
      right := right + sp.closes;
    }
    assert ws[..|ws|] == ws;
    assert left == right;
    vec := InsertRoot(vec);
  }

  /** The trailing white space and control characters are cut off. */
  method TrimmedLength(line: string) returns (n: nat)
    ensures n == TrimEnd(line)
  {
    n := |line|;
    assert line[..n] == line;
    while n > 0 && IsLow(line[n - 1])
      invariant 0 <= n <= |line| && TrimEnd(line[..n]) == TrimEnd(line)
    {
      assert line[..n][..n - 1] == line[..n - 1];
      n := n - 1;
    }
  }

  /** The leading ones are skipped; the last character is not one of
      them, so the scan stops inside the string. */
  method FirstNonLow(t: string) returns (a: nat)
    requires t != [] && !IsLow(t[|t| - 1])
    ensures a == SkipLow(t)
  {
    a := 0;
    while IsLow(t[a])
      invariant 0 <= a < |t| && forall k :: 0 <= k < a ==> IsLow(t[k])
      decreases |t| - a
    {
      a := a + 1;
    }
  }

  lemma ReadPiecesStep(ws: seq<string>, i: nat)
    requires i < |ws| && forall k :: 0 <= k < |ws| ==> ws[k] != []
    ensures var r := ReadPieces(ws[..i]);
      var t := TokenPieces(ws[i]);
      ReadPieces(ws[..i + 1]) == Split(r.pieces + t.pieces, r.opens + t.opens, r.closes + t.closes)
  {
    assert ws[..i + 1][..i] == ws[..i];
  }

  lemma FlattenAppend(a: seq<string>, b: seq<string>)
    ensures Flatten(a + b) == Flatten(a) + Flatten(b)
  {
    if a != [] {
      assert (a + b)[0] == a[0] && (a + b)[1..] == a[1..] + b;
      FlattenAppend(a[1..], b);
      assert a[0] + (Flatten(a[1..]) + Flatten(b)) == (a[0] + Flatten(a[1..])) + Flatten(b);
    } else {
      assert a + b == b;
    }
  }

  lemma FlattenCopies(c: char, k: nat)
    ensures Flatten(Copies([c], k)) == Run(c, k)
  {
    if k > 0 {
      FlattenAppend(Copies([c], k - 1), [[c]]);
      assert Flatten([[c]]) == [c];
    }
  }

  /** A word is cut into tokens without losing or adding a character. */
  lemma TokenPiecesLossless(t: string)
    requires t != []
    ensures Flatten(TokenPieces(t).pieces) == t
  {
    if t[0] == '(' {
      OpensLossless(t);
    } else if t[|t| - 1] == ')' {
      ClosesLossless(t);
    } else {
      InnerCloseLossless(t);
    }
  }

  lemma OpensLossless(t: string)
    requires t != [] && t[0] == '('
    ensures Flatten(OpenPieces(t).pieces) == t
  {
    var k := Leading(t, '(');
    RunIs(t[..k], '(');
    if |t| > 1 {
      OpensThenRest(k, t[k..]);
      assert t == t[..k] + t[k..];
    } else {
      assert k == 1 && t[..k] == t;
      FlattenCopies('(', k);
      assert Copies(Open, k) + [] == Copies(Open, k);
    }
  }

  lemma OpensThenRest(k: nat, r: string)
    ensures Flatten(Copies(Open, k) + [r]) == Run('(', k) + r
  {
    FlattenCopies('(', k);
    FlattenUnless(r);
    if r == [] {
      assert Flatten([r]) == r + Flatten([]);
    }
    FlattenAppend(Copies(Open, k), [r]);
  }

  lemma ClosesLossless(t: string)
    requires t != [] && t[|t| - 1] == ')'
    ensures Flatten(ClosePieces(t).pieces) == t
  {
    var k := Trailing(t, ')');
    var w, r := t[..|t| - k], t[|t| - k..];
    RunIs(r, ')');
    WordThenCloses(w, k);
    assert t == w + r;
  }

  lemma WordThenCloses(w: string, k: nat)
    ensures Flatten(Unless(w) + Copies(Close, k)) == w + Run(')', k)
  {
    FlattenCopies(')', k);
    FlattenUnless(w);
    FlattenAppend(Unless(w), Copies(Close, k));
  }

  lemma InnerCloseLossless(t: string)
    requires t != [] && t[0] != '(' && t[|t| - 1] != ')'
    ensures Flatten(TokenPieces(t).pieces) == t
  {
    var q := Find(t, ')');
    if q < 0 {
      assert Flatten([t]) == t + Flatten([]);
    } else {
      CutPiecesLossless(t, q);
    }
  }

  lemma FlattenUnless(w: string)
    ensures Flatten(Unless(w)) == w
  {
    if w != [] {
      assert Flatten([w]) == w + Flatten([]);
    }
  }

  lemma RunIs(s: string, c: char)
    requires forall i :: 0 <= i < |s| ==> s[i] == c
    ensures s == Run(c, |s|)
  {
  }

  lemma CutPiecesLossless(t: string, q: nat)
    requires q < |t| && t[q] == ')'
    ensures Flatten(CutPieces(t, q).pieces) == t
  {
    var rest := t[q + 1..];
    var c := Leading(rest, ')');
    var o := Leading(rest[c..], '(');
    CutLossless(t[..q], rest, c, o);
    CutAt(t, q);
  }

  lemma CutAt(t: string, q: nat)
    requires q < |t| && t[q] == ')'
    ensures t == t[..q] + ([')'] + t[q + 1..])
  {
    Decompose3(t, q, q + 1);
    assert t[q..q + 1] == [')'];
  }

  lemma CutLossless(a: string, rest: string, c: nat, o: nat)
    requires c == Leading(rest, ')') && o == Leading(rest[c..], '(')
    ensures Flatten(CutList(a, rest, c, o)) == a + ([')'] + rest)
  {
    var p1, p2, p3, p4 := Unless(a), Copies(Close, 1 + c), Copies(Open, o), Unless(rest[c + o..]);
    FlattenFour(p1, p2, p3, p4);
    FlattenCopies(')', 1 + c);
    FlattenCopies('(', o);
    FlattenUnless(a);
    FlattenUnless(rest[c + o..]);
    RunsOf(rest, c, o);
  }

  lemma FlattenFour(p1: seq<string>, p2: seq<string>, p3: seq<string>, p4: seq<string>)
    ensures Flatten(p1 + p2 + p3 + p4) == Flatten(p1) + (Flatten(p2) + (Flatten(p3) + Flatten(p4)))
  {
    assert p1 + p2 + p3 + p4 == p1 + (p2 + (p3 + p4));
    FlattenAppend(p1, p2 + (p3 + p4));
    FlattenAppend(p2, p3 + p4);
    FlattenAppend(p3, p4);
  }

  lemma RunsOf(rest: string, c: nat, o: nat)
    requires c == Leading(rest, ')') && o == Leading(rest[c..], '(')
    ensures [')'] + rest == Run(')', 1 + c) + (Run('(', o) + rest[c + o..])
  {
    RunIs([')'] + rest[..c], ')');
    RunIs(rest[c..c + o], '(');
    Decompose3(rest, c, c + o);
  }

  lemma Decompose3(s: string, i: nat, j: nat)
    requires i <= j <= |s|
    ensures s == s[..i] + s[i..j] + s[j..]
  {
  }

  /** The tokens of all the words, put back together, are the words put
      together. */
  lemma {:induction false} ReadPiecesLossless(ws: seq<string>)
    requires forall i :: 0 <= i < |ws| ==> ws[i] != []
    ensures Flatten(ReadPieces(ws).pieces) == Flatten(ws)
  {
    if ws != [] {
      var init := ws[..|ws| - 1];
      ReadPiecesLossless(init);
      TokenPiecesLossless(ws[|ws| - 1]);
      FlattenAppend(ReadPieces(init).pieces, TokenPieces(ws[|ws| - 1]).pieces);
      FlattenAppend(init, [ws[|ws| - 1]]);
      assert init + [ws[|ws| - 1]] == ws;
      assert Flatten([ws[|ws| - 1]]) == ws[|ws| - 1];
    }
  }

  lemma NoSpacesAppend(a: string, b: string)
    ensures NoSpaces(a + b) == NoSpaces(a) + NoSpaces(b)
  {
    if a != [] {
      var x := if IsSpace(a[0]) then [] else [a[0]];
      assert (a + b)[1..] == a[1..] + b && (a + b)[0] == a[0];
      NoSpacesAppend(a[1..], b);
      assert NoSpaces(a + b) == x + NoSpaces(a[1..] + b);
      assert NoSpaces(a) == x + NoSpaces(a[1..]);
      assert x + (NoSpaces(a[1..]) + NoSpaces(b)) == (x + NoSpaces(a[1..])) + NoSpaces(b);
    } else {
      assert a + b == b;
    }
  }

  lemma NoSpacesOfWord(w: string)
    requires forall k :: 0 <= k < |w| ==> !IsSpace(w[k])
    ensures NoSpaces(w) == w
  {
  }

  /** The words of a string, put together, are the string without its
      white space. */
  lemma {:induction false} WordsLossless(s: string)
    ensures Flatten(Words(s)) == NoSpaces(s)
    decreases |s|
  {
    if s != [] {
      if IsSpace(s[0]) {
        WordsLossless(s[1..]);
      } else {
        var n := WordLen(s);
        WordsLossless(s[n..]);
        assert s == s[..n] + s[n..];
        NoSpacesAppend(s[..n], s[n..]);
        NoSpacesOfWord(s[..n]);
        assert ([s[..n]] + Words(s[n..]))[1..] == Words(s[n..]);
      }
    }
  }

  /** Reading loses nothing but white space: the tokens of a line, without
      the inserted "ROOT", put back together are the line without its
      white space. */
  lemma TokenizedLossless(line: string)
    requires Core(line) != []
    ensures Flatten(ReadPieces(Words(Core(line))).pieces) == NoSpaces(Core(line))
    ensures Tokenized(line) == InsertRoot(ReadPieces(Words(Core(line))).pieces)
  {
    ReadPiecesLossless(Words(Core(line)));
    WordsLossless(Core(line));
  }

  lemma SpaceIsLow(c: char)
    requires IsSpace(c)
    ensures IsLow(c)
  {
  }

  lemma FirstWord(s: string)
    requires s != [] && !IsSpace(s[0])
    ensures Words(s) != [] && Words(s)[0][0] == s[0]
  {
    var n := WordLen(s);
    assert Words(s) == [s[..n]] + Words(s[n..]);
  }

  /** Every token counted as a bracket is a token of its own. */
  lemma PiecesCount(t: string)
    requires t != []
    ensures |TokenPieces(t).pieces| >= TokenPieces(t).opens + TokenPieces(t).closes
    ensures t[0] == '(' ==> TokenPieces(t).opens >= 1 && TokenPieces(t).pieces[0] == Open
  {
    if t[0] == '(' {
      assert |OpenPieces(t).pieces| >= OpenPieces(t).opens;
    } else if t[|t| - 1] == ')' {
      assert |ClosePieces(t).pieces| >= ClosePieces(t).closes;
    } else {
      var q := Find(t, ')');
      if q >= 0 {
        var rest := t[q + 1..];
        var c := Leading(rest, ')');
        var o := Leading(rest[c..], '(');
        assert |CutList(t[..q], rest, c, o)| >= 1 + c + o;
      }
    }
  }

  /** The tokens of the first words are a prefix of the tokens of all of
      them. */
  lemma {:induction false} ReadPiecesPrefix(ws: seq<string>, i: nat)
    requires i <= |ws| && forall k :: 0 <= k < |ws| ==> ws[k] != []
    ensures var r, p := ReadPieces(ws), ReadPieces(ws[..i]);
      |p.pieces| <= |r.pieces| && r.pieces[..|p.pieces|] == p.pieces && p.opens <= r.opens
  {
    if i == |ws| {
      assert ws[..i] == ws;
    } else {
      var init := ws[..|ws| - 1];
      ReadPiecesPrefix(init, i);
      assert init[..i] == ws[..i];
      var r, p := ReadPieces(init).pieces, ReadPieces(ws[..i]).pieces;
      assert (r + TokenPieces(ws[|ws| - 1]).pieces)[..|p|] == r[..|p|];
    }
  }

  /** There are at least as many tokens as counted brackets. */
  lemma {:induction false} ReadPiecesCount(ws: seq<string>)
    requires forall k :: 0 <= k < |ws| ==> ws[k] != []
    ensures |ReadPieces(ws).pieces| >= ReadPieces(ws).opens + ReadPieces(ws).closes
  {
    if ws != [] {
      ReadPiecesCount(ws[..|ws| - 1]);
      PiecesCount(ws[|ws| - 1]);
    }
  }

  /** The first word opens a bracket, so the first token is "(" and at
      least one bracket is counted. */
  lemma FirstPieces(ws: seq<string>)
    requires ws != [] && (forall k :: 0 <= k < |ws| ==> ws[k] != []) && ws[0][0] == '('
    ensures ReadPieces(ws).opens >= 1 && |ReadPieces(ws).pieces| >= 1 && ReadPieces(ws).pieces[0] == Open
  {
    ReadPiecesPrefix(ws, 1);
    PiecesCount(ws[0]);
    assert ws[..1] == [ws[0]];
    assert ReadPieces([ws[0]]).pieces == [] + TokenPieces(ws[0]).pieces;
  }

  lemma RootShape(vec: seq<string>)
    requires |vec| >= 2 && vec[0] == Open
    ensures var r := InsertRoot(vec); |r| >= 2 && r[0] == Open && r[1] != Open
  {
  }

  /** A line that is not blank gives at least two tokens: the opening
      bracket, and a label that is not another bracket. */
  lemma TokenizedShape(line: string)
    requires Balanced(line) && Core(line) != []
    ensures var vec := Tokenized(line);
      |vec| >= 2 && vec[0] == Open && vec[1] != Open
  {
    var core := Core(line);
    if IsSpace(core[0]) {
      SpaceIsLow(core[0]);
    }
    FirstWord(core);
    var ws := Words(core);
    FirstPieces(ws);
    ReadPiecesCount(ws);
    RootShape(ReadPieces(ws).pieces);
  }
}
