/** The n-best list cleaner: each line "id ||| hypothesis ||| features |||
    score" loses its features field. The text operations are those of
    Python 2 strings: `replace` (non-overlapping, left to right), `split`
    on a separator (empty fields kept), and `strip` of ASCII whitespace. */
module CleanNbest {
  import opened Wrappers

  const Sep: string := " ||| "
  /** Two separators sharing a space: an empty field. */
  const Doubled: string := " ||| ||| "
  /** The same with the space doubled, so that `split` sees both. */
  const Padded: string := " |||  ||| "

  /** `pat` occurs in `s` at index j. */
  predicate IsAt(s: string, pat: string, j: nat)
  {
    j + |pat| <= |s| && s[j..j + |pat|] == pat
  }

  /** The first occurrence of `pat` in `s` at or after index i. */
  function FindFrom(s: string, pat: string, i: nat): (r: Option<nat>)
    requires i <= |s|
    ensures r.Some? ==> i <= r.value && IsAt(s, pat, r.value) && forall j :: i <= j < r.value ==> !IsAt(s, pat, j)
    ensures r.None? ==> forall j :: i <= j ==> !IsAt(s, pat, j)
    decreases |s| - i
  {
    if IsAt(s, pat, i) then Some(i)
    else if i == |s| then None
    else FindFrom(s, pat, i + 1)
  }

  /** A known occurrence with none before it is the one found. */
  lemma {:induction false} FindFromIs(s: string, pat: string, i: nat, k: nat)
    requires i <= k <= |s| && IsAt(s, pat, k)
    requires forall j :: i <= j < k ==> !IsAt(s, pat, j)
    ensures FindFrom(s, pat, i) == Some(k)
    decreases k - i
  {
    if i < k {
      FindFromIs(s, pat, i + 1, k);
    }
  }

  /** Python's `s.replace(pat, rep)`: occurrences are replaced from left to
      right, and a replaced occurrence is not searched again. */
  function ReplaceAll(s: string, pat: string, rep: string): string
    requires |pat| > 0
    decreases |s|
  {
    if |s| < |pat| then s
    else if s[..|pat|] == pat then rep + ReplaceAll(s[|pat|..], pat, rep)
    else [s[0]] + ReplaceAll(s[1..], pat, rep)
  }

  /** A string without the pattern is left as it is. */
  lemma {:induction false} ReplaceAbsent(s: string, pat: string, rep: string)
    requires |pat| > 0 && forall j :: !IsAt(s, pat, j)
    ensures ReplaceAll(s, pat, rep) == s
    decreases |s|
  {
    if |s| >= |pat| {
      assert !IsAt(s, pat, 0);
      forall j: nat
        ensures !IsAt(s[1..], pat, j)
      {
        if j + |pat| <= |s[1..]| {
          assert s[1..][j..j + |pat|] == s[j + 1..j + 1 + |pat|];
          assert !IsAt(s, pat, j + 1);
        }
      }
      ReplaceAbsent(s[1..], pat, rep);
      assert s == [s[0]] + s[1..];
    }
  }

  /** Python's `s.split(sep)`: the text between consecutive occurrences
      of `sep`, found from left to right; empty fields are kept. */
  function SplitOn(s: string, sep: string): (parts: seq<string>)
    requires |sep| > 0
    ensures |parts| >= 1
    decreases |s|
  {
    match FindFrom(s, sep, 0)
    case None => [s]
    case Some(k) => [s[..k]] + SplitOn(s[k + |sep|..], sep)
  }

  /** Python's `sep.join(parts)`. */
  function Join(parts: seq<string>, sep: string): string
  {
    if parts == [] then "" else if |parts| == 1 then parts[0] else parts[0] + sep + Join(parts[1..], sep)
  }

  /** Joining the fields of a split gives back the string. */
  lemma {:induction false} JoinSplit(s: string, sep: string)
    requires |sep| > 0
    ensures Join(SplitOn(s, sep), sep) == s
    decreases |s|
  {
    match FindFrom(s, sep, 0)
    case None =>
    case Some(k) =>
      var rest := s[k + |sep|..];
      var ps := SplitOn(rest, sep);
      JoinSplit(rest, sep);
      JoinCons(s[..k], ps, sep);
      assert s == s[..k] + s[k..k + |sep|] + rest;
  }

  lemma JoinCons(p: string, ps: seq<string>, sep: string)
    requires |ps| >= 1
    ensures Join([p] + ps, sep) == p + sep + Join(ps, sep)
  {
    assert ([p] + ps)[1..] == ps;
  }

  /** No field of a split holds the separator. */
  lemma {:induction false} SplitFieldsFree(s: string, sep: string)
    requires |sep| > 0
    ensures forall i, j :: 0 <= i < |SplitOn(s, sep)| ==> !IsAt(SplitOn(s, sep)[i], sep, j)
    decreases |s|
  {
    match FindFrom(s, sep, 0)
    case None =>
    case Some(k) =>
      var rest := s[k + |sep|..];
      SplitFieldsFree(rest, sep);
      forall j: nat
        ensures !IsAt(s[..k], sep, j)
      {
        if j + |sep| <= k {
          assert s[..k][j..j + |sep|] == s[j..j + |sep|];
          assert !IsAt(s, sep, j);
        }
      }
  }

  predicate PipeFree(s: string)
  {
    forall i :: 0 <= i < |s| ==> s[i] != '|'
  }

  /** A field without '|' is followed by the first separator after it. */
  lemma FirstSeparator(a: string, t: string)
    requires PipeFree(a)
    ensures FindFrom(a + Sep + t, Sep, 0) == Some(|a|)
  {
    var s := a + Sep + t;
    assert s[|a|..|a| + 5] == Sep;
    forall j | 0 <= j < |a|
      ensures !IsAt(s, Sep, j)
    {
      assert s[j + 1] != '|';
      assert j + 5 <= |s| ==> s[j..j + 5][1] == s[j + 1];
    }
    FindFromIs(s, Sep, 0, |a|);
  }

  lemma NoSeparator(a: string)
    requires PipeFree(a)
    ensures FindFrom(a, Sep, 0) == None
  {
    forall j: nat
      ensures !IsAt(a, Sep, j)
    {
      if j + 5 <= |a| {
        assert a[j..j + 5][1] == a[j + 1] != '|';
      }
    }
  }

  /** Splitting the join of fields without '|' gives back the fields. */
  lemma {:induction false} SplitJoin(parts: seq<string>)
    requires |parts| >= 1 && forall i :: 0 <= i < |parts| ==> PipeFree(parts[i])
    ensures SplitOn(Join(parts, Sep), Sep) == parts
    decreases |parts|
  {
    if |parts| == 1 {
      NoSeparator(parts[0]);
    } else {
      var t := Join(parts[1..], Sep);
      FirstSeparator(parts[0], t);
      var s := parts[0] + Sep + t;
      assert Join(parts, Sep) == s;
      assert s[..|parts[0]|] == parts[0] && s[|parts[0]| + 5..] == t;
      SplitJoin(parts[1..]);
      assert SplitOn(s, Sep) == [parts[0]] + parts[1..];
    }
  }

  /** No '|' is followed by a space and another '|'. */
  predicate NoPipeSpacePipe(s: string)
  {
    forall j :: 0 <= j && j + 2 < |s| ==> !(s[j] == '|' && s[j + 1] == ' ' && s[j + 2] == '|')
  }

  /** Joining non-empty fields without '|' never places two separators
      one space apart, so the line holds no empty-field pattern. */
  lemma {:induction false} JoinNoPipeSpacePipe(parts: seq<string>)
    requires |parts| >= 1
    requires forall i :: 0 <= i < |parts| ==> |parts[i]| > 0 && PipeFree(parts[i])
    ensures |Join(parts, Sep)| > 0 && Join(parts, Sep)[0] != '|'
    ensures NoPipeSpacePipe(Join(parts, Sep))
    decreases |parts|
  {
    if |parts| > 1 {
      var a := parts[0];
      var t := Join(parts[1..], Sep);
      JoinNoPipeSpacePipe(parts[1..]);
      var s := a + Sep + t;
      forall j | 0 <= j && j + 2 < |s|
        ensures !(s[j] == '|' && s[j + 1] == ' ' && s[j + 2] == '|')
      {
        if j + 2 < |a| + 5 {
          assert s[j] == '|' ==> |a| + 1 <= j <= |a| + 3;
        } else if j < |a| + 5 {
          assert j + 2 == |a| + 5 || j + 1 == |a| + 5;
          assert s[|a| + 5] == t[0];
        } else {
          assert s[j..j + 3] == t[j - |a| - 5..j - |a| - 2];
        }
      }
    }
  }

  lemma DoubledAbsent(s: string)
    requires NoPipeSpacePipe(s)
    ensures forall j :: !IsAt(s, Doubled, j)
  {
    forall j: nat
      ensures !IsAt(s, Doubled, j)
    {
      if j + 9 <= |s| {
        var w := s[j..j + 9];
        assert !(w[3] == '|' && w[4] == ' ' && w[5] == '|') by {
          assert s[j + 3] == w[3] && s[j + 4] == w[4] && s[j + 5] == w[5];
        }
      }
    }
  }

  /** Python 2's `strip()` whitespace. */
  predicate IsSpace(c: char)
  {
    c == ' ' || c == '\t' || c == '\n' || c == '\r' || c == '\U{0B}' || c == '\U{0C}'
  }

  function LeadingSpaces(s: string): (n: nat)
    ensures n <= |s| && (forall i :: 0 <= i < n ==> IsSpace(s[i])) && (n < |s| ==> !IsSpace(s[n]))
  {
    if s == [] || !IsSpace(s[0]) then 0 else 1 + LeadingSpaces(s[1..])
  }

  function TrailingSpaces(s: string): (n: nat)
    ensures n <= |s| && (forall i :: |s| - n <= i < |s| ==> IsSpace(s[i])) && (n < |s| ==> !IsSpace(s[|s| - n - 1]))
  {
    if s == [] || !IsSpace(s[|s| - 1]) then 0 else 1 + TrailingSpaces(s[..|s| - 1])
  }

  /** `s.strip()`: the text between the leading and the trailing
      whitespace; a string without either is returned as it is. */
  function Strip(s: string): (r: string)
    ensures r == [] || (!IsSpace(r[0]) && !IsSpace(r[|r| - 1]))
    ensures (s == [] || (!IsSpace(s[0]) && !IsSpace(s[|s| - 1]))) ==> r == s
    ensures forall i :: 0 <= i < |r| ==> r[i] in s
  {
    var t := s[LeadingSpaces(s)..];
    t[..|t| - TrailingSpaces(t)]
  }

  /** The fields of a line: the empty-field pattern is padded, the line is
      split on the separator, and each field is stripped. */
  function Fields(line: string): (fs: seq<string>)
    ensures |fs| >= 1
  {
    var parts := SplitOn(ReplaceAll(line, Doubled, Padded), Sep);
    seq(|parts|, i requires 0 <= i < |parts| => Strip(parts[i]))
  }

  /** The exception raised for a line without four fields: the number of
      fields, the line's number and its stripped text. */
  datatype BadLine = BadLine(count: nat, lineno: nat, text: string)

  /** One line: four fields give the first, second and fourth joined by
      the separator; any other count is an error. */
  function CleanLine(lineno: nat, line: string): (r: Result<string, BadLine>)
    ensures r.Failure? <==> |Fields(line)| != 4
    ensures r.Failure? ==> r.error.count == |Fields(line)| && r.error.lineno == lineno
  {
    var fs := Fields(line);
    if |fs| != 4 then Failure(BadLine(|fs|, lineno, Strip(line)))
    else Success(Join([fs[0], fs[1], fs[3]], Sep))
  }

  /** A line of four non-empty fields without '|' keeps its first, second
      and fourth fields, stripped, and loses the third. */
  lemma CleanFourFields(lineno: nat, a: string, b: string, c: string, d: string)
    requires |a| > 0 && |b| > 0 && |c| > 0 && |d| > 0
    requires PipeFree(a) && PipeFree(b) && PipeFree(c) && PipeFree(d)
    ensures CleanLine(lineno, Join([a, b, c, d], Sep)) == Success(Join([Strip(a), Strip(b), Strip(d)], Sep))
  {
    var parts := [a, b, c, d];
    var line := Join(parts, Sep);
    JoinNoPipeSpacePipe(parts);
    DoubledAbsent(line);
    ReplaceAbsent(line, Doubled, Padded);
    SplitJoin(parts);
    assert SplitOn(ReplaceAll(line, Doubled, Padded), Sep) == parts;
  }

  /** Replacing in a string whose first part holds no occurrence leaves
      that part and replaces in the rest. */
  lemma {:induction false} ReplaceAfter(x: string, y: string, pat: string, rep: string)
    requires |pat| > 0 && forall j :: 0 <= j < |x| ==> !IsAt(x + y, pat, j)
    ensures ReplaceAll(x + y, pat, rep) == x + ReplaceAll(y, pat, rep)
    decreases |x|
  {
    var s := x + y;
    if x == [] {
      assert s == y;
    } else if |s| < |pat| {
      assert ReplaceAll(y, pat, rep) == y;
    } else {
      assert !IsAt(s, pat, 0);
      assert s[..|pat|] != pat;
      forall j | 0 <= j < |x[1..]|
        ensures !IsAt(x[1..] + y, pat, j)
      {
        assert !IsAt(s, pat, j + 1);
        if j + |pat| <= |x[1..] + y| {
          assert (x[1..] + y)[j..j + |pat|] == s[j + 1..j + 1 + |pat|];
        }
      }
      assert s[1..] == x[1..] + y;
      ReplaceAfter(x[1..], y, pat, rep);
      assert x == [s[0]] + x[1..];
    }
  }

  /** Before an empty-field marker that follows text ending in something
      other than '|', and holding no '|' ' ' '|', there is no other marker. */
  lemma NoDoubledBefore(x: string, rest: string)
    requires |x| > 0 && x[|x| - 1] != '|' && NoPipeSpacePipe(x)
    ensures forall j :: 0 <= j < |x| ==> !IsAt(x + (Doubled + rest), Doubled, j)
  {
    var s := x + (Doubled + rest);
    forall j | 0 <= j < |x|
      ensures !IsAt(s, Doubled, j)
    {
      if j + 9 <= |s| {
        var k := |x| - j;
        if k >= 9 {
          assert !(x[j + 3] == '|' && x[j + 4] == ' ' && x[j + 5] == '|');
          assert s[j..j + 9][3] == x[j + 3] && s[j..j + 9][4] == x[j + 4] && s[j..j + 9][5] == x[j + 5];
        } else if k == 1 || k == 5 {
          assert s[j..j + 9][k] == s[|x|] == ' ';
        } else {
          assert s[j..j + 9][k - 1] == x[|x| - 1];
        }
      }
    }
  }

  /** The padding turns a line whose features field is written as the
      marker " ||| ||| " into the four fields joined, the third empty. */
  lemma PadEmptyFeatures(a: string, b: string, d: string)
    requires |a| > 0 && |b| > 0
    requires PipeFree(a) && PipeFree(b) && PipeFree(d)
    ensures ReplaceAll(a + Sep + b + Doubled + d, Doubled, Padded) == Join([a, b, "", d], Sep)
  {
    var x := a + Sep + b;
    assert [a, b][1..] == [b];
    assert Join([a, b], Sep) == x;
    JoinNoPipeSpacePipe([a, b]);
    assert x[|x| - 1] == b[|b| - 1];
    NoDoubledBefore(x, d);
    calc {
      ReplaceAll(a + Sep + b + Doubled + d, Doubled, Padded);
      { assert a + Sep + b + Doubled + d == x + (Doubled + d); }
      ReplaceAll(x + (Doubled + d), Doubled, Padded);
      { ReplaceAfter(x, Doubled + d, Doubled, Padded); }
      x + ReplaceAll(Doubled + d, Doubled, Padded);
      { ReplaceMarker(d); }
      x + (Padded + d);
      { assert x + (Padded + d) == a + Sep + b + Padded + d; JoinEmptyThird(a, b, d); }
      Join([a, b, "", d], Sep);
    }
  }

  /** The marker at the head of a string without '|' is padded. */
  lemma ReplaceMarker(d: string)
    requires PipeFree(d)
    ensures ReplaceAll(Doubled + d, Doubled, Padded) == Padded + d
  {
    assert (Doubled + d)[..9] == Doubled && (Doubled + d)[9..] == d;
    assert NoPipeSpacePipe(d);
    DoubledAbsent(d);
    ReplaceAbsent(d, Doubled, Padded);
  }

  /** Four fields, the third empty, joined: the padded marker between the
      second and the fourth. */
  lemma JoinEmptyThird(a: string, b: string, d: string)
    ensures Join([a, b, "", d], Sep) == a + Sep + b + Padded + d
  {
    var parts := [a, b, "", d];
    assert parts[1..] == [b, "", d] && [b, "", d][1..] == ["", d] && ["", d][1..] == [d];
    assert Join(["", d], Sep) == Sep + d;
    assert Padded == Sep + Sep;
  }

  /** A line whose features field is empty, written as the marker
      " ||| ||| ", is padded so that the split keeps the empty field: it
      keeps its first, second and fourth fields, stripped. */
  lemma CleanEmptyFeatures(lineno: nat, a: string, b: string, d: string)
    requires |a| > 0 && |b| > 0
    requires PipeFree(a) && PipeFree(b) && PipeFree(d)
    ensures CleanLine(lineno, a + Sep + b + Doubled + d) == Success(Join([Strip(a), Strip(b), Strip(d)], Sep))
  {
    PadEmptyFeatures(a, b, d);
    SplitJoin([a, b, "", d]);
    assert SplitOn(ReplaceAll(a + Sep + b + Doubled + d, Doubled, Padded), Sep) == [a, b, "", d];
  }

  /** A typical line, with the newline it is read with. */
  lemma CleanLineExample()
    ensures CleanLine(1, "0 ||| a b ||| F=1 ||| -2\n") == Success("0 ||| a b ||| -2")
  {
    ExampleJoins();
    CleanFourFields(1, "0", "a b", "F=1", "-2\n");
    StripExample();
  }

  lemma StripExample()
    ensures Strip("0") == "0" && Strip("a b") == "a b" && Strip("-2\n") == "-2"
  {
    StripNewline("-2");
    assert "-2" + ['\n'] == "-2\n";
  }

  /** A line read with its newline strips back to the clean text. */
  lemma StripNewline(s: string)
    requires s != [] && !IsSpace(s[0]) && !IsSpace(s[|s| - 1])
    ensures Strip(s + ['\n']) == s
  {
    var t := s + ['\n'];
    assert t[0] == s[0];
    assert t[..|t| - 1] == s;
    assert TrailingSpaces(t) == 1;
    assert t[0..] == t;
  }

  lemma ExampleJoins()
    ensures Join(["0", "a b", "F=1", "-2\n"], Sep) == "0 ||| a b ||| F=1 ||| -2\n"
    ensures Join(["0", "a b", "-2"], Sep) == "0 ||| a b ||| -2"
  {
    JoinThree("0", "a b", "-2");
    JoinThree("a b", "F=1", "-2\n");
    var four := ["0", "a b", "F=1", "-2\n"];
    assert four[1..] == ["a b", "F=1", "-2\n"];
  }

  lemma JoinThree(a: string, b: string, c: string)
    ensures Join([a, b, c], Sep) == a + Sep + b + Sep + c
  {
    assert [a, b, c][1..] == [b, c] && [b, c][1..] == [c];
    assert Join([c], Sep) == c;
    assert Join([b, c], Sep) == b + Sep + c;
    assert Join([a, b, c], Sep) == a + Sep + (b + Sep + c);
    assert a + Sep + (b + Sep + c) == a + Sep + b + Sep + c;
  }

  /** Lines from number `first` on, each through `clean`: the results
      up to the first error, and that error, if any. */
  function RunLines(lines: seq<string>, first: nat, clean: (nat, string) -> Result<string, BadLine>): (seq<string>, Option<BadLine>)
    decreases |lines|
  {
    if lines == [] then ([], None)
    else match clean(first, lines[0])
      case Failure(e) => ([], Some(e))
      case Success(out) =>
        var rest := RunLines(lines[1..], first + 1, clean);
        ([out] + rest.0, rest.1)
  }

  /** The run ends with no error exactly when every line is cleaned;
      otherwise the error is the first bad line's, numbered counting from
      `first`, and every line before it has been cleaned. */
  lemma {:induction false} RunStopsAtFirstBadLine(lines: seq<string>, first: nat, clean: (nat, string) -> Result<string, BadLine>)
    ensures var r := RunLines(lines, first, clean);
      |r.0| <= |lines| &&
      (forall i :: 0 <= i < |r.0| ==> clean(first + i, lines[i]) == Success(r.0[i])) &&
      (r.1.None? <==> |r.0| == |lines|) &&
      (r.1.Some? ==> clean(first + |r.0|, lines[|r.0|]) == Failure(r.1.value))
    decreases |lines|
  {
    if lines != [] && clean(first, lines[0]).Success? {
      var rest := RunLines(lines[1..], first + 1, clean);
      RunStopsAtFirstBadLine(lines[1..], first + 1, clean);
      var out := RunLines(lines, first, clean).0;
      assert out == [clean(first, lines[0]).value] + rest.0;
      forall i | 1 <= i < |out|
        ensures clean(first + i, lines[i]) == Success(out[i])
      {
        assert out[i] == rest.0[i - 1] && lines[i] == lines[1..][i - 1];
      }
      if rest.1.Some? {
        assert lines[|out|] == lines[1..][|rest.0|];
      }
    }
  }

  /** The whole file: lines are numbered from 1; an error names the
      first line without four fields, and the lines before it are out. */
  lemma CleanFile(lines: seq<string>)
    ensures var r := RunLines(lines, 1, CleanLine);
      |r.0| <= |lines| &&
      (forall i :: 0 <= i < |r.0| ==> |Fields(lines[i])| == 4 && CleanLine(i + 1, lines[i]) == Success(r.0[i])) &&
      (r.1.None? <==> |r.0| == |lines|) &&
      (r.1.Some? ==> (|r.0| < |lines| && |Fields(lines[|r.0|])| != 4 &&
        r.1.value == BadLine(|Fields(lines[|r.0|])|, |r.0| + 1, Strip(lines[|r.0|]))))
  {
    RunStopsAtFirstBadLine(lines, 1, CleanLine);
  }

  /** The read loop: lines are numbered from 1, each cleaned line is
      written out, and the first bad line raises the error. */
  method CleanLines(lines: seq<string>) returns (out: seq<string>, err: Option<BadLine>)
    ensures (out, err) == RunLines(lines, 1, CleanLine)
  {
    out := [];
    var lineno := 1;
    assert lines[0..] == lines;
    while lineno <= |lines|
      invariant 1 <= lineno <= |lines| + 1
      invariant RunLines(lines, 1, CleanLine).0 == out + RunLines(lines[lineno - 1..], lineno, CleanLine).0
      invariant RunLines(lines, 1, CleanLine).1 == RunLines(lines[lineno - 1..], lineno, CleanLine).1
    {
      var r := CleanLine(lineno, lines[lineno - 1]);
      ghost var rest := lines[lineno - 1..];
      assert rest[0] == lines[lineno - 1] && rest[1..] == lines[lineno..];
      if r.Failure? {
        assert RunLines(rest, lineno, CleanLine) == ([], Some(r.error));
        assert out + [] == out;
        return out, Some(r.error);
      }
      out := out + [r.value];
      lineno := lineno + 1;
    }
    assert lines[lineno - 1..] == [];
    assert out + [] == out;
    return out, None;
  }
}
