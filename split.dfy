/** The delimiter splitter `split_string` of decoder/bottom_up_parser.cc. */
module Splitting {

  /** Every piece between delimiters, empty ones included; there is always
      one more piece than there are delimiters. Built from the end, one
      character at a time, the way the splitter reads its input. */
  function SplitAll(s: string, d: char): (pieces: seq<string>)
    ensures |pieces| >= 1
  {
    if s == [] then [[]]
    else
      var init := SplitAll(s[..|s| - 1], d);
      if s[|s| - 1] == d then init + [[]]
      else init[..|init| - 1] + [init[|init| - 1] + [s[|s| - 1]]]
  }

  /** The inverse of SplitAll: the pieces put back with the delimiter between. */
  function Join(pieces: seq<string>, d: char): string
  {
    if pieces == [] then []
    else if |pieces| == 1 then pieces[0]
    else Join(pieces[..|pieces| - 1], d) + [d] + pieces[|pieces| - 1]
  }

  function NonEmpty(pieces: seq<string>): (r: seq<string>)
    ensures |r| <= |pieces|
  {
    if pieces == [] then []
    else NonEmpty(pieces[..|pieces| - 1]) + (if pieces[|pieces| - 1] == [] then [] else [pieces[|pieces| - 1]])
  }

  function Flatten(pieces: seq<string>): string
  {
    if pieces == [] then [] else Flatten(pieces[..|pieces| - 1]) + pieces[|pieces| - 1]
  }

  function Remove(s: string, d: char): string
  {
    if s == [] then [] else Remove(s[..|s| - 1], d) + (if s[|s| - 1] == d then [] else [s[|s| - 1]])
  }

  function Count(s: string, d: char): nat
  {
    if s == [] then 0 else Count(s[..|s| - 1], d) + (if s[|s| - 1] == d then 1 else 0)
  }

  /** The fields split_string produces: with `rep == 1` every delimiter closes
      a field (empty fields kept) and only an empty trailing remainder is
      dropped; with any other `rep` all empty fields are dropped. */
  function SplitFields(s: string, d: char, rep: int): seq<string>
  {
    var pieces := SplitAll(s, d);
    if rep == 1 then
      pieces[..|pieces| - 1] + (if pieces[|pieces| - 1] == [] then [] else [pieces[|pieces| - 1]])
    else NonEmpty(pieces)
  }

  lemma JoinExtendLast(init: seq<string>, d: char, c: char)
    requires |init| >= 1
    ensures Join(init[..|init| - 1] + [init[|init| - 1] + [c]], d) == Join(init, d) + [c]
  {
    var r := init[..|init| - 1] + [init[|init| - 1] + [c]];
    if |init| > 1 {
      assert r[..|r| - 1] == init[..|init| - 1];
    }
  }

  lemma JoinAddEmpty(init: seq<string>, d: char)
    requires |init| >= 1
    ensures Join(init + [[]], d) == Join(init, d) + [d]
  {
    var r := init + [[]];
    assert r[..|r| - 1] == init;
  }

  lemma {:induction false} JoinSplit(s: string, d: char)
    ensures Join(SplitAll(s, d), d) == s
  {
    if s != [] {
      var p := s[..|s| - 1];
      JoinSplit(p, d);
      assert p + [s[|s| - 1]] == s;
      if s[|s| - 1] != d {
        JoinExtendLast(SplitAll(p, d), d, s[|s| - 1]);
      } else {
        JoinAddEmpty(SplitAll(p, d), d);
      }
    }
  }

  lemma {:induction false} SplitPiecesHaveNoDelimiter(s: string, d: char)
    ensures forall k :: 0 <= k < |SplitAll(s, d)| ==> d !in SplitAll(s, d)[k]
    ensures |SplitAll(s, d)| == Count(s, d) + 1
  {
    if s != [] {
      SplitPiecesHaveNoDelimiter(s[..|s| - 1], d);
    }
  }

  lemma {:induction false} FlattenNonEmpty(pieces: seq<string>)
    ensures Flatten(NonEmpty(pieces)) == Flatten(pieces)
  {
    if pieces != [] {
      var init := pieces[..|pieces| - 1];
      FlattenNonEmpty(init);
      var last := pieces[|pieces| - 1];
      assert Flatten(pieces) == Flatten(init) + last;
      if last != [] {
        var r := NonEmpty(init) + [last];
        assert r[..|r| - 1] == NonEmpty(init);
        assert Flatten(r) == Flatten(NonEmpty(init)) + last;
      } else {
        assert NonEmpty(pieces) == NonEmpty(init);
      }
    }
  }

  lemma {:induction false} FlattenSplitAll(s: string, d: char)
    ensures Flatten(SplitAll(s, d)) == Remove(s, d)
  {
    if s != [] {
      var p := s[..|s| - 1];
      FlattenSplitAll(p, d);
      var init := SplitAll(p, d);
      if s[|s| - 1] == d {
        var r := init + [[]];
        assert r[..|r| - 1] == init;
      } else {
        var r := init[..|init| - 1] + [init[|init| - 1] + [s[|s| - 1]]];
        assert r[..|r| - 1] == init[..|init| - 1];
        if |init| > 1 {
          assert Flatten(init) == Flatten(init[..|init| - 1]) + init[|init| - 1];
        } else {
          assert init[..0] == [];
        }
      }
    }
  }

  lemma {:induction false} NonEmptyFields(pieces: seq<string>)
    ensures forall k :: 0 <= k < |NonEmpty(pieces)| ==> NonEmpty(pieces)[k] != [] && NonEmpty(pieces)[k] in pieces
  {
    if pieces != [] {
      NonEmptyFields(pieces[..|pieces| - 1]);
    }
  }

  /** With repeated delimiters ignored, the fields are non-empty, free of the
      delimiter, and together hold exactly the non-delimiter characters. */
  lemma DropModeFields(s: string, d: char, rep: int)
    requires rep != 1
    ensures forall k :: 0 <= k < |SplitFields(s, d, rep)| ==>
      SplitFields(s, d, rep)[k] != [] && d !in SplitFields(s, d, rep)[k]
    ensures Flatten(SplitFields(s, d, rep)) == Remove(s, d)
  {
    NonEmptyFields(SplitAll(s, d));
    SplitPiecesHaveNoDelimiter(s, d);
    FlattenNonEmpty(SplitAll(s, d));
    FlattenSplitAll(s, d);
  }

  /** With `rep == 1` the fields joined by the delimiter give back the input,
      except for one trailing delimiter, and there is one field per
      delimiter plus one for a non-empty remainder. */
  lemma KeepModeFields(s: string, d: char)
    ensures var f := SplitFields(s, d, 1);
      (|s| > 0 && s[|s| - 1] == d ==> |f| == Count(s, d) && Join(f + [[]], d) == s) &&
      (|s| == 0 || s[|s| - 1] != d ==> |f| == Count(s, d) + (if s == [] then 0 else 1) && (s != [] ==> Join(f, d) == s))
  {
    JoinSplit(s, d);
    SplitPiecesHaveNoDelimiter(s, d);
    var pieces := SplitAll(s, d);
    if |s| > 0 && s[|s| - 1] == d {
      assert pieces == SplitAll(s[..|s| - 1], d) + [[]];
      assert SplitFields(s, d, 1) + [[]] == pieces;
    } else if s != [] {
      var init := SplitAll(s[..|s| - 1], d);
      assert pieces[|pieces| - 1] == init[|init| - 1] + [s[|s| - 1]];
      assert SplitFields(s, d, 1) == pieces;
    }
  }

  /** split_string: the fields and their number. The output vector is always
      produced here; the count does not depend on it. */
  method SplitString(str: string, delim: char, rep: int) returns (flds: seq<string>, count: int)
    ensures flds == SplitFields(str, delim, rep)
    ensures count == |flds|
  {
    flds := [];
    var buf: string := [];
    var i := 0;
    count := 0;
    ghost var closed: seq<string> := [];
    while i < |str|
      invariant 0 <= i <= |str|
      invariant SplitAll(str[..i], delim) == closed + [buf]
      invariant flds == if rep == 1 then closed else NonEmpty(closed)
      invariant count == |flds|
    {
      assert str[..i + 1][..i] == str[..i];
      if str[i] != delim {
        buf := buf + [str[i]];
      } else if rep == 1 {
        flds := flds + [buf];
        closed := closed + [buf];
        buf := [];
        count := count + 1;
      } else if |buf| > 0 {
        flds := flds + [buf];
        closed := closed + [buf];
        buf := [];
        count := count + 1;
      } else {
        closed := closed + [buf];
      }
      i := i + 1;
    }
    assert str[..i] == str;
    if buf != [] {
      flds := flds + [buf];
      count := count + 1;
    }
  }
}
