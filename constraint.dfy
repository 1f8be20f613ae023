/** The syntactic span mask `SyntacticConstraint` of
    decoder/bottom_up_parser.cc. The source keeps the len x len mask in a
    row-major char buffer indexed by `x * len + y`; here it is a
    two-dimensional array indexed by `x, y`. */
module SyntacticConstraints {
  import opened Decimal
  import opened Splitting

  /** The characters C's `isspace` accepts in the "C" locale. */
  predicate IsCSpace(c: char)
  {
    c == ' ' || c == '\t' || c == '\n' || c == '\U{B}' || c == '\U{C}' || c == '\r'
  }

  /** The longest prefix made of decimal digits. */
  function LeadingDigits(s: string): (r: string)
    ensures AllDigits(r) && r <= s
    ensures |r| < |s| ==> !IsDigit(s[|r|])
  {
    if s != [] && IsDigit(s[0]) then [s[0]] + LeadingDigits(s[1..]) else []
  }

  /** C's `atoi`: leading white space, an optional sign, then as many digits
      as follow; no digits reads as 0. Overflow is not modelled. */
  function Atoi(s: string): int
  {
    if s != [] && IsCSpace(s[0]) then Atoi(s[1..])
    else if s != [] && s[0] == '-' then 0 - DigitsValue(LeadingDigits(s[1..]))
    else if s != [] && s[0] == '+' then DigitsValue(LeadingDigits(s[1..]))
    else DigitsValue(LeadingDigits(s))
  }

  lemma {:induction false} AtoiWithoutMinus(s: string)
    requires '-' !in s
    ensures Atoi(s) >= 0
  {
    if s != [] && IsCSpace(s[0]) {
      assert '-' !in s[1..] by { forall k | 0 <= k < |s[1..]| ensures s[1..][k] != '-' { assert s[1..][k] == s[k + 1]; } }
      AtoiWithoutMinus(s[1..]);
    }
  }

  /** Position of the first '-' of an item (`find('-', 0)`). */
  function DashAt(item: string): (t: nat)
    requires '-' in item
    ensures t < |item| && item[t] == '-' && '-' !in item[..t]
  {
    if item[0] == '-' then 0
    else
      assert '-' in item[1..] by {
        var k :| 0 <= k < |item| && item[k] == '-';
        assert item[1..][k - 1] == '-';
      }
      var t := 1 + DashAt(item[1..]);
      assert item[..t] == [item[0]] + item[1..][..t - 1];
      t
  }

  /** First column of an `a-b` item, and one past its last column. */
  function RangeStart(item: string): int
    requires '-' in item
  {
    Atoi(item[..DashAt(item)])
  }

  function RangeEnd(item: string): int
    requires '-' in item
  {
    Atoi(item[DashAt(item) + 1..]) + 1
  }

  /** The `;`-separated groups, one per row; empty groups are kept. */
  function Groups(constraints: string): seq<string>
  {
    SplitFields(constraints, ';', 1)
  }

  /** The `,`-separated items of one group; empty items are dropped. */
  function Items(group: string): seq<string>
  {
    SplitFields(group, ',', 0)
  }

  /** Item `k` allows column k; item `a-b` allows columns a through b. */
  predicate Covers(item: string, y: int)
  {
    if '-' !in item then Atoi(item) == y else RangeStart(item) <= y < RangeEnd(item)
  }

  /** Cell (x, y) as set by the first `m` items of row x. */
  predicate AllowedUpTo(groups: seq<string>, x: int, y: int, m: int)
    requires 0 <= x < |groups|
  {
    x == y || exists jj :: 0 <= jj < m && jj < |Items(groups[x])| && Covers(Items(groups[x])[jj], y)
  }

  /** Cell (x, y) of the mask: the diagonal, plus what row x's items name. */
  predicate Allowed(groups: seq<string>, x: int, y: int)
    requires 0 <= x < |groups|
  {
    AllowedUpTo(groups, x, y, |Items(groups[x])|)
  }

  lemma AllowedUpToStep(groups: seq<string>, x: int, y: int, m: int)
    requires 0 <= x < |groups| && 0 <= m < |Items(groups[x])|
    ensures AllowedUpTo(groups, x, y, m + 1) <==> AllowedUpTo(groups, x, y, m) || Covers(Items(groups[x])[m], y)
  {
  }

  /** Every column an item names lies inside the mask. */
  predicate ItemInRange(item: string, len: int)
  {
    if '-' !in item then Atoi(item) < len
    else RangeStart(item) < RangeEnd(item) ==> 0 <= RangeStart(item) && RangeEnd(item) <= len
  }

  /** What the constructor demands: one group per row (the source asserts
      it), and no item naming a column outside the mask. */
  predicate WellFormedConstraints(constraints: string, len: int)
  {
    var groups := Groups(constraints);
    |groups| == len &&
    forall i, j :: 0 <= i < |groups| && 0 <= j < |Items(groups[i])| ==> ItemInRange(Items(groups[i])[j], len)
  }

  /** The mask is the diagonal plus exactly the cells the items name. */
  lemma AllowedCells(groups: seq<string>, x: int, y: int)
    requires 0 <= x < |groups|
    ensures Allowed(groups, x, x)
    ensures Allowed(groups, x, y) <==>
      x == y || exists item :: item in Items(groups[x]) && Covers(item, y)
  {
    if exists item :: item in Items(groups[x]) && Covers(item, y) {
      var item :| item in Items(groups[x]) && Covers(item, y);
      var jj :| 0 <= jj < |Items(groups[x])| && Items(groups[x])[jj] == item;
    }
  }

  class SyntacticConstraint {
    const len: nat
    const cells: array2<bool>

    ghost predicate Valid()
    {
      cells.Length0 == len && cells.Length1 == len
    }

    constructor (constraints: string, len: nat)
      requires WellFormedConstraints(constraints, len)
      ensures this.len == len && Valid() && fresh(cells)
      ensures forall x, y :: 0 <= x < len && 0 <= y < len ==>
        cells[x, y] == Allowed(Groups(constraints), x, y)
    {
      this.len := len;
      cells := new bool[len, len]((x, y) => false);
      new;
      SetConstraints(constraints);
    }

    /** Asserts both indices lie inside the mask. */
    function GetConstraint(x: int, y: int): bool
      reads cells
      requires Valid() && 0 <= x < len && 0 <= y < len
    {
      cells[x, y]
    }

    method SetConstraints(constraints: string)
      requires Valid() && WellFormedConstraints(constraints, len)
      modifies cells
      ensures forall x, y :: 0 <= x < len && 0 <= y < len ==>
        cells[x, y] == (old(cells[x, y]) || Allowed(Groups(constraints), x, y))
    {
      var vec, count := SplitString(constraints, ';', 1);
      var i := 0;
      while i < |vec|
        invariant 0 <= i <= |vec| == len
        invariant forall x, y :: 0 <= x < len && 0 <= y < len ==>
          cells[x, y] == (old(cells[x, y]) || (x < i && Allowed(vec, x, y)))
      {
        cells[i, i] := true;
        var item, _ := SplitString(vec[i], ',', 0);
        assert vec == Groups(constraints) && item == Items(vec[i]);
        var j := 0;
        while j < |item|
          invariant 0 <= j <= |item|
          invariant forall x, y :: 0 <= x < len && 0 <= y < len ==>
            cells[x, y] == (old(cells[x, y]) || (x < i && Allowed(vec, x, y)) || (x == i && AllowedUpTo(vec, i, y, j)))
        {
          assert ItemInRange(item[j], len);
          if '-' !in item[j] {
            AtoiWithoutMinus(item[j]);
            cells[i, Atoi(item[j])] := true;
          } else {
            var t := DashAt(item[j]);
            var start := Atoi(item[j][..t]);
            var end := Atoi(item[j][t + 1..]) + 1;
            var k := start;
            while k < end
              invariant k == start || start < k <= end
              invariant forall x, y :: 0 <= x < len && 0 <= y < len ==>
                cells[x, y] == (old(cells[x, y]) || (x < i && Allowed(vec, x, y)) ||
                  (x == i && (AllowedUpTo(vec, i, y, j) || start <= y < k)))
            {
              cells[i, k] := true;
              k := k + 1;
            }
            assert start == RangeStart(item[j]) && end == RangeEnd(item[j]);
            assert forall y :: (start <= y < k) <==> Covers(item[j], y);
          }
          assert forall x, y :: 0 <= x < len && 0 <= y < len ==>
            cells[x, y] == (old(cells[x, y]) || (x < i && Allowed(vec, x, y)) ||
              (x == i && (AllowedUpTo(vec, i, y, j) || Covers(item[j], y))));
          forall y | 0 <= y < len
            ensures AllowedUpTo(vec, i, y, j + 1) <==> AllowedUpTo(vec, i, y, j) || Covers(item[j], y)
          {
            AllowedUpToStep(vec, i, y, j);
          }
          j := j + 1;
        }
        i := i + 1;
      }
    }
  }
}
