/** Word lattices (decoder/lattice.h): a sequence of positions, each with
    the arcs that leave it. */
module Lattices {
  /** One arc: a word label (`word`), a cost (an integer here) and the distance to the
      position it reaches. */
  datatype LatticeArc = LatticeArc(word: int, cost: int, dist2next: int)

  /** The arc built by the default constructor. */
  function DefaultArc(): (a: LatticeArc)
    ensures a.word == 0 && a.cost == 0 && a.dist2next == 0
  {
    LatticeArc(0, 0, 0)
  }

  /** The arcs of one position are those of a plain sentence: none, or one
      arc to the next position. */
  predicate LinearAt(arcs: seq<LatticeArc>)
  {
    |arcs| <= 1 && (|arcs| == 1 ==> arcs[0].dist2next == 1)
  }

  predicate Linear(arcs: seq<seq<LatticeArc>>)
  {
    forall p :: 0 <= p < |arcs| ==> LinearAt(arcs[p])
  }

  /** Every arc moves forward and lands on a position of the lattice or on
      its end: what the chart parser needs of its input. */
  predicate WellFormed(arcs: seq<seq<LatticeArc>>)
  {
    forall p, k :: 0 <= p < |arcs| && 0 <= k < |arcs[p]| ==>
      1 <= arcs[p][k].dist2next && p + arcs[p][k].dist2next <= |arcs|
  }

  /** A sentence-shaped lattice is one the parser accepts. */
  lemma LinearIsWellFormed(arcs: seq<seq<LatticeArc>>)
    requires Linear(arcs)
    ensures WellFormed(arcs)
  {
    forall p, k | 0 <= p < |arcs| && 0 <= k < |arcs[p]|
      ensures 1 <= arcs[p][k].dist2next && p + arcs[p][k].dist2next <= |arcs|
    {
      assert LinearAt(arcs[p]);
    }
  }

  /** Linearity is a property of each position: it splits over concatenation. */
  lemma LinearAppend(a: seq<seq<LatticeArc>>, b: seq<seq<LatticeArc>>)
    ensures Linear(a + b) <==> Linear(a) && Linear(b)
  {
    if Linear(a + b) {
      forall p | 0 <= p < |a| ensures LinearAt(a[p]) { assert (a + b)[p] == a[p]; }
      forall p | 0 <= p < |b| ensures LinearAt(b[p]) { assert (a + b)[|a| + p] == b[p]; }
    }
    if Linear(a) && Linear(b) {
      forall p | 0 <= p < |a + b| ensures LinearAt((a + b)[p]) {
        if p < |a| { assert (a + b)[p] == a[p]; } else { assert (a + b)[p] == b[p - |a|]; }
      }
    }
  }

  class Lattice {
    const arcs: seq<seq<LatticeArc>>
    /** The distance table; empty when it was never computed. */
    const dist: seq<seq<int>>
    /** The cached answer of IsSentence. */
    var isSentence: bool

    constructor (arcs: seq<seq<LatticeArc>>, dist: seq<seq<int>>)
      ensures this.arcs == arcs && this.dist == dist && !isSentence
    {
      this.arcs := arcs;
      this.dist := dist;
      isSentence := false;
    }

    predicate HasDistance(from: int, to: int)
    {
      |dist| == 0 || (0 <= from < |dist| && 0 <= to < |dist[from]|)
    }

    /** The table, when present, covers every pair of positions 0..size-1. */
    predicate DistanceCovers(size: int)
    {
      |dist| == 0 || (|dist| == size && forall r :: 0 <= r < size ==> |dist[r]| == size)
    }

    /** Without a table the distance is the number of positions between. */
    function Distance(from: int, to: int): (d: int)
      requires HasDistance(from, to)
      ensures |dist| == 0 ==> from + d == to
      ensures |dist| != 0 ==> d == dist[from][to]
    {
      if |dist| == 0 then to - from else dist[from][to]
    }

    /** Early-exit scan over the positions. */
    method IsLinear() returns (b: bool)
      ensures b == Linear(arcs)
    {
      var p := 0;
      while p < |arcs|
        invariant 0 <= p <= |arcs|
        invariant forall q :: 0 <= q < p ==> LinearAt(arcs[q])
      {
        if |arcs[p]| > 1 {
          return false;
        } else if |arcs[p]| == 1 && arcs[p][0].dist2next != 1 {
          return false;
        }
        p := p + 1;
      }
      return true;
    }

    /** Returns the cached flag; with `update` a false flag is recomputed
        first, so a flag once true stays true. */
    method IsSentence(update: bool) returns (b: bool)
      modifies this`isSentence
      ensures b == isSentence
      ensures !update ==> isSentence == old(isSentence)
      ensures update ==> isSentence == (old(isSentence) || Linear(arcs))
    {
      if update && !isSentence {
        isSentence := IsLinear();
      }
      return isSentence;
    }
  }
}
