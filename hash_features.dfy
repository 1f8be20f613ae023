/** Hash features: a string hashed into WIDTH 32-bit blocks, each written
    as eight hexadecimal digits, least significant first, and the rule-hash
    feature named after the two-block hash of the rule's text. The 32-bit
    hash function is a parameter. */
module HashFeatures {
  import opened Forest
  import opened HexMap
  import opened RuleFeatures

  /** An unsigned 32-bit value, as the hash function returns it. */
  newtype u32 = x: int | 0 <= x < 0x1_0000_0000

  lemma Pow16Eight()
    ensures Pow16(8) == 0x1_0000_0000
  {
  }

  /** The eight digits of one block. */
  method EncodeBlock(h: u32) returns (buf: string)
    ensures buf == Nibbles(h as nat, 8)
    ensures NibblesValue(buf) == h as nat
  {
    buf := WriteNibbles(h as nat, 8);
    BlockValue(h);
  }

  /** The source writes the eight steps out one by one; each takes the low
      nibble's digit and shifts the value right by four bits. */
  method WriteNibbles(h0: nat, count: nat) returns (buf: string)
    ensures buf == Nibbles(h0, count)
  {
    var h := h0;
    buf := [];
    for k := 0 to count
      invariant buf + Nibbles(h, count - k) == Nibbles(h0, count)
    {
      NibbleStep(buf, h, count - k);
      buf := buf + [HexDigit(h % 16)];
      h := h / 16;
    }
  }

  lemma NibbleStep(done: string, h: nat, count: nat)
    requires count > 0
    ensures done + Nibbles(h, count) == (done + [HexDigit(h % 16)]) + Nibbles(h / 16, count - 1)
  {
    assert Nibbles(h, count) == [HexDigit(h % 16)] + Nibbles(h / 16, count - 1);
  }

  /** A block's eight digits read back as its value. */
  lemma BlockValue(h: u32)
    ensures NibblesValue(Nibbles(h as nat, 8)) == h as nat
  {
    Pow16Eight();
    NibblesRoundTrip(h as nat, 8);
  }

  /** The hashes of `input` with seeds 0 .. n-1. */
  function Hashes(input: string, murmur: (string, nat) -> u32, n: nat): (hs: seq<u32>)
    ensures |hs| == n && forall i :: 0 <= i < n ==> hs[i] == murmur(input, i)
  {
    if n == 0 then [] else Hashes(input, murmur, n - 1) + [murmur(input, n - 1)]
  }

  /** The digits of the blocks, one after another. */
  function HashBlocks(hs: seq<u32>): (s: string)
    ensures |s| == 8 * |hs|
  {
    if hs == [] then [] else HashBlocks(hs[..|hs| - 1]) + Nibbles(hs[|hs| - 1] as nat, 8)
  }

  /** Block i of the output reads back as hash i. */
  lemma HashBlocksDecode(hs: seq<u32>, i: nat)
    requires i < |hs|
    ensures NibblesValue(HashBlocks(hs)[8 * i .. 8 * i + 8]) == hs[i] as nat
  {
    BlockDigits(hs, i);
    BlockValueOf(HashBlocks(hs)[8 * i .. 8 * i + 8], hs[i]);
  }

  /** Block i of the output is the digits of hash i. */
  lemma BlockDigits(hs: seq<u32>, i: nat)
    requires i < |hs|
    ensures HashBlocks(hs)[8 * i .. 8 * i + 8] == Nibbles(hs[i] as nat, 8)
  {
    var lo := |HashBlocks(hs[..i])|;
    assert lo == 8 * i;
    BlockAt(hs, i);
  }

  lemma BlockValueOf(s: string, h: u32)
    requires s == Nibbles(h as nat, 8)
    ensures NibblesValue(s) == h as nat
  {
    BlockValue(h);
  }

  /** Block i of the output is the digits of hash i; it starts where the
      first i blocks end. */
  lemma BlockAt(hs: seq<u32>, i: nat)
    requires i < |hs|
    ensures var lo := |HashBlocks(hs[..i])|;
      lo + 8 <= |HashBlocks(hs)| &&
      HashBlocks(hs)[lo .. lo + 8] == Nibbles(hs[i] as nat, 8)
  {
    var p := HashBlocks(hs[..i]);
    var b := Nibbles(hs[i] as nat, 8);
    var q := HashBlocks(hs[..i + 1]);
    assert hs[..i + 1][..i] == hs[..i];
    assert q == p + b;
    BlocksPrefix(hs, i + 1);
    SliceOfPrefix(HashBlocks(hs), q, |p|, |p| + 8);
    SliceRight(p, b);
  }

  /** The blocks of a prefix of the hashes are a prefix of the blocks. */
  lemma {:induction false} BlocksPrefix(hs: seq<u32>, m: nat)
    requires m <= |hs|
    ensures |HashBlocks(hs[..m])| <= |HashBlocks(hs)|
    ensures HashBlocks(hs)[..|HashBlocks(hs[..m])|] == HashBlocks(hs[..m])
  {
    var s := HashBlocks(hs);
    if m == |hs| {
      assert hs[..m] == hs;
      assert s[..|s|] == s;
    } else {
      var init := hs[..|hs| - 1];
      BlocksPrefix(init, m);
      assert init[..m] == hs[..m];
      PrefixOfAppend(HashBlocks(init), Nibbles(hs[|hs| - 1] as nat, 8), |HashBlocks(hs[..m])|);
    }
  }

  lemma PrefixOfAppend(p: string, b: string, k: nat)
    requires k <= |p|
    ensures (p + b)[..k] == p[..k]
  {
  }

  lemma SliceOfPrefix(s: string, q: string, lo: nat, hi: nat)
    requires |q| <= |s| && s[..|q|] == q && lo <= hi <= |q|
    ensures s[lo..hi] == q[lo..hi]
  {
    assert forall k :: lo <= k < hi ==> s[k] == s[..|q|][k];
  }

  lemma SliceRight(p: string, b: string)
    ensures (p + b)[|p|..|p| + |b|] == b
  {
  }

  lemma AppendAssociative(a: string, b: string, c: string)
    ensures (a + b) + c == a + (b + c)
  {
  }

  /** Appends the WIDTH blocks of the hash of `input` to `out`: block i is
      the hash with seed i. */
  method StringHash(width: nat, input: string, murmur: (string, nat) -> u32, out: string) returns (out': string)
    ensures out' == out + HashBlocks(Hashes(input, murmur, width))
    ensures |out'| == |out| + 8 * width && out'[..|out|] == out
  {
    out' := out;
    for i := 0 to width
      invariant out' == out + HashBlocks(Hashes(input, murmur, i))
    {
      var buf := EncodeBlock(murmur(input, i));
      HashesStep(input, murmur, i);
      AppendAssociative(out, HashBlocks(Hashes(input, murmur, i)), buf);
      out' := out' + buf;
    }
  }

  /** One more seed appends one more block. */
  lemma HashesStep(input: string, murmur: (string, nat) -> u32, i: nat)
    ensures HashBlocks(Hashes(input, murmur, i + 1)) ==
      HashBlocks(Hashes(input, murmur, i)) + Nibbles(murmur(input, i) as nat, 8)
  {
    var hs := Hashes(input, murmur, i + 1);
    assert hs[..|hs| - 1] == Hashes(input, murmur, i);
  }

  /** The rule-hash feature name: "H:" and the two-block hash of the rule's
      text. */
  function HashName(text: string, murmur: (string, nat) -> u32): string
  {
    "H:" + HashBlocks(Hashes(text, murmur, 2))
  }

  /** The name has 18 characters, and its two blocks read back as the
      hashes with seeds 0 and 1. */
  lemma HashNameShape(text: string, murmur: (string, nat) -> u32)
    ensures var n := HashName(text, murmur);
      |n| == 18 && n[..2] == "H:" &&
      NibblesValue(n[2..10]) == murmur(text, 0) as nat && NibblesValue(n[10..18]) == murmur(text, 1) as nat
  {
    var n := HashName(text, murmur);
    var hs := Hashes(text, murmur, 2);
    var b := HashBlocks(hs);
    assert n[2..10] == b[0..8] && n[10..18] == b[8..16];
    HashBlocksDecode(hs, 0);
    HashBlocksDecode(hs, 1);
  }

  /** The rule-hash feature: 1 for the feature named after the hash of the
      rule's text (its rendering `asString` is a parameter). */
  method TraversalFeatures(rule: Rule, asString: Rule -> string, murmur: (string, nat) -> u32,
                           fd: string -> int, features: SparseVector) returns (features': SparseVector)
    ensures features' == AddValue(features, fd(HashName(asString(rule), murmur)), 1.0)
  {
    var name := "H:";
    name := StringHash(2, asString(rule), murmur, name);
    features' := AddValue(features, fd(name), 1.0);
  }
}
