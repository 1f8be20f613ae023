/** Lower-case hexadecimal digits, written least-significant nibble first,
    as the hash-based rule feature names use them. */
module HexMap {
  /** The sixteen digit characters, indexed by nibble value. */
  const Digits: seq<char> := ['0', '1', '2', '3', '4', '5', '6', '7', '8', '9', 'a', 'b', 'c', 'd', 'e', 'f']

  function HexDigit(d: nat): (c: char)
    requires d < 16
    ensures c in Digits
  {
    Digits[d]
  }

  /** The nibble a digit character stands for (0 for any other character). */
  function HexValue(c: char): (d: nat)
    ensures d < 16
  {
    if '0' <= c <= '9' then c as int - '0' as int
    else if 'a' <= c <= 'f' then c as int - 'a' as int + 10
    else 0
  }

  /** Each nibble has its own digit, and the digit reads back as the nibble. */
  lemma HexDigitRoundTrip(d: nat)
    requires d < 16
    ensures HexValue(HexDigit(d)) == d
    ensures forall e :: 0 <= e < 16 && HexDigit(e) == HexDigit(d) ==> e == d
  {
  }

  function Pow16(k: nat): (p: nat)
    ensures p >= 1
  {
    if k == 0 then 1 else 16 * Pow16(k - 1)
  }

  /** The low `count` nibbles of `h`, least significant first. */
  function Nibbles(h: nat, count: nat): (s: string)
    ensures |s| == count
  {
    if count == 0 then [] else [HexDigit(h % 16)] + Nibbles(h / 16, count - 1)
  }

  /** The number whose nibbles, least significant first, are the digits. */
  function NibblesValue(s: string): nat
  {
    if s == [] then 0 else HexValue(s[0]) + 16 * NibblesValue(s[1..])
  }

  /** A value that fits in `count` nibbles is read back from its digits. */
  lemma {:induction false} NibblesRoundTrip(h: nat, count: nat)
    requires h < Pow16(count)
    ensures NibblesValue(Nibbles(h, count)) == h
  {
    if count > 0 {
      HexDigitRoundTrip(h % 16);
      assert h / 16 < Pow16(count - 1);
      NibblesRoundTrip(h / 16, count - 1);
      assert Nibbles(h, count)[1..] == Nibbles(h / 16, count - 1);
    }
  }

  /** The nibbles of `h`, least significant first, up to its highest
      non-zero nibble; nothing for 0. */
  function HexLsbFirst(h: nat): (s: string)
    ensures forall k :: 0 <= k < |s| ==> s[k] in Digits
    decreases h
  {
    if h == 0 then [] else [HexDigit(h % 16)] + HexLsbFirst(h / 16)
  }

  /** The digits read back as `h`, and the last one is never '0', so
      distinct values get distinct digit strings. */
  lemma {:induction false} HexLsbFirstRoundTrip(h: nat)
    ensures NibblesValue(HexLsbFirst(h)) == h
    ensures h > 0 ==> |HexLsbFirst(h)| > 0 && HexLsbFirst(h)[|HexLsbFirst(h)| - 1] != '0'
    decreases h
  {
    if h > 0 {
      HexDigitRoundTrip(h % 16);
      HexLsbFirstRoundTrip(h / 16);
      assert HexLsbFirst(h)[1..] == HexLsbFirst(h / 16);
      if h / 16 == 0 {
        assert h % 16 == h;
        assert HexValue(HexLsbFirst(h)[0]) == h;
      }
    }
  }

  lemma HexLsbFirstInjective(h: nat, g: nat)
    requires HexLsbFirst(h) == HexLsbFirst(g)
    ensures h == g
  {
    HexLsbFirstRoundTrip(h);
    HexLsbFirstRoundTrip(g);
  }
}
