/**
 * System.Guid and its parameterless ToString().
 *
 * A Guid is modelled by its 32 hexadecimal digits in the order ToString() writes them;
 * this is a bijection with the 128-bit value. ToString() is the "D" format: lower-case
 * hexadecimal digits in groups of 8-4-4-4-12, separated by hyphens, 36 characters.
 */
module Guids {

  type Nibble = x: int | 0 <= x < 16

  const GuidDigits := 32
  const GuidTextLength := 36

  type Guid = s: seq<Nibble> | |s| == GuidDigits witness seq(GuidDigits, _ => 0)

  /** Guid.Empty: all 128 bits zero, the value a Guid field holds when nothing has set it. */
  const EmptyGuid: Guid := [0, 0, 0, 0, 0, 0, 0, 0, 0, 0, 0, 0, 0, 0, 0, 0, 0, 0, 0, 0, 0, 0, 0, 0, 0, 0, 0, 0, 0, 0, 0, 0]

  /** The lower-case hexadecimal digit of a nibble. */
  function HexChar(n: Nibble): (c: char)
    ensures n < 10 ==> '0' <= c <= '9'
    ensures 10 <= n ==> 'a' <= c <= 'f'
  {
    if n < 10 then ('0' as int + n) as char else ('a' as int + n - 10) as char
  }

  function Hex(s: seq<Nibble>): (r: string)
    ensures |r| == |s|
    ensures forall i :: 0 <= i < |s| ==> r[i] == HexChar(s[i])
  {
    if s == [] then [] else [HexChar(s[0])] + Hex(s[1..])
  }

  /** Guid.ToString(): the canonical 8-4-4-4-12 text. */
  function GuidText(g: Guid): (r: string)
    ensures |r| == GuidTextLength
    ensures r[8] == '-' && r[13] == '-' && r[18] == '-' && r[23] == '-'
  {
    Hex(g[0..8]) + "-" + Hex(g[8..12]) + "-" + Hex(g[12..16]) + "-" + Hex(g[16..20]) + "-" + Hex(g[20..32])
  }

  /** Where the k-th digit of a Guid stands in its text: one hyphen per completed group. */
  function TextIndex(k: nat): nat
  {
    k + (if k < 8 then 0 else if k < 12 then 1 else if k < 16 then 2 else if k < 20 then 3 else 4)
  }

  predicate IsHyphenIndex(i: int)
  {
    i == 8 || i == 13 || i == 18 || i == 23
  }

  /** The shape of the text: 36 characters, hyphens exactly at 8, 13, 18 and 23, each digit at its index. */
  lemma GuidTextShape(g: Guid)
    ensures |GuidText(g)| == GuidTextLength
    ensures forall i :: 0 <= i < GuidTextLength ==> (GuidText(g)[i] == '-' <==> IsHyphenIndex(i))
    ensures forall k :: 0 <= k < GuidDigits ==> TextIndex(k) < GuidTextLength && GuidText(g)[TextIndex(k)] == HexChar(g[k])
  {
  }

  /** ToString() is canonical: two Guids with the same text are the same Guid. */
  lemma {:induction false} GuidTextInjective(g: Guid, h: Guid)
    requires GuidText(g) == GuidText(h)
    ensures g == h
  {
    GuidTextShape(g);
    GuidTextShape(h);
    forall k | 0 <= k < GuidDigits
      ensures g[k] == h[k]
    {
      assert HexChar(g[k]) == GuidText(g)[TextIndex(k)] == HexChar(h[k]);
    }
  }

  /** ToString() writes no upper-case letter. */
  lemma GuidTextIsLowerCase(g: Guid)
    ensures forall i :: 0 <= i < |GuidText(g)| ==> !('A' <= GuidText(g)[i] <= 'Z')
  {
  }

  /** The same Guid written with upper-case hexadecimal letters, as ToString("D").ToUpper() gives it. */
  function UpperCase(s: string): (r: string)
    ensures |r| == |s|
    ensures forall i :: 0 <= i < |s| ==> (('a' <= s[i] <= 'z') ==> 'A' <= r[i] <= 'Z') && (!('a' <= s[i] <= 'z') ==> r[i] == s[i])
  {
    if s == [] then []
    else [if 'a' <= s[0] <= 'z' then (s[0] as int - 32) as char else s[0]] + UpperCase(s[1..])
  }

  /** A Guid with a letter digit, written in upper case, is a different string from its ToString(). */
  lemma UpperCaseTextDiffers(g: Guid, k: nat)
    requires k < GuidDigits && 10 <= g[k]
    ensures UpperCase(GuidText(g)) != GuidText(g)
  {
    GuidTextShape(g);
    GuidTextIsLowerCase(g);
    var i := TextIndex(k);
    assert 'a' <= GuidText(g)[i] <= 'z';
    assert 'A' <= UpperCase(GuidText(g))[i] <= 'Z';
  }
}
