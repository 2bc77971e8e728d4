/** `Util.newGuid`: a version-4 UUID in the layout of section 4.4 of RFC 4122,
    `xxxxxxxx-xxxx-4xxx-yxxx-xxxxxxxxxxxx`, written in upper-case hex. The
    four `Util.random32()` draws and the clock-sequence draw are parameters. */
module Guid {

  /** `hexValues` of `newGuid`. */
  const HexDigits: string := "0123456789ABCDEF"

  predicate IsUpperHex(c: char) {
    ('0' <= c <= '9') || ('A' <= c <= 'F')
  }

  function HexValue(c: char): (v: nat)
    requires IsUpperHex(c)
    ensures v < 16 && HexDigits[v] == c
  {
    if c <= '9' then (c - '0') as nat else (c - 'A') as nat + 10
  }

  function Pow16(k: nat): (p: nat)
    ensures p >= 1
  {
    if k == 0 then 1 else 16 * Pow16(k - 1)
  }

  /** `tmp >> 4 * k & 0xF`: the k-th 4-bit group, counting from the least
      significant, of the 32-bit two's complement pattern of `tmp`. */
  function Nibble(tmp: int, k: nat): (n: nat)
    ensures n < 16
  {
    ((tmp % 0x1_0000_0000) / Pow16(k)) % 16
  }

  /** The eight hex digits one draw contributes, least significant first. */
  function WordHex(tmp: int): (s: string)
    ensures |s| == 8
  {
    seq(8, k requires 0 <= k < 8 => HexDigits[Nibble(tmp, k)])
  }

  /** `oct`: the 32 hex digits of the four draws. */
  function Oct(words: seq<int>): (s: string)
    requires |words| == 4
    ensures |s| == 32
  {
    WordHex(words[0]) + WordHex(words[1]) + WordHex(words[2]) + WordHex(words[3])
  }

  /** JavaScript's `s.substr(start, length)` for a start inside `s`. */
  function Substr(s: string, start: nat, length: nat): (r: string)
    requires start <= |s|
    ensures r == s[start..if start + length <= |s| then start + length else |s|]
  {
    if start + length <= |s| then s[start..start + length] else s[start..]
  }

  /** The positions of a GUID that carry a digit of `oct`, and the digit each
      one carries. `oct[8]` and `oct[31]` are never used. */
  predicate IsRandomPosition(p: int) {
    (0 <= p < 8) || (9 <= p < 13) || (15 <= p < 18) || (20 <= p < 23) || (24 <= p < 36)
  }

  function OctIndex(p: int): (j: nat)
    requires IsRandomPosition(p)
    ensures j < 32
  {
    if p < 13 then p else if p < 18 then p - 2 else if p < 23 then p - 4 else p - 5
  }

  /** The textual layout of a version-4 UUID: 36 characters, dashes at 8,
      13, 18 and 23, the version digit `4` at 14, one of `8 9 A B` (variant
      bits `10`) at 19, and upper-case hex everywhere else. */
  predicate IsVersion4Layout(g: string) {
    && |g| == 36
    && g[8] == '-' && g[13] == '-' && g[18] == '-' && g[23] == '-'
    && g[14] == '4'
    && g[19] in "89AB"
    && forall p :: 0 <= p < 36 && IsRandomPosition(p) ==> IsUpperHex(g[p])
  }

  /** `Util.newGuid()` given its random draws: `words` are the four
      `Util.random32()` results and `clock` is `(Math.random() * 4) | 0`. */
  function NewGuid(words: seq<int>, clock: nat): (g: string)
    requires |words| == 4 && clock < 4
    ensures IsVersion4Layout(g)
  {
    var oct := Oct(words);
    var clockSequenceHi := HexDigits[8 + clock];
    GuidPieces(oct, clockSequenceHi);
    OctIsHex(words);
    Assemble(oct, clockSequenceHi)
  }

  /** The concatenation `newGuid` returns. */
  function Assemble(oct: string, clockSequenceHi: char): string
    requires |oct| == 32
  {
    Substr(oct, 0, 8) + "-" + Substr(oct, 9, 4) + "-4" + Substr(oct, 13, 3) + "-"
      + [clockSequenceHi] + Substr(oct, 16, 3) + "-" + Substr(oct, 19, 12)
  }

  /** The hex digit of `n` reads back as `n`. */
  lemma HexValueOfDigit(n: nat)
    requires n < 16
    ensures HexValue(HexDigits[n]) == n
  {
  }

  lemma OctAt(words: seq<int>, j: nat)
    requires |words| == 4 && j < 32
    ensures Oct(words)[j] == HexDigits[Nibble(words[j / 8], j % 8)]
  {
    var w := [WordHex(words[0]), WordHex(words[1]), WordHex(words[2]), WordHex(words[3])];
    assert Oct(words) == w[0] + w[1] + w[2] + w[3];
    assert Oct(words)[j] == w[j / 8][j % 8];
  }

  lemma OctIsHex(words: seq<int>)
    requires |words| == 4
    ensures forall j :: 0 <= j < 32 ==> IsUpperHex(Oct(words)[j])
  {
    forall j | 0 <= j < 32
      ensures IsUpperHex(Oct(words)[j])
    {
      OctAt(words, j);
    }
  }

  /** Where each piece of `oct` lands in the assembled GUID. */
  lemma GuidPieces(oct: string, hi: char)
    requires |oct| == 32
    ensures var g := Assemble(oct, hi);
      && |g| == 36
      && g[8] == '-' && g[13] == '-' && g[18] == '-' && g[23] == '-'
      && g[14] == '4' && g[19] == hi
      && forall p :: IsRandomPosition(p) ==> g[p] == oct[OctIndex(p)]
  {
    var a, b, c, d, e := oct[0..8], oct[9..13], oct[13..16], oct[16..19], oct[19..31];
    var g := a + "-" + b + "-4" + c + "-" + [hi] + d + "-" + e;
    assert forall p :: 0 <= p < 8 ==> g[p] == a[p];
    assert forall p :: 9 <= p < 13 ==> g[p] == b[p - 9];
    assert forall p :: 15 <= p < 18 ==> g[p] == c[p - 15];
    assert forall p :: 20 <= p < 23 ==> g[p] == d[p - 20];
    assert forall p :: 24 <= p < 36 ==> g[p] == e[p - 24];
  }

  /** Every random position of the GUID carries, as a hex digit, the 4-bit
      group of the draw it was taken from; position 19 carries the clock
      sequence draw with the variant bits `10` set above it. */
  lemma GuidCarriesDraws(words: seq<int>, clock: nat)
    requires |words| == 4 && clock < 4
    ensures var g := NewGuid(words, clock);
      && (forall p :: IsRandomPosition(p) ==>
            HexValue(g[p]) == Nibble(words[OctIndex(p) / 8], OctIndex(p) % 8))
      && HexValue(g[19]) == 8 + clock
      && (8 + clock) / 4 == 2
      && HexValue(g[14]) == 4
  {
    GuidPieces(Oct(words), HexDigits[8 + clock]);
    HexValueOfDigit(8 + clock);
    forall p | IsRandomPosition(p)
      ensures HexValue(NewGuid(words, clock)[p]) == Nibble(words[OctIndex(p) / 8], OctIndex(p) % 8)
    {
      GuidDigit(words, clock, p);
    }
  }

  lemma GuidDigit(words: seq<int>, clock: nat, p: int)
    requires |words| == 4 && clock < 4 && IsRandomPosition(p)
    ensures HexValue(NewGuid(words, clock)[p]) == Nibble(words[OctIndex(p) / 8], OctIndex(p) % 8)
  {
    var oct := Oct(words);
    var j := OctIndex(p);
    GuidPieces(oct, HexDigits[8 + clock]);
    assert NewGuid(words, clock)[p] == oct[j];
    OctAt(words, j);
    HexValueOfDigit(Nibble(words[j / 8], j % 8));
  }
}
