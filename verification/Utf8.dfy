/** UTF-8 as RFC 3629 defines it: section 3 says how a character is encoded, section 4 which
    octet sequences are characters. */
module Utf8 {
  import opened Utf16

  newtype Byte = x: int | 0 <= x < 256

  type Bytes = seq<Byte>

  const REPLACEMENT: CodeUnit := 0xFFFD

  predicate IsHigh(u: CodeUnit) {
    0xD800 <= u < 0xDC00
  }

  predicate IsLow(u: CodeUnit) {
    0xDC00 <= u < 0xE000
  }

  /** Does the first character of `s` take two code units? */
  predicate StartsWithPair(s: JsText) {
    |s| > 1 && IsHigh(s[0]) && IsLow(s[1])
  }

  function FirstUnits(s: JsText): (n: nat)
    requires s != []
    ensures 0 < n <= |s|
  {
    if StartsWithPair(s) then 2 else 1
  }

  /** A number that names a character: surrogates do not. */
  predicate IsScalar(c: int) {
    0 <= c < 0xD800 || 0xE000 <= c < 0x11_0000
  }

  /** The first character; a lone surrogate counts as U+FFFD. */
  function FirstChar(s: JsText): (c: nat)
    requires s != []
    ensures IsScalar(c)
  {
    if StartsWithPair(s) then 0x1_0000 + 0x400 * (s[0] as int - 0xD800) + (s[1] as int - 0xDC00)
    else if IsHigh(s[0]) || IsLow(s[0]) then 0xFFFD
    else s[0] as int
  }

  /** A character as UTF-16 code units. */
  function Units(c: nat): JsText
    requires IsScalar(c)
  {
    if c < 0x1_0000 then [c as CodeUnit]
    else [(0xD800 + (c - 0x1_0000) / 0x400) as CodeUnit, (0xDC00 + (c - 0x1_0000) % 0x400) as CodeUnit]
  }

  // ---- Encoding -----------------------------------------------------------------

  function TailByte(bits: nat): Byte {
    (0x80 + bits % 64) as Byte
  }

  function EncodeChar(c: nat): Bytes
    requires IsScalar(c)
  {
    if c < 0x80 then [c as Byte]
    else if c < 0x800 then [(0xC0 + c / 64) as Byte, TailByte(c)]
    else if c < 0x1_0000 then [(0xE0 + c / 64 / 64) as Byte, TailByte(c / 64), TailByte(c)]
    else [(0xF0 + c / 64 / 64 / 64) as Byte, TailByte(c / 64 / 64), TailByte(c / 64), TailByte(c)]
  }

  /** `Buffer.from(s, "utf8")`. */
  function Encode(s: JsText): Bytes {
    if s == [] then [] else EncodeChar(FirstChar(s)) + Encode(s[FirstUnits(s)..])
  }

  // ---- Decoding -----------------------------------------------------------------

  /** How many octets a character with this first octet has; none starts with 80-C1 or F5-FF. */
  function Octets(lead: Byte): (n: nat)
    ensures n <= 4
  {
    if lead < 0x80 then 1
    else if lead < 0xC2 then 0
    else if lead < 0xE0 then 2
    else if lead < 0xF0 then 3
    else if lead < 0xF5 then 4
    else 0
  }

  predicate IsTail(b: Byte) {
    0x80 <= b < 0xC0
  }

  /** The second octet: no overlong forms, no surrogates, nothing above U+10FFFF. */
  predicate SecondFits(lead: Byte, b: Byte) {
    && IsTail(b)
    && (lead == 0xE0 ==> 0xA0 <= b)
    && (lead == 0xED ==> b < 0xA0)
    && (lead == 0xF0 ==> 0x90 <= b)
    && (lead == 0xF4 ==> b < 0x90)
  }

  /** How many octets at the start of `bytes` belong to one character, whole or broken off. */
  function Started(bytes: Bytes): (n: nat)
    requires bytes != []
    ensures n <= |bytes| && n <= Octets(bytes[0])
  {
    var all := Octets(bytes[0]);
    if all < 2 then all
    else if |bytes| < 2 || !SecondFits(bytes[0], bytes[1]) then 1
    else if all == 2 || |bytes| < 3 || !IsTail(bytes[2]) then 2
    else if all == 3 || |bytes| < 4 || !IsTail(bytes[3]) then 3
    else 4
  }

  /** The bits of a whole character. */
  function Value(octets: Bytes): int
    requires 0 < |octets| <= 4
  {
    if |octets| == 1 then octets[0] as int
    else if |octets| == 2 then 64 * (octets[0] as int - 0xC0) + (octets[1] as int - 0x80)
    else if |octets| == 3 then 64 * (64 * (octets[0] as int - 0xE0) + (octets[1] as int - 0x80)) + (octets[2] as int - 0x80)
    else
      64 * (64 * (64 * (octets[0] as int - 0xF0) + (octets[1] as int - 0x80)) + (octets[2] as int - 0x80)) + (octets[3] as int - 0x80)
  }

  lemma WholeIsScalar(bytes: Bytes)
    requires bytes != [] && 0 < Started(bytes) == Octets(bytes[0])
    ensures IsScalar(Value(bytes[..Started(bytes)]))
  {}

  /** The first character; octets that are none, or only the beginning of one, count as U+FFFD. */
  function DecodeFirst(bytes: Bytes): (c: nat)
    requires bytes != []
    ensures IsScalar(c)
  {
    var n := Started(bytes);
    if 0 < n == Octets(bytes[0]) then
      WholeIsScalar(bytes);
      Value(bytes[..n])
    else 0xFFFD
  }

  /** `Buffer.toString("utf8")`. */
  function Decode(bytes: Bytes): JsText {
    if bytes == [] then []
    else
      var used := if Started(bytes) == 0 then 1 else Started(bytes);
      Units(DecodeFirst(bytes)) + Decode(bytes[used..])
  }

  // ---- Decoding undoes encoding ---------------------------------------------------

  lemma UnitsOfFirst(s: JsText)
    requires s != []
    ensures StartsWithPair(s) ==> Units(FirstChar(s)) == s[..2]
    ensures !StartsWithPair(s) ==> Units(FirstChar(s)) == [if IsHigh(s[0]) || IsLow(s[0]) then REPLACEMENT else s[0]]
  {}

  /** A character's octets start a character of just that length, and carry its bits. */
  lemma EncodedIsWhole(c: nat, bytes: Bytes)
    requires IsScalar(c) && bytes == EncodeChar(c)
    ensures 0 < |bytes| <= 4 && Started(bytes) == Octets(bytes[0]) == |bytes| && Value(bytes) == c
  {}

  /** What follows a character does not matter. */
  lemma StartedOfWhole(octets: Bytes, rest: Bytes)
    requires octets != [] && Started(octets) == Octets(octets[0]) == |octets|
    ensures Started(octets + rest) == |octets|
    ensures (octets + rest)[..|octets|] == octets && (octets + rest)[|octets|..] == rest
  {}

  lemma DecodeOfChar(c: nat, octets: Bytes, rest: Bytes)
    requires IsScalar(c) && octets == EncodeChar(c)
    ensures Decode(octets + rest) == Units(c) + Decode(rest)
  {
    EncodedIsWhole(c, octets);
    StartedOfWhole(octets, rest);
  }

  /** A character broken off decodes to one replacement character. */
  lemma DecodeOfPart(c: nat, octets: Bytes, k: nat)
    requires IsScalar(c) && octets == EncodeChar(c) && 0 < k < |octets|
    ensures Decode(octets[..k]) == [REPLACEMENT]
  {
    EncodedIsWhole(c, octets);
    var part := octets[..k];
    assert Started(part) == k && Octets(part[0]) == |octets|;
    assert part[k..] == [];
  }

  /** The examples of section 7 of RFC 3629. */
  lemma RfcExamples()
    ensures Encode([0x41, 0x2262, 0x391, 0x2E]) == [0x41, 0xE2, 0x89, 0xA2, 0xCE, 0x91, 0x2E]
  {
    var s: JsText := [0x41, 0x2262, 0x391, 0x2E];
    assert s[1..] == [0x2262, 0x391, 0x2E] && s[1..][1..] == [0x391, 0x2E] && s[1..][1..][1..] == [0x2E];
  }

  lemma RfcWideExample()
    ensures Encode([0xFEFF, 0xD84C, 0xDFB4]) == [0xEF, 0xBB, 0xBF, 0xF0, 0xA3, 0x8E, 0xB4]
  {
    var s: JsText := [0xFEFF, 0xD84C, 0xDFB4];
    assert s[1..] == [0xD84C, 0xDFB4];
  }
}
