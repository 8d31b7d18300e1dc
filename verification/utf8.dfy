/**
 * Bytes of the source text, and the lead-byte classifier the tokenizer uses
 * to skip one codepoint of text that is not an instruction.
 */
module Utf8 {

  /** One byte of a file or a stream, read as an unsigned char. */
  newtype byte = b: int | 0 <= b < 256

  /**
   * The number of bytes the codepoint starting at `s[i]` occupies, judged by
   * its lead byte alone: 0xxxxxxx is one byte, 110xxxxx two, 1110xxxx three,
   * 11110xxx four. Any other lead byte (a stray continuation byte 10xxxxxx or
   * 11111xxx) counts as one byte; continuation bytes are never inspected.
   */
  function NextCharSize(s: seq<byte>, i: nat): (r: nat)
    requires i < |s|
    ensures 1 <= r <= 4
    ensures r == LeadByteLength(s[i])
  {
    var c := s[i] as bv8;
    if c & 0x80 == 0x00 then 1
    else if c & 0xE0 == 0xC0 then 2
    else if c & 0xF0 == 0xE0 then 3
    else if c & 0xF8 == 0xF0 then 4
    else 1
  }

  /**
   * The same classification stated on the numeric value of the lead byte,
   * following the ranges of the lead-byte table in section 3 of RFC 3629,
   * except that 0xC0, 0xC1 and 0xF5..0xF7 are not rejected.
   */
  function LeadByteLength(c: byte): (r: nat)
  {
    if c < 0x80 then 1
    else if c < 0xC0 then 1
    else if c < 0xE0 then 2
    else if c < 0xF0 then 3
    else if c < 0xF8 then 4
    else 1
  }

  /** The UTF-8 encoding of one Unicode scalar value (section 3 of RFC 3629). */
  function EncodeChar(ch: char): (r: seq<byte>)
    ensures 1 <= |r| <= 4
    ensures forall j :: 1 <= j < |r| ==> 0x80 <= r[j] < 0xC0
  {
    var cp := ch as int;
    if cp < 0x80 then
      [cp as byte]
    else if cp < 0x800 then
      [(0xC0 + cp / 0x40) as byte, (0x80 + cp % 0x40) as byte]
    else if cp < 0x1_0000 then
      [(0xE0 + cp / 0x1000) as byte, (0x80 + cp / 0x40 % 0x40) as byte, (0x80 + cp % 0x40) as byte]
    else
      [(0xF0 + cp / 0x4_0000) as byte, (0x80 + cp / 0x1000 % 0x40) as byte,
       (0x80 + cp / 0x40 % 0x40) as byte, (0x80 + cp % 0x40) as byte]
  }

  /** The classifier reads the length of every well-formed encoding off its lead byte. */
  lemma LeadByteOfEncoding(ch: char)
    ensures NextCharSize(EncodeChar(ch), 0) == |EncodeChar(ch)|
  {
  }
}
