/**
  Byte-level view of text. A Rust `String` is stored as UTF-8 bytes and
  `as_bytes()` exposes them; for ASCII text every character is exactly one
  byte whose value is the character's code point. This module fixes that
  encoding for the ASCII subset, which is all the demo inputs use.
 */
module Bytes {

  /** An unsigned 8-bit value (Rust `u8`). */
  newtype byte = x: int | 0 <= x < 0x100

  /** The byte literal `b' '` (ASCII space). */
  const Space: byte := 0x20

  /** Every character of `t` is 7-bit ASCII. */
  predicate IsAscii(t: string) {
    forall k :: 0 <= k < |t| ==> t[k] as int < 0x80
  }

  /** Every byte of `b` is below 0x80, i.e. encodes one ASCII character. */
  predicate IsAsciiBytes(b: seq<byte>) {
    forall k :: 0 <= k < |b| ==> b[k] < 0x80
  }

  /** UTF-8 encoding of ASCII text: one byte per character, same value. */
  function FromAscii(t: string): (b: seq<byte>)
    requires IsAscii(t)
    ensures |b| == |t|
    ensures IsAsciiBytes(b)
    ensures forall k :: 0 <= k < |t| ==> b[k] as int == t[k] as int
  {
    seq(|t|, k requires 0 <= k < |t| => t[k] as int as byte)
  }

  /** Decoding of ASCII bytes back to text. */
  function ToAscii(b: seq<byte>): (t: string)
    requires IsAsciiBytes(b)
    ensures |t| == |b|
    ensures IsAscii(t)
    ensures forall k :: 0 <= k < |b| ==> t[k] as int == b[k] as int
  {
    seq(|b|, k requires 0 <= k < |b| => b[k] as int as char)
  }

  /** Decoding undoes encoding. */
  lemma DecodeEncode(t: string)
    requires IsAscii(t)
    ensures ToAscii(FromAscii(t)) == t
  {
  }

  /** Encoding undoes decoding. */
  lemma EncodeDecode(b: seq<byte>)
    requires IsAsciiBytes(b)
    ensures FromAscii(ToAscii(b)) == b
  {
  }

  /** A sub-range of ASCII bytes is still ASCII. */
  lemma AsciiBytesSlice(b: seq<byte>, lo: nat, hi: nat)
    requires IsAsciiBytes(b)
    requires lo <= hi <= |b|
    ensures IsAsciiBytes(b[lo..hi])
  {
  }
}
