/**
 * Go's `byte` and the conversions `[]byte(s)` and `string(b)`.
 *
 * A Go string is a sequence of bytes. The model writes it as a Dafny `string`
 * in which each character stands for one byte, so a "byte string" is one whose
 * characters all have codes below 256.
 */
module Bytes {

  type byte = bv8

  /** Every character of `s` stands for a single byte. */
  predicate IsByteString(s: string)
  {
    forall i :: 0 <= i < |s| ==> s[i] as int < 256
  }

  /** Go's `[]byte(s)`: one byte per character. */
  function ToBytes(s: string): (b: seq<byte>)
    ensures |b| == |s|
    ensures IsByteString(s) ==> forall i :: 0 <= i < |s| ==> b[i] as int == s[i] as int
  {
    seq(|s|, i requires 0 <= i < |s| => ByteOf(s[i]))
  }

  /** The byte a character stands for: its code, modulo 256. */
  function ByteOf(c: char): (x: byte)
    ensures c as int < 256 ==> x as int == c as int
  {
    var n := c as int % 256;
    assert c as int < 256 ==> n == c as int;
    n as byte
  }

  /** Go's `string(b)`: one character per byte. */
  function FromBytes(b: seq<byte>): (s: string)
    ensures |s| == |b| && IsByteString(s)
    ensures forall i :: 0 <= i < |b| ==> s[i] as int == b[i] as int
  {
    seq(|b|, i requires 0 <= i < |b| => (b[i] as int) as char)
  }

  /** Converting a byte string to bytes and back gives the string again. */
  lemma FromBytesToBytes(s: string)
    requires IsByteString(s)
    ensures FromBytes(ToBytes(s)) == s
  {
    var b := ToBytes(s);
    var t := FromBytes(b);
    forall i | 0 <= i < |s|
      ensures t[i] == s[i]
    {
      CharRoundTrip(s[i], b[i]);
    }
  }

  /** A character below 256 survives the conversion to a byte and back. */
  lemma CharRoundTrip(c: char, x: byte)
    requires c as int < 256 && x == (c as int % 256) as byte
    ensures (x as int) as char == c
  {
  }

}
