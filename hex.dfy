/**
 * Go's `encoding/hex`: `EncodeToString` writes lower-case digits (section 8 of
 * RFC 4648), `DecodeString` accepts either case and reports the first invalid
 * character, or an odd length when every character is a digit.
 */
module Hex {
  import opened Wrappers
  import opened Bytes

  /** The two errors `hex.DecodeString` can return. */
  datatype HexError = InvalidByte(c: char) | OddLength

  predicate IsHexDigit(c: char)
  {
    '0' <= c <= '9' || 'a' <= c <= 'f' || 'A' <= c <= 'F'
  }

  predicate IsLowerHexDigit(c: char)
  {
    '0' <= c <= '9' || 'a' <= c <= 'f'
  }

  function DigitValue(c: char): (v: nat)
    requires IsHexDigit(c)
    ensures v < 16
  {
    if '0' <= c <= '9' then c as int - '0' as int
    else if 'a' <= c <= 'f' then c as int - 'a' as int + 10
    else c as int - 'A' as int + 10
  }

  /** The lower-case digit for a nibble; `DigitValue` reads it back. */
  function LowerDigit(n: nat): (c: char)
    requires n < 16
    ensures IsLowerHexDigit(c) && IsHexDigit(c) && DigitValue(c) == n
  {
    if n < 10 then ('0' as int + n) as char else ('a' as int + n - 10) as char
  }

  /** `hex.EncodeToString(b)`: two lower-case digits per byte, high nibble first. */
  function Encode(b: seq<byte>): (s: string)
    ensures |s| == 2 * |b|
    ensures forall i :: 0 <= i < |s| ==> IsLowerHexDigit(s[i])
  {
    if b == [] then ""
    else [LowerDigit(b[0] as int / 16), LowerDigit(b[0] as int % 16)] + Encode(b[1..])
  }

  /** The byte written by the digit pair `hi`, `lo`. */
  function PairValue(hi: char, lo: char): byte
    requires IsHexDigit(hi) && IsHexDigit(lo)
  {
    (DigitValue(hi) * 16 + DigitValue(lo)) as byte
  }

  /** `hex.DecodeString(s)`, pair by pair, with Go's order of error checks. */
  function Decode(s: string): (r: Result<seq<byte>, HexError>)
    ensures r.Ok? ==> 2 * |r.value| == |s|
    decreases |s|
  {
    if |s| == 0 then Ok([])
    else if |s| == 1 then (if IsHexDigit(s[0]) then Err(OddLength) else Err(InvalidByte(s[0])))
    else if !IsHexDigit(s[0]) then Err(InvalidByte(s[0]))
    else if !IsHexDigit(s[1]) then Err(InvalidByte(s[1]))
    else
      match Decode(s[2..])
      case Err(e) => Err(e)
      case Ok(rest) => Ok([PairValue(s[0], s[1])] + rest)
  }

  /** Decoding succeeds exactly on strings of even length made only of hex digits. */
  lemma {:induction false} DecodeSucceeds(s: string)
    ensures Decode(s).Ok? <==> |s| % 2 == 0 && forall i :: 0 <= i < |s| ==> IsHexDigit(s[i])
    decreases |s|
  {
    if |s| >= 2 {
      if IsHexDigit(s[0]) && IsHexDigit(s[1]) {
        DecodeSucceeds(s[2..]);
        assert Decode(s).Ok? == Decode(s[2..]).Ok?;
        AllDigitsAfterPair(s);
      } else {
        assert Decode(s).Err?;
      }
    }
  }

  /** After two hex digits, the rest decides whether the whole string is made of hex digits. */
  lemma AllDigitsAfterPair(s: string)
    requires |s| >= 2 && IsHexDigit(s[0]) && IsHexDigit(s[1])
    ensures (forall i :: 0 <= i < |s| ==> IsHexDigit(s[i])) <==> (forall i :: 0 <= i < |s| - 2 ==> IsHexDigit(s[2..][i]))
  {
    var t := s[2..];
    if forall i :: 0 <= i < |t| ==> IsHexDigit(t[i]) {
      forall i | 2 <= i < |s|
        ensures IsHexDigit(s[i])
      {
        assert s[i] == t[i - 2];
      }
    }
  }

  /** An `InvalidByte` error names a character of `s` that is not a hex digit; `OddLength` means every character is a digit. */
  lemma {:induction false} DecodeErrors(s: string)
    ensures Decode(s).Err? && Decode(s).error.InvalidByte? ==>
      Decode(s).error.c in s && !IsHexDigit(Decode(s).error.c)
    ensures Decode(s).Err? && Decode(s).error.OddLength? ==>
      |s| % 2 == 1 && forall i :: 0 <= i < |s| ==> IsHexDigit(s[i])
    decreases |s|
  {
    if |s| >= 2 && IsHexDigit(s[0]) && IsHexDigit(s[1]) {
      DecodeErrors(s[2..]);
      assert forall i :: 2 <= i < |s| ==> s[i] == s[2..][i - 2];
      if Decode(s).Err? && Decode(s).error.InvalidByte? {
        var c := Decode(s).error.c;
        var k :| 0 <= k < |s[2..]| && s[2..][k] == c;
        assert s[k + 2] == c;
      }
    }
  }

  /** Encoding then decoding gives the bytes back. */
  lemma {:induction false} DecodeEncode(b: seq<byte>)
    ensures Decode(Encode(b)) == Ok(b)
    decreases |b|
  {
    if b != [] {
      var s := Encode(b);
      var n := b[0] as int;
      assert s[2..] == Encode(b[1..]);
      DecodeEncode(b[1..]);
      assert PairValue(s[0], s[1]) == (n as byte);
      assert [b[0]] + b[1..] == b;
    }
  }

  /** An encoded string never contains the separator `|`. */
  lemma EncodeHasNoBar(b: seq<byte>)
    ensures '|' !in Encode(b)
  {
  }
}
