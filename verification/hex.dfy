/** Byte strings and their lowercase Base16 rendering (section 8 of RFC 4648),
    as Go's `hex.EncodeToString` produces it. `DecodeLowerHex` is its inverse on
    lowercase digits only (unlike Go's `hex.DecodeString`, it rejects uppercase);
    it is the partner through which `EncodeToString` is shown injective. */
module Hex {
  import opened Wrappers

  type Byte = b: int | 0 <= b < 256

  /** The lowercase hexadecimal digit of a nibble: '0'..'9', then 'a'..'f'. */
  function HexDigit(v: int): (c: char)
    requires 0 <= v < 16
    ensures IsHexDigit(c)
  {
    if v < 10 then ('0' as int + v) as char else ('a' as int + v - 10) as char
  }

  predicate IsHexDigit(c: char)
  {
    '0' <= c <= '9' || 'a' <= c <= 'f'
  }

  /** The value of a lowercase hexadecimal digit, or None for any other character. */
  function DigitValue(c: char): (v: Option<int>)
    ensures v.Some? <==> IsHexDigit(c)
    ensures v.Some? ==> 0 <= v.value < 16 && HexDigit(v.value) == c
  {
    if '0' <= c <= '9' then Some(c as int - '0' as int)
    else if 'a' <= c <= 'f' then Some(c as int - 'a' as int + 10)
    else None
  }

  /** Two digits per byte, high nibble first. */
  function EncodeToString(bytes: seq<Byte>): (s: string)
    ensures |s| == 2 * |bytes|
    ensures forall k :: 0 <= k < |s| ==> IsHexDigit(s[k])
  {
    if |bytes| == 0 then ""
    else [HexDigit(bytes[0] / 16), HexDigit(bytes[0] % 16)] + EncodeToString(bytes[1..])
  }

  /** Reads pairs of lowercase hexadecimal digits back into bytes; None on an odd
      length or a character that is not such a digit. */
  function DecodeLowerHex(s: string): Option<seq<Byte>>
    decreases |s|
  {
    if |s| == 0 then Some([])
    else if |s| == 1 then None
    else
      match (DigitValue(s[0]), DigitValue(s[1]), DecodeLowerHex(s[2..]))
      case (Some(hi), Some(lo), Some(rest)) => Some([hi * 16 + lo] + rest)
      case _ => None
  }

  /** Decoding undoes encoding. */
  lemma {:induction false} DecodeEncode(bytes: seq<Byte>)
    ensures DecodeLowerHex(EncodeToString(bytes)) == Some(bytes)
  {
    if |bytes| > 0 {
      var s := EncodeToString(bytes);
      var b := bytes[0];
      assert s[2..] == EncodeToString(bytes[1..]);
      DecodeEncode(bytes[1..]);
      assert DigitValue(s[0]) == Some(b / 16);
      assert DigitValue(s[1]) == Some(b % 16);
      assert [(b / 16) * 16 + b % 16] + bytes[1..] == bytes;
    }
  }

  /** Distinct byte strings never render to the same string. */
  lemma EncodeToStringInjective(a: seq<Byte>, b: seq<Byte>)
    ensures EncodeToString(a) == EncodeToString(b) ==> a == b
  {
    DecodeEncode(a);
    DecodeEncode(b);
  }
}
