/**
 * Base 16 text for byte strings.
 *
 * `Encode` is the upper-case alphabet of section 8 of RFC 4648, and `Decode`
 * is its strict inverse.  `LowerHex` and `ToUpper` model the two Python
 * built-ins that `SerializedType.to_hex` chains: `bytes.hex()`, which writes
 * lower-case digits, and `str.upper()`.
 */
module Hex {
  import opened Wrappers

  newtype byte = x: int | 0 <= x < 256

  const UpperDigits: string := "0123456789ABCDEF"
  const LowerDigits: string := "0123456789abcdef"

  predicate IsUpperHexDigit(c: char) {
    ('0' <= c <= '9') || ('A' <= c <= 'F')
  }

  predicate IsLowerHexDigit(c: char) {
    ('0' <= c <= '9') || ('a' <= c <= 'f')
  }

  /** The value of one upper-case Base 16 digit, or None for any other character. */
  function DigitValue(c: char): (v: Option<nat>)
    ensures v.Some? <==> IsUpperHexDigit(c)
    ensures v.Some? ==> v.value < 16 && UpperDigits[v.value] == c
  {
    if '0' <= c <= '9' then Some(c as int - '0' as int)
    else if 'A' <= c <= 'F' then Some(c as int - 'A' as int + 10)
    else None
  }

  /** Two upper-case digits per byte, high nibble first. */
  function Encode(b: seq<byte>): (s: string)
    ensures |s| == 2 * |b|
    ensures forall i :: 0 <= i < |s| ==> IsUpperHexDigit(s[i])
  {
    if b == [] then []
    else [UpperDigits[b[0] as int / 16], UpperDigits[b[0] as int % 16]] + Encode(b[1..])
  }

  /** Reads the text two digits at a time; fails on odd length or a non-digit. */
  function Decode(s: string): (r: Option<seq<byte>>)
    ensures r.Some? ==> 2 * |r.value| == |s|
    decreases |s|
  {
    if |s| == 0 then Some([])
    else if |s| == 1 then None
    else
      match (DigitValue(s[0]), DigitValue(s[1]), Decode(s[2..]))
      case (Some(hi), Some(lo), Some(rest)) => Some([(hi * 16 + lo) as byte] + rest)
      case _ => None
  }

  lemma {:induction false} DecodeEncode(b: seq<byte>)
    ensures Decode(Encode(b)) == Some(b)
  {
    if b != [] {
      var hi, lo := b[0] as int / 16, b[0] as int % 16;
      var s := Encode(b);
      assert s == [UpperDigits[hi], UpperDigits[lo]] + Encode(b[1..]);
      assert s[2..] == Encode(b[1..]);
      DecodeEncode(b[1..]);
      DigitOfValue(hi);
      DigitOfValue(lo);
      assert hi * 16 + lo == b[0] as int;
      assert [b[0]] + b[1..] == b;
    }
  }

  lemma DigitOfValue(d: nat)
    requires d < 16
    ensures DigitValue(UpperDigits[d]) == Some(d)
  {
  }

  /** Every string that decodes is the encoding of what it decodes to. */
  lemma {:induction false} EncodeDecode(s: string, b: seq<byte>)
    requires Decode(s) == Some(b)
    ensures Encode(b) == s
    decreases |s|
  {
    if |s| >= 2 {
      var hi, lo := DigitValue(s[0]).value, DigitValue(s[1]).value;
      var rest := Decode(s[2..]).value;
      assert b == [(hi * 16 + lo) as byte] + rest;
      EncodeDecode(s[2..], rest);
      assert b[1..] == rest;
      assert (hi * 16 + lo) / 16 == hi && (hi * 16 + lo) % 16 == lo;
      assert s == [s[0], s[1]] + s[2..];
    }
  }

  /** Decoding and encoding are inverse: a string decodes to b exactly when it is b's encoding. */
  lemma DecodeIffEncode(s: string, b: seq<byte>)
    ensures Decode(s) == Some(b) <==> Encode(b) == s
  {
    if Decode(s) == Some(b) { EncodeDecode(s, b); }
    if Encode(b) == s { DecodeEncode(b); }
  }

  /** Distinct byte strings have distinct encodings. */
  lemma EncodeInjective(a: seq<byte>, b: seq<byte>)
    requires Encode(a) == Encode(b)
    ensures a == b
  {
    DecodeEncode(a);
    DecodeEncode(b);
  }

  /** Python's `bytes.hex()`: two lower-case digits per byte, high nibble first. */
  function LowerHex(b: seq<byte>): (s: string)
    ensures |s| == 2 * |b|
    ensures forall i :: 0 <= i < |s| ==> IsLowerHexDigit(s[i])
  {
    if b == [] then []
    else [LowerDigits[b[0] as int / 16], LowerDigits[b[0] as int % 16]] + LowerHex(b[1..])
  }

  /** Python's `str.upper()` restricted to ASCII: a..z become A..Z, every other character stays. */
  function ToUpper(s: string): (u: string)
    ensures |u| == |s|
    ensures forall i :: 0 <= i < |s| ==>
      u[i] == if 'a' <= s[i] <= 'z' then (s[i] as int - 'a' as int + 'A' as int) as char else s[i]
  {
    if s == [] then []
    else
      var c := s[0];
      [if 'a' <= c <= 'z' then (c as int - 'a' as int + 'A' as int) as char else c] + ToUpper(s[1..])
  }

  /** `bytes.hex().upper()` is exactly the RFC 4648 upper-case Base 16 encoding. */
  lemma {:induction false} UpperOfLowerHex(b: seq<byte>)
    ensures ToUpper(LowerHex(b)) == Encode(b)
  {
    if b != [] {
      var hi, lo := b[0] as int / 16, b[0] as int % 16;
      var l := LowerHex(b);
      assert l == [LowerDigits[hi], LowerDigits[lo]] + LowerHex(b[1..]);
      assert l[2..] == LowerHex(b[1..]);
      UpperOfLowerHex(b[1..]);
      var u := ToUpper(l);
      assert u[..2] == [UpperDigits[hi], UpperDigits[lo]];
      ToUpperAppend(l[..2], l[2..]);
      assert l == l[..2] + l[2..];
    }
  }

  lemma {:induction false} ToUpperAppend(s: string, t: string)
    ensures ToUpper(s + t) == ToUpper(s) + ToUpper(t)
  {
    var u, v := ToUpper(s + t), ToUpper(s) + ToUpper(t);
    assert |u| == |v|;
    forall i | 0 <= i < |u| ensures u[i] == v[i] {
      if i < |s| { assert (s + t)[i] == s[i]; } else { assert (s + t)[i] == t[i - |s|]; }
    }
  }
}
