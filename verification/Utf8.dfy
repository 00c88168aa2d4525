/** UTF-8 as the standard `String` type uses it: the encoding of a scalar value
    is its shortest form, and nothing else decodes (RFC 3629, section 3). */
module Utf8 {
  import opened Prelude

  function EncodeChar(c: char): (bytes: Bytes)
    ensures 1 <= |bytes| <= 4
  {
    var n := c as int;
    if n < 0x80 then [n]
    else if n < 0x800 then [0xC0 + n / 64, 0x80 + n % 64]
    else if n < 0x10000 then [0xE0 + n / 64 / 64, 0x80 + n / 64 % 64, 0x80 + n % 64]
    else [0xF0 + n / 64 / 64 / 64, 0x80 + n / 64 / 64 % 64, 0x80 + n / 64 % 64, 0x80 + n % 64]
  }

  function Encode(s: string): Bytes {
    if s == [] then [] else EncodeChar(s[0]) + Encode(s[1..])
  }

  predicate IsContinuation(b: byte) { 0x80 <= b < 0xC0 }

  /** What byte `b` carries above the tag `tag` of its position. */
  function Bits(b: byte, tag: int): int { b as int - tag }

  /** The first scalar value of `b`, with the number of bytes it takes. */
  function DecodeFirst(b: Bytes): (r: Option<(char, nat)>)
    requires b != []
    ensures r.Some? ==> 0 < r.value.1 <= |b|
  {
    var lead := b[0];
    if lead < 0x80 then Some((lead as char, 1))
    else if 0xC0 <= lead < 0xE0 && |b| >= 2 && IsContinuation(b[1]) then
      var n := Bits(lead, 0xC0) * 64 + Bits(b[1], 0x80);
      if 0x80 <= n then Some((n as char, 2)) else None
    else if 0xE0 <= lead < 0xF0 && |b| >= 3 && IsContinuation(b[1]) && IsContinuation(b[2]) then
      var n := (Bits(lead, 0xE0) * 64 + Bits(b[1], 0x80)) * 64 + Bits(b[2], 0x80);
      if 0x800 <= n && !(0xD800 <= n < 0xE000) then Some((n as char, 3)) else None
    else if 0xF0 <= lead < 0xF8 && |b| >= 4
            && IsContinuation(b[1]) && IsContinuation(b[2]) && IsContinuation(b[3]) then
      var n := ((Bits(lead, 0xF0) * 64 + Bits(b[1], 0x80)) * 64 + Bits(b[2], 0x80)) * 64 + Bits(b[3], 0x80);
      if 0x10000 <= n < 0x11_0000 then Some((n as char, 4)) else None
    else None
  }

  function Decode(b: Bytes): Option<string> {
    if b == [] then Some([])
    else
      match DecodeFirst(b)
      case None => None
      case Some((c, k)) =>
        match Decode(b[k..])
        case None => None
        case Some(s) => Some([c] + s)
  }

  lemma SplitBits(high: nat, low: nat)
    requires low < 64
    ensures (high * 64 + low) / 64 == high && (high * 64 + low) % 64 == low
  {
  }

  lemma DecodeFirstOfEncoded(c: char, rest: Bytes)
    ensures DecodeFirst(EncodeChar(c) + rest) == Some((c, |EncodeChar(c)|))
  {
    var n := c as int;
    assert n == n / 64 * 64 + n % 64;
    assert n / 64 == n / 64 / 64 * 64 + n / 64 % 64;
    assert n / 64 / 64 == n / 64 / 64 / 64 * 64 + n / 64 / 64 % 64;
  }

  lemma ThreeBytes(b0: byte, b1: byte, b2: byte)
    requires 0xE0 <= b0 < 0xF0 && IsContinuation(b1) && IsContinuation(b2)
    ensures var n := (Bits(b0, 0xE0) * 64 + Bits(b1, 0x80)) * 64 + Bits(b2, 0x80);
            [0xE0 + n / 64 / 64, 0x80 + n / 64 % 64, 0x80 + n % 64] == [b0, b1, b2]
  {
    SplitBits(Bits(b0, 0xE0), Bits(b1, 0x80));
    SplitBits(Bits(b0, 0xE0) * 64 + Bits(b1, 0x80), Bits(b2, 0x80));
  }

  lemma FourBytes(b0: byte, b1: byte, b2: byte, b3: byte)
    requires 0xF0 <= b0 < 0xF8 && IsContinuation(b1) && IsContinuation(b2) && IsContinuation(b3)
    ensures var n := ((Bits(b0, 0xF0) * 64 + Bits(b1, 0x80)) * 64 + Bits(b2, 0x80)) * 64 + Bits(b3, 0x80);
            [0xF0 + n / 64 / 64 / 64, 0x80 + n / 64 / 64 % 64, 0x80 + n / 64 % 64, 0x80 + n % 64] == [b0, b1, b2, b3]
  {
    SplitBits(Bits(b0, 0xF0), Bits(b1, 0x80));
    SplitBits(Bits(b0, 0xF0) * 64 + Bits(b1, 0x80), Bits(b2, 0x80));
    SplitBits((Bits(b0, 0xF0) * 64 + Bits(b1, 0x80)) * 64 + Bits(b2, 0x80), Bits(b3, 0x80));
  }

  lemma EncodedDecodedFirst(b: Bytes)
    requires b != [] && DecodeFirst(b).Some?
    ensures b[..DecodeFirst(b).value.1] == EncodeChar(DecodeFirst(b).value.0)
  {
    var k := DecodeFirst(b).value.1;
    if k == 2 {
      SplitBits(Bits(b[0], 0xC0), Bits(b[1], 0x80));
    } else if k == 3 {
      ThreeBytes(b[0], b[1], b[2]);
    } else if k == 4 {
      FourBytes(b[0], b[1], b[2], b[3]);
    }
  }

  /** Every string survives encoding. */
  lemma {:induction false} DecodeEncode(s: string)
    ensures Decode(Encode(s)) == Some(s)
  {
    hide DecodeFirst, EncodeChar;
    if s == [] {
    } else {
      DecodeFirstOfEncoded(s[0], Encode(s[1..]));
      DecodeEncode(s[1..]);
      assert Encode(s)[|EncodeChar(s[0])|..] == Encode(s[1..]);
      assert [s[0]] + s[1..] == s;
    }
  }

  /** Every byte string that decodes is the encoding of what it decodes to. */
  lemma {:induction false} EncodeDecode(b: Bytes)
    requires Decode(b).Some?
    ensures Encode(Decode(b).value) == b
  {
    hide DecodeFirst, EncodeChar;
    if b == [] {
    } else {
      var (c, k) := DecodeFirst(b).value;
      EncodedDecodedFirst(b);
      EncodeDecode(b[k..]);
      var rest := Decode(b[k..]).value;
      assert Decode(b) == Some([c] + rest) && ([c] + rest)[1..] == rest;
      assert b == b[..k] + b[k..];
    }
  }

  /** Encoding is injective, so comparing encodings compares strings. */
  lemma EncodeInjective(s: string, t: string)
    requires Encode(s) == Encode(t)
    ensures s == t
  {
    DecodeEncode(s);
    DecodeEncode(t);
  }

  /** The shape of an encoding, as section 3 of RFC 3629 tables it: the ranges of
      its bytes, and the scalar value they carry, six bits after the first byte. */
  lemma EncodingExactly(c: char)
    ensures var e, n := EncodeChar(c), c as int;
            && (n < 0x80 ==> e == [n])
            && (0x80 <= n < 0x800 ==>
                  && |e| == 2 && 0xC2 <= e[0] <= 0xDF && 0x80 <= e[1] <= 0xBF
                  && n == (e[0] as int - 0xC0) * 64 + (e[1] as int - 0x80))
            && (0x800 <= n < 0x1_0000 ==>
                  && |e| == 3 && 0xE0 <= e[0] <= 0xEF && 0x80 <= e[1] <= 0xBF && 0x80 <= e[2] <= 0xBF
                  && n == (e[0] as int - 0xE0) * 4096 + (e[1] as int - 0x80) * 64 + (e[2] as int - 0x80))
            && (0x1_0000 <= n ==>
                  && |e| == 4 && 0xF0 <= e[0] <= 0xF4
                  && 0x80 <= e[1] <= 0xBF && 0x80 <= e[2] <= 0xBF && 0x80 <= e[3] <= 0xBF
                  && n == (e[0] as int - 0xF0) * 262144 + (e[1] as int - 0x80) * 4096
                          + (e[2] as int - 0x80) * 64 + (e[3] as int - 0x80))
  {
  }

  predicate Ascii(s: string) { forall i :: 0 <= i < |s| ==> s[i] < '\U{80}' }

  /** A text is encoded character by character, and an ASCII character as itself. */
  lemma {:induction false} EncodeJoin(a: string, b: string)
    ensures Encode(a + b) == Encode(a) + Encode(b)
    decreases |a|
  {
    hide EncodeChar;
    if a == [] {
      assert a + b == b;
    } else {
      assert (a + b)[1..] == a[1..] + b;
      EncodeJoin(a[1..], b);
    }
  }

  lemma AsciiChar(c: char)
    requires c < '\U{80}'
    ensures EncodeChar(c) == [c as int]
  {
  }

  /** The bytes of an ASCII text. */
  function AsciiBytes(s: string): Bytes
    requires Ascii(s)
  {
    if s == [] then [] else [s[0] as int] + AsciiBytes(s[1..])
  }

  lemma {:induction false} AsciiEncoded(s: string)
    requires Ascii(s)
    ensures Encode(s) == AsciiBytes(s)
  {
    hide EncodeChar;
    if s == [] {
    } else {
      AsciiEncoded(s[1..]);
      AsciiChar(s[0]);
    }
  }

  lemma {:induction false} AsciiLength(s: string)
    requires Ascii(s)
    ensures |AsciiBytes(s)| == |s|
  {
    if s == [] {
    } else {
      AsciiLength(s[1..]);
    }
  }
}
