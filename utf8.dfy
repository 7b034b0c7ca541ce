/**
 * Bytes and the UTF-8 encoding form of RFC 3629 (section 4 gives the table of
 * well-formed byte sequences). `Decode` is what `std::str::from_utf8` computes:
 * it accepts exactly the well-formed sequences.
 */
module Utf8 {
  import opened Wrappers

  newtype byte = x: int | 0 <= x < 256

  predicate IsContinuation(b: byte) {
    0x80 <= b <= 0xBF
  }

  /** The one to four bytes that encode one Unicode scalar value. */
  function EncodeChar(c: char): (r: seq<byte>)
    ensures 1 <= |r| <= 4
  {
    var n := c as int;
    if n < 0x80 then
      [n as byte]
    else if n < 0x800 then
      [(0xC0 + n / 64) as byte, (0x80 + n % 64) as byte]
    else if n < 0x10000 then
      [(0xE0 + n / 4096) as byte, (0x80 + (n / 64) % 64) as byte, (0x80 + n % 64) as byte]
    else
      [(0xF0 + n / 262144) as byte, (0x80 + (n / 4096) % 64) as byte,
       (0x80 + (n / 64) % 64) as byte, (0x80 + n % 64) as byte]
  }

  function Encode(s: string): (r: seq<byte>)
    ensures |s| <= |r| <= 4 * |s|
  {
    if s == [] then [] else EncodeChar(s[0]) + Encode(s[1..])
  }

  /** The scalar value that starts `b` and the number of bytes it takes, if `b` starts well-formed. */
  function DecodeChar(b: seq<byte>): (r: Option<(char, nat)>)
    ensures r.Some? ==> 1 <= r.value.1 <= |b| && r.value.1 <= 4
  {
    if |b| == 0 then None
    else if b[0] < 0x80 then
      Some(((b[0] as int) as char, 1))
    else if 0xC2 <= b[0] <= 0xDF then
      if |b| >= 2 && IsContinuation(b[1]) then
        Some((((b[0] as int - 0xC0) * 64 + (b[1] as int - 0x80)) as char, 2))
      else None
    else if 0xE0 <= b[0] <= 0xEF then
      var lo: byte := if b[0] == 0xE0 then 0xA0 else 0x80;
      var hi: byte := if b[0] == 0xED then 0x9F else 0xBF;
      if |b| >= 3 && lo <= b[1] <= hi && IsContinuation(b[2]) then
        var n := (b[0] as int - 0xE0) * 4096 + (b[1] as int - 0x80) * 64 + (b[2] as int - 0x80);
        assert 0x800 <= n < 0x10000;
        assert n < 0xD800 || 0xE000 <= n;
        Some((n as char, 3))
      else None
    else if 0xF0 <= b[0] <= 0xF4 then
      var lo: byte := if b[0] == 0xF0 then 0x90 else 0x80;
      var hi: byte := if b[0] == 0xF4 then 0x8F else 0xBF;
      if |b| >= 4 && lo <= b[1] <= hi && IsContinuation(b[2]) && IsContinuation(b[3]) then
        var n := (b[0] as int - 0xF0) * 262144 + (b[1] as int - 0x80) * 4096
                 + (b[2] as int - 0x80) * 64 + (b[3] as int - 0x80);
        assert 0x10000 <= n < 0x110000;
        Some((n as char, 4))
      else None
    else None
  }

  /** `std::str::from_utf8`: the decoded text, or None when `b` is not well-formed UTF-8. */
  function Decode(b: seq<byte>): Option<string>
    decreases |b|
  {
    if |b| == 0 then Some([])
    else match DecodeChar(b)
      case None => None
      case Some((c, n)) =>
        match Decode(b[n..])
        case None => None
        case Some(s) => Some([c] + s)
  }

  lemma DivMod64(n: int)
    requires n >= 0
    ensures n == (n / 64) * 64 + n % 64 && 0 <= n % 64 < 64
  {
  }

  lemma DecodeEncodeChar(c: char, rest: seq<byte>)
    ensures DecodeChar(EncodeChar(c) + rest) == Some((c, |EncodeChar(c)|))
  {
    var n := c as int;
    if n < 0x80 {
    } else if n < 0x800 {
      DecodeEncode2(c, rest);
    } else if n < 0x10000 {
      DecodeEncode3(c, rest);
    } else {
      DecodeEncode4(c, rest);
    }
  }

  lemma DecodeEncode2(c: char, rest: seq<byte>)
    requires 0x80 <= c as int < 0x800
    ensures DecodeChar(EncodeChar(c) + rest) == Some((c, 2))
  {
    var n := c as int;
    var b := EncodeChar(c) + rest;
    DivMod64(n);
    assert b[0] as int == 0xC0 + n / 64 && b[1] as int == 0x80 + n % 64;
    assert (b[0] as int - 0xC0) * 64 + (b[1] as int - 0x80) == n;
  }

  lemma DecodeEncode3(c: char, rest: seq<byte>)
    requires 0x800 <= c as int < 0x10000
    ensures DecodeChar(EncodeChar(c) + rest) == Some((c, 3))
  {
    var n := c as int;
    var b := EncodeChar(c) + rest;
    var q := n / 64;
    DivMod64(n);
    DivMod64(q);
    assert q / 64 == n / 4096;
    assert b[0] as int == 0xE0 + q / 64 && b[1] as int == 0x80 + q % 64 && b[2] as int == 0x80 + n % 64;
    assert (b[0] as int - 0xE0) * 4096 + (b[1] as int - 0x80) * 64 + (b[2] as int - 0x80) == n;
  }

  lemma DecodeEncode4(c: char, rest: seq<byte>)
    requires 0x10000 <= c as int
    ensures DecodeChar(EncodeChar(c) + rest) == Some((c, 4))
  {
    var n := c as int;
    var b := EncodeChar(c) + rest;
    var q := n / 64;
    var q2 := q / 64;
    DivMod64(n);
    DivMod64(q);
    DivMod64(q2);
    assert q2 == n / 4096 && q2 / 64 == n / 262144;
    assert b[0] as int == 0xF0 + q2 / 64 && b[1] as int == 0x80 + q2 % 64;
    assert b[2] as int == 0x80 + q % 64 && b[3] as int == 0x80 + n % 64;
    assert (b[0] as int - 0xF0) * 262144 + (b[1] as int - 0x80) * 4096
           + (b[2] as int - 0x80) * 64 + (b[3] as int - 0x80) == n;
  }

  /** Every text survives `Decode(Encode(s))`: encoding never produces a rejected sequence. */
  lemma {:induction false} DecodeEncode(s: string)
    ensures Decode(Encode(s)) == Some(s)
  {
    if s != [] {
      var e := EncodeChar(s[0]);
      DecodeEncodeChar(s[0], Encode(s[1..]));
      assert Encode(s) == e + Encode(s[1..]);
      assert Encode(s)[|e|..] == Encode(s[1..]);
      DecodeEncode(s[1..]);
      assert [s[0]] + s[1..] == s;
    }
  }

  lemma EncodeDecodeChar(b: seq<byte>)
    requires DecodeChar(b).Some?
    ensures EncodeChar(DecodeChar(b).value.0) == b[..DecodeChar(b).value.1]
  {
    var k := DecodeChar(b).value.1;
    if k == 2 {
      EncodeDecode2(b);
    } else if k == 3 {
      EncodeDecode3(b);
    } else if k == 4 {
      EncodeDecode4(b);
    }
  }

  lemma EncodeDecode2(b: seq<byte>)
    requires DecodeChar(b).Some? && DecodeChar(b).value.1 == 2
    ensures EncodeChar(DecodeChar(b).value.0) == b[..2]
  {
    var n := DecodeChar(b).value.0 as int;
    var d0, d1 := b[0] as int - 0xC0, b[1] as int - 0x80;
    assert n == d0 * 64 + d1 && 0 <= d1 < 64;
    assert n / 64 == d0 && n % 64 == d1;
  }

  lemma EncodeDecode3(b: seq<byte>)
    requires DecodeChar(b).Some? && DecodeChar(b).value.1 == 3
    ensures EncodeChar(DecodeChar(b).value.0) == b[..3]
  {
    var n := DecodeChar(b).value.0 as int;
    var d0, d1, d2 := b[0] as int - 0xE0, b[1] as int - 0x80, b[2] as int - 0x80;
    assert n == d0 * 4096 + d1 * 64 + d2 && 0 <= d1 < 64 && 0 <= d2 < 64;
    assert n / 64 == d0 * 64 + d1 && n % 64 == d2;
    assert (n / 64) / 64 == d0 && (n / 64) % 64 == d1;
  }

  lemma EncodeDecode4(b: seq<byte>)
    requires DecodeChar(b).Some? && DecodeChar(b).value.1 == 4
    ensures EncodeChar(DecodeChar(b).value.0) == b[..4]
  {
    var n := DecodeChar(b).value.0 as int;
    var d0, d1, d2, d3 := b[0] as int - 0xF0, b[1] as int - 0x80, b[2] as int - 0x80, b[3] as int - 0x80;
    assert n == ((d0 * 64 + d1) * 64 + d2) * 64 + d3 && 0 <= d1 < 64 && 0 <= d2 < 64 && 0 <= d3 < 64;
    assert n / 64 == (d0 * 64 + d1) * 64 + d2 && n % 64 == d3;
    assert (n / 64) / 64 == d0 * 64 + d1 && (n / 64) % 64 == d2;
    assert n / 4096 == (n / 64) / 64 && n / 262144 == ((n / 64) / 64) / 64;
    assert ((n / 64) / 64) / 64 == d0 && ((n / 64) / 64) % 64 == d1;
  }

  /** A well-formed non-empty input is the encoding of its first scalar followed by a well-formed rest. */
  lemma DecodeFirst(b: seq<byte>) returns (c: char, k: nat)
    requires |b| > 0 && Decode(b).Some?
    ensures 1 <= k <= |b| && EncodeChar(c) == b[..k]
    ensures Decode(b[k..]).Some? && Decode(b).value == [c] + Decode(b[k..]).value
  {
    c, k := DecodeChar(b).value.0, DecodeChar(b).value.1;
    EncodeDecodeChar(b);
  }

  /** A decoded text is the only one that encodes to its input: UTF-8 is unambiguous. */
  lemma {:induction false} EncodeDecode(b: seq<byte>)
    requires Decode(b).Some?
    ensures Encode(Decode(b).value) == b
    decreases |b|
  {
    if |b| > 0 {
      var c, k := DecodeFirst(b);
      var rest := Decode(b[k..]).value;
      EncodeDecode(b[k..]);
      assert ([c] + rest)[1..] == rest;
      assert Encode([c] + rest) == EncodeChar(c) + Encode(rest);
      assert b == b[..k] + b[k..];
    }
  }

  /** `Decode` and `Encode` are inverse: a byte string decodes to `s` exactly when it is `s` encoded. */
  lemma DecodesTo(b: seq<byte>, s: string)
    ensures Decode(b) == Some(s) <==> b == Encode(s)
  {
    if Decode(b) == Some(s) {
      EncodeDecode(b);
    }
    if b == Encode(s) {
      DecodeEncode(s);
    }
  }

  predicate IsAscii(s: string) {
    forall i | 0 <= i < |s| :: s[i] as int < 0x80
  }

  /** The bytes of an ASCII text, one per character. */
  function Ascii(s: string): (r: seq<byte>)
    requires IsAscii(s)
    ensures |r| == |s|
  {
    seq(|s|, i requires 0 <= i < |s| => s[i] as int as byte)
  }

  /** For ASCII text the one-byte-per-character form is its UTF-8 encoding. */
  lemma {:induction false} AsciiIsUtf8(s: string)
    requires IsAscii(s)
    ensures Ascii(s) == Encode(s)
  {
    if s != [] {
      AsciiIsUtf8(s[1..]);
      assert Ascii(s) == [s[0] as int as byte] + Ascii(s[1..]);
    }
  }
}
