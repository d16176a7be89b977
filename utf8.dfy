/** UTF-8 as Rust's `str::from_utf8`, `String::from_utf8` and
    `CStr::to_str` check it, and `str::as_bytes` produces it: the
    well-formed byte sequences of Table 3-7 of the Unicode Standard
    (no overlong forms, no surrogates, nothing above U+10FFFF). */
module Utf8 {
  import opened Outcomes
  import opened Text

  predicate IsCont(b: byte) { 0x80 <= b <= 0xBF }

  /** The first scalar value encoded at the head of `b`, with the number of
      bytes it takes, or None when `b` does not start with a well-formed
      sequence. */
  function DecodeFirst(b: seq<byte>): (r: Option<(char, nat)>)
    ensures r.Some? ==> 1 <= r.value.1 <= |b| && r.value.1 <= 4
  {
    if |b| == 0 then None
    else if b[0] < 0x80 then Some((b[0] as char, 1))
    else if 0xC2 <= b[0] <= 0xDF then
      if |b| >= 2 && IsCont(b[1])
      then Some((((b[0] as int - 0xC0) * 64 + (b[1] as int - 0x80)) as char, 2))
      else None
    else if 0xE0 <= b[0] <= 0xEF then
      var lo := if b[0] == 0xE0 then 0xA0 else 0x80;
      var hi := if b[0] == 0xED then 0x9F else 0xBF;
      if |b| >= 3 && lo <= b[1] <= hi && IsCont(b[2])
      then Some(((((b[0] as int - 0xE0) * 64 + (b[1] as int - 0x80)) * 64 + (b[2] as int - 0x80)) as char, 3))
      else None
    else if 0xF0 <= b[0] <= 0xF4 then
      var lo := if b[0] == 0xF0 then 0x90 else 0x80;
      var hi := if b[0] == 0xF4 then 0x8F else 0xBF;
      if |b| >= 4 && lo <= b[1] <= hi && IsCont(b[2]) && IsCont(b[3])
      then Some((((((b[0] as int - 0xF0) * 64 + (b[1] as int - 0x80)) * 64 + (b[2] as int - 0x80)) * 64 + (b[3] as int - 0x80)) as char, 4))
      else None
    else None
  }

  /** The text `b` encodes, or None when `b` is not valid UTF-8. */
  function Decode(b: seq<byte>): (r: Option<string>)
    ensures r.Some? ==> |r.value| <= |b|
    decreases |b|
  {
    if b == [] then Some("")
    else match DecodeFirst(b)
      case None => None
      case Some((c, n)) =>
        match Decode(b[n..])
        case None => None
        case Some(rest) => Some([c] + rest)
  }

  /** The UTF-8 encoding of one scalar value. */
  function EncodeChar(c: char): (b: seq<byte>)
    ensures 1 <= |b| <= 4
  {
    var cp := c as int;
    if cp < 0x80 then [cp]
    else if cp < 0x800 then [0xC0 + cp / 64, 0x80 + cp % 64]
    else if cp < 0x10000 then [0xE0 + cp / 64 / 64, 0x80 + cp / 64 % 64, 0x80 + cp % 64]
    else [0xF0 + cp / 64 / 64 / 64, 0x80 + cp / 64 / 64 % 64, 0x80 + cp / 64 % 64, 0x80 + cp % 64]
  }

  /** `str::as_bytes`: the UTF-8 encoding of a string. */
  function Encode(s: string): (b: seq<byte>)
    ensures |s| <= |b| <= 4 * |s|
  {
    if s == [] then [] else EncodeChar(s[0]) + Encode(s[1..])
  }

  /** Every encoded scalar value is decoded back, taking exactly its bytes. */
  lemma DecodeFirstEncodeChar(c: char, rest: seq<byte>)
    ensures DecodeFirst(EncodeChar(c) + rest) == Some((c, |EncodeChar(c)|))
  {
    var cp := c as int;
    if cp < 0x80 {
    } else if cp < 0x800 {
      DecodeFirstEncodeTwo(c, rest);
    } else if cp < 0x10000 {
      DecodeFirstEncodeThree(c, rest);
    } else {
      DecodeFirstEncodeFour(c, rest);
    }
  }

  lemma DecodeFirstEncodeTwo(c: char, rest: seq<byte>)
    requires 0x80 <= c as int < 0x800
    ensures DecodeFirst(EncodeChar(c) + rest) == Some((c, 2))
  {
    var cp := c as int;
    var b := EncodeChar(c) + rest;
    assert b[0] == 0xC0 + cp / 64 && b[1] == 0x80 + cp % 64;
  }

  lemma DecodeFirstEncodeThree(c: char, rest: seq<byte>)
    requires 0x800 <= c as int < 0x10000
    ensures DecodeFirst(EncodeChar(c) + rest) == Some((c, 3))
  {
    var cp := c as int;
    var b := EncodeChar(c) + rest;
    var q1 := cp / 64;
    assert b[0] == 0xE0 + q1 / 64 && b[1] == 0x80 + q1 % 64 && b[2] == 0x80 + cp % 64;
    assert cp == (q1 / 64 * 64 + q1 % 64) * 64 + cp % 64;
  }

  lemma DecodeFirstEncodeFour(c: char, rest: seq<byte>)
    requires 0x10000 <= c as int
    ensures DecodeFirst(EncodeChar(c) + rest) == Some((c, 4))
  {
    var cp := c as int;
    var b := EncodeChar(c) + rest;
    var q1 := cp / 64;
    var q2 := q1 / 64;
    assert b[0] == 0xF0 + q2 / 64 && b[1] == 0x80 + q2 % 64;
    assert b[2] == 0x80 + q1 % 64 && b[3] == 0x80 + cp % 64;
    assert cp == ((q2 / 64 * 64 + q2 % 64) * 64 + q1 % 64) * 64 + cp % 64;
  }

  /** A well-formed head sequence is the encoding of the value decoded from
      it; the two-, three- and four-byte forms one by one. */
  lemma EncodeCharDecodeTwo(b: seq<byte>)
    requires DecodeFirst(b).Some? && 0xC2 <= b[0] <= 0xDF
    ensures EncodeChar(DecodeFirst(b).value.0) == b[..2]
  {
    var cp := DecodeFirst(b).value.0 as int;
    assert cp == (b[0] as int - 0xC0) * 64 + (b[1] as int - 0x80);
    assert cp / 64 == b[0] - 0xC0 && cp % 64 == b[1] - 0x80;
  }

  lemma EncodeCharDecodeThree(b: seq<byte>)
    requires DecodeFirst(b).Some? && 0xE0 <= b[0] <= 0xEF
    ensures EncodeChar(DecodeFirst(b).value.0) == b[..3]
  {
    var cp := DecodeFirst(b).value.0 as int;
    var q1 := (b[0] as int - 0xE0) * 64 + (b[1] as int - 0x80);
    assert cp == q1 * 64 + (b[2] as int - 0x80);
    assert cp / 64 == q1 && cp % 64 == b[2] - 0x80;
    assert q1 / 64 == b[0] - 0xE0 && q1 % 64 == b[1] - 0x80;
  }

  lemma EncodeCharDecodeFour(b: seq<byte>)
    requires DecodeFirst(b).Some? && 0xF0 <= b[0]
    ensures EncodeChar(DecodeFirst(b).value.0) == b[..4]
  {
    var cp := DecodeFirst(b).value.0 as int;
    var q2 := (b[0] as int - 0xF0) * 64 + (b[1] as int - 0x80);
    var q1 := q2 * 64 + (b[2] as int - 0x80);
    assert cp == q1 * 64 + (b[3] as int - 0x80);
    assert cp / 64 == q1 && cp % 64 == b[3] - 0x80;
    assert q1 / 64 == q2 && q1 % 64 == b[2] - 0x80;
    assert q2 / 64 == b[0] - 0xF0 && q2 % 64 == b[1] - 0x80;
  }

  lemma EncodeCharDecodeFirst(b: seq<byte>)
    requires DecodeFirst(b).Some?
    ensures EncodeChar(DecodeFirst(b).value.0) == b[..DecodeFirst(b).value.1]
  {
    if b[0] < 0x80 {
    } else if b[0] <= 0xDF {
      EncodeCharDecodeTwo(b);
    } else if b[0] <= 0xEF {
      EncodeCharDecodeThree(b);
    } else {
      EncodeCharDecodeFour(b);
    }
  }

  /** Decoding an encoded string gives the string back. */
  lemma {:induction false} DecodeEncode(s: string)
    ensures Decode(Encode(s)) == Some(s)
  {
    if s != [] {
      var e := EncodeChar(s[0]);
      DecodeFirstEncodeChar(s[0], Encode(s[1..]));
      assert (e + Encode(s[1..]))[|e|..] == Encode(s[1..]);
      DecodeEncode(s[1..]);
      assert [s[0]] + s[1..] == s;
    }
  }

  /** Valid UTF-8 is the encoding of the text it decodes to. */
  lemma EncodeCons(c: char, rest: string)
    ensures Encode([c] + rest) == EncodeChar(c) + Encode(rest)
  {
    assert ([c] + rest)[1..] == rest;
  }

  lemma {:induction false} EncodeDecode(b: seq<byte>)
    requires Decode(b).Some?
    ensures Encode(Decode(b).value) == b
    decreases |b|
  {
    if b != [] {
      var (c, n) := DecodeFirst(b).value;
      var tail := b[n..];
      var rest := Decode(tail).value;
      EncodeCharDecodeFirst(b);
      EncodeDecode(tail);
      calc {
        Encode(Decode(b).value);
        Encode([c] + rest);
        { EncodeCons(c, rest); }
        EncodeChar(c) + Encode(rest);
        b[..n] + tail;
        b;
      }
    }
  }

  /** `Decode` and `Encode` are inverse: `b` is valid UTF-8 for `s` exactly
      when it is the encoding of `s`. */
  lemma DecodeIff(b: seq<byte>, s: string)
    ensures Decode(b) == Some(s) <==> b == Encode(s)
  {
    if Decode(b) == Some(s) { EncodeDecode(b); }
    if b == Encode(s) { DecodeEncode(s); }
  }

  /** Only the nul character is encoded with a zero byte. */
  lemma {:induction false} EncodeNul(s: string)
    ensures 0 in Encode(s) <==> '\0' in s
  {
    if s != [] {
      EncodeNul(s[1..]);
      var e := EncodeChar(s[0]);
      assert Encode(s) == e + Encode(s[1..]);
      assert 0 in e <==> s[0] == '\0';
      assert s == [s[0]] + s[1..];
    }
  }

  /** ASCII text is encoded one byte per character, by its code. */
  predicate IsAscii(s: string) {
    forall i :: 0 <= i < |s| ==> s[i] as int < 0x80
  }

  lemma {:induction false} EncodeAscii(s: string)
    requires IsAscii(s)
    ensures |Encode(s)| == |s|
    ensures forall i :: 0 <= i < |s| ==> Encode(s)[i] == s[i] as int
  {
    if s != [] {
      EncodeAscii(s[1..]);
    }
  }
}
