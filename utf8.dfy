/**
 * str.encode() and bytes.decode() with Python's default codec, UTF-8.
 * Decoding is strict: overlong forms, surrogates and code points above
 * U+10FFFF are rejected, as Python rejects them.
 */
module Utf8 {
  import opened Errors
  import opened Bytes

  predicate IsContinuation(b: byte) { 0x80 <= b <= 0xBF }

  /** The UTF-8 bytes of one character. */
  function EncodeChar(c: char): (r: bytes)
    ensures 1 <= |r| <= 4
  {
    var u := c as int;
    var q1 := u / 64;
    var q2 := q1 / 64;
    if u < 0x80 then [u]
    else if u < 0x800 then [0xC0 + q1, 0x80 + u % 64]
    else if u < 0x10000 then [0xE0 + q2, 0x80 + q1 % 64, 0x80 + u % 64]
    else [0xF0 + q2 / 64, 0x80 + q2 % 64, 0x80 + q1 % 64, 0x80 + u % 64]
  }

  /** str.encode(). */
  function Encode(s: string): (r: bytes)
    ensures |r| >= |s|
  {
    if s == [] then [] else EncodeChar(s[0]) + Encode(s[1..])
  }

  /** The first character of b and how many bytes it takes, if b starts with a well-formed sequence. */
  function DecodeChar(b: bytes): (r: Option<(char, nat)>)
    ensures r.Some? ==> 1 <= r.value.1 <= |b|
  {
    if b == [] then None
    else if b[0] < 0x80 then Some((b[0] as char, 1))
    else if 0xC2 <= b[0] <= 0xDF then
      if |b| >= 2 && IsContinuation(b[1]) then
        Some((((b[0] as int - 0xC0) * 64 + (b[1] as int - 0x80)) as char, 2))
      else None
    else if 0xE0 <= b[0] <= 0xEF then
      var lo := if b[0] == 0xE0 then 0xA0 else 0x80;
      var hi := if b[0] == 0xED then 0x9F else 0xBF;
      if |b| >= 3 && lo <= b[1] <= hi && IsContinuation(b[2]) then
        var u := (b[0] as int - 0xE0) * 4096 + (b[1] as int - 0x80) * 64 + (b[2] as int - 0x80);
        assert 0x800 <= u < 0xD800 || 0xE000 <= u < 0x10000;
        Some((u as char, 3))
      else None
    else if 0xF0 <= b[0] <= 0xF4 then
      var lo := if b[0] == 0xF0 then 0x90 else 0x80;
      var hi := if b[0] == 0xF4 then 0x8F else 0xBF;
      if |b| >= 4 && lo <= b[1] <= hi && IsContinuation(b[2]) && IsContinuation(b[3]) then
        var u := (b[0] as int - 0xF0) * 262144 + (b[1] as int - 0x80) * 4096 + (b[2] as int - 0x80) * 64 + (b[3] as int - 0x80);
        assert 0x10000 <= u < 0x110000;
        Some((u as char, 4))
      else None
    else None
  }

  /** bytes.decode(): UnicodeDecodeError on the first ill-formed sequence. */
  function Decode(b: bytes): (r: Result<string>)
    ensures r.Err? ==> r.error == UnicodeDecodeError
    decreases |b|
  {
    if b == [] then Ok([])
    else match DecodeChar(b)
      case None => Err(UnicodeDecodeError)
      case Some((c, n)) =>
        match Decode(b[n..])
        case Ok(rest) => Ok([c] + rest)
        case Err(e) => Err(e)
  }

  /** The decoder reads back exactly the bytes the encoder wrote for one character. */
  lemma DecodeEncodeChar(c: char, rest: bytes)
    ensures DecodeChar(EncodeChar(c) + rest) == Some((c, |EncodeChar(c)|))
  {
    var u := c as int;
    var q1 := u / 64;
    var q2 := q1 / 64;
    assert u == q1 * 64 + u % 64;
    assert q1 == q2 * 64 + q1 % 64;
    if u < 0x80 {
    } else if u < 0x800 {
      DecodeTwo(u, rest);
    } else if u < 0x10000 {
      DecodeThree(u, rest);
    } else {
      DecodeFour(u, rest);
    }
  }

  lemma DecodeTwo(u: int, rest: bytes)
    requires 0x80 <= u < 0x800
    ensures var b := [0xC0 + u / 64, 0x80 + u % 64] + rest;
      DecodeChar(b) == Some((u as char, 2))
  {
    assert u == (u / 64) * 64 + u % 64;
  }

  lemma DecodeThree(u: int, rest: bytes)
    requires 0x800 <= u < 0xD800 || 0xE000 <= u < 0x10000
    ensures var b := [0xE0 + u / 64 / 64, 0x80 + (u / 64) % 64, 0x80 + u % 64] + rest;
      DecodeChar(b) == Some((u as char, 3))
  {
    var q1 := u / 64;
    assert u == q1 * 64 + u % 64;
    assert q1 == (q1 / 64) * 64 + q1 % 64;
  }

  lemma DecodeFour(u: int, rest: bytes)
    requires 0x10000 <= u < 0x110000
    ensures var b := [0xF0 + u / 64 / 64 / 64, 0x80 + (u / 64 / 64) % 64, 0x80 + (u / 64) % 64, 0x80 + u % 64] + rest;
      DecodeChar(b) == Some((u as char, 4))
  {
    var q1 := u / 64;
    var q2 := q1 / 64;
    assert u == q1 * 64 + u % 64;
    assert q1 == q2 * 64 + q1 % 64;
    assert q2 == (q2 / 64) * 64 + q2 % 64;
  }

  /** bytes.decode(str.encode(s)) == s. */
  lemma {:induction false} DecodeEncode(s: string)
    ensures Decode(Encode(s)) == Ok(s)
  {
    if s != [] {
      var e := EncodeChar(s[0]);
      DecodeEncodeChar(s[0], Encode(s[1..]));
      assert Encode(s) == e + Encode(s[1..]);
      assert Encode(s)[|e|..] == Encode(s[1..]);
      DecodeEncode(s[1..]);
      assert Decode(Encode(s)) == Ok([s[0]] + s[1..]);
      assert [s[0]] + s[1..] == s;
    }
  }
}
