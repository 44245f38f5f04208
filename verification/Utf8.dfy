/** UTF-8, as `std::str::from_utf8` accepts it: shortest forms only, no surrogates,
    nothing above U+10FFFF. A Rust `String` is a sequence of scalar values here. */
module Utf8 {
  import opened Wrappers

  type Byte = x: int | 0 <= x < 256

  predicate Scalar(n: int) { 0 <= n < 0xD800 || 0xE000 <= n < 0x110000 }

  predicate Cont(b: Byte) { 0x80 <= b < 0xC0 }

  /** The last six-bit group of `n`. */
  function Low(n: nat): (d: nat)
    ensures d < 64
  {
    n % 64
  }

  function EncodeScalar(n: nat): (bs: seq<Byte>)
    requires Scalar(n)
  {
    if n < 0x80 then [n]
    else if n < 0x800 then [0xC0 + n / 64, 0x80 + Low(n)]
    else if n < 0x10000 then [0xE0 + n / 64 / 64, 0x80 + Low(n / 64), 0x80 + Low(n)]
    else [0xF0 + n / 64 / 64 / 64, 0x80 + Low(n / 64 / 64), 0x80 + Low(n / 64), 0x80 + Low(n)]
  }

  function Push(n: int, b: int): int { n * 64 + (b - 0x80) }

  lemma PushLow(n: nat)
    ensures Push(n / 64, 0x80 + Low(n)) == n
  {
  }

  lemma LowPush(n: nat, b: Byte)
    requires Cont(b)
    ensures Push(n, b) >= 0 && Push(n, b) / 64 == n && 0x80 + Low(Push(n, b)) == b
  {
  }

  /** The first scalar value of `b`, if `b` starts with a well-formed sequence. */
  function DecodeScalar(b: seq<Byte>): (r: Option<nat>)
    requires b != []
    ensures r.Some? ==> Scalar(r.value)
  {
    var b0 := b[0] as int;
    if b0 < 0x80 then Some(b0)
    else if 0xC2 <= b0 < 0xE0 && |b| >= 2 && Cont(b[1]) then
      Some(Push(b0 - 0xC0, b[1]))
    else if 0xE0 <= b0 < 0xF0 && |b| >= 3 && Cont(b[1]) && Cont(b[2]) then
      var n := Push(Push(b0 - 0xE0, b[1]), b[2]);
      if n >= 0x800 && Scalar(n) then Some(n) else None
    else if 0xF0 <= b0 < 0xF5 && |b| >= 4 && Cont(b[1]) && Cont(b[2]) && Cont(b[3]) then
      var n := Push(Push(Push(b0 - 0xF0, b[1]), b[2]), b[3]);
      if n >= 0x10000 && Scalar(n) then Some(n) else None
    else None
  }

  lemma DecodedScalar(b: seq<Byte>)
    requires b != [] && DecodeScalar(b).Some?
    ensures EncodeScalar(DecodeScalar(b).value) <= b
  {
    var b0 := b[0];
    var n := DecodeScalar(b).value;
    if b0 < 0x80 {
    } else if b0 < 0xE0 {
      LowPush(b0 - 0xC0, b[1]);
    } else if b0 < 0xF0 {
      LowPush(b0 - 0xE0, b[1]);
      LowPush(Push(b0 - 0xE0, b[1]), b[2]);
    } else {
      LowPush(b0 - 0xF0, b[1]);
      LowPush(Push(b0 - 0xF0, b[1]), b[2]);
      LowPush(Push(Push(b0 - 0xF0, b[1]), b[2]), b[3]);
    }
  }

  lemma EncodedScalar(n: nat, b: seq<Byte>)
    requires Scalar(n) && EncodeScalar(n) <= b
    ensures DecodeScalar(b) == Some(n)
  {
  }

  function EncodeChar(c: char): (bs: seq<Byte>)
    ensures bs != []
  {
    EncodeScalar(c as int)
  }

  function Encode(s: string): (bs: seq<Byte>) {
    if s == [] then [] else EncodeChar(s[0]) + Encode(s[1..])
  }

  /** Nothing is accepted except the encoding of the string returned. */
  function Decode(b: seq<Byte>): (r: Option<string>)
    ensures r.Some? ==> Encode(r.value) == b
  {
    if b == [] then Some([])
    else
      var n :- DecodeScalar(b);
      DecodedScalar(b);
      var c := n as char;
      var rest :- Decode(b[|EncodeChar(c)|..]);
      assert Encode([c] + rest) == EncodeChar(c) + Encode(rest);
      Some([c] + rest)
  }

  lemma {:induction false} DecodeEncode(s: string)
    ensures Decode(Encode(s)) == Some(s)
  {
    if s == [] {
    } else {
      var e, rest := EncodeChar(s[0]), Encode(s[1..]);
      EncodedScalar(s[0] as int, e + rest);
      DecodeEncode(s[1..]);
      assert Encode(s) == e + rest && (e + rest)[|e|..] == rest;
      assert (s[0] as int) as char == s[0] && [s[0]] + s[1..] == s;
    }
  }

  /** A C string can hold exactly the strings without a NUL character. */
  lemma {:induction false} NulFree(s: string)
    ensures 0 in Encode(s) <==> '\0' in s
  {
    if s == [] {
    } else {
      NulFree(s[1..]);
      assert 0 in EncodeChar(s[0]) <==> s[0] == '\0';
    }
  }
}
