/** UTF-8, so that labels on the wire and strings in the program are different types. */
module Utf8 {
  import opened Text

  type byte = b: int | 0 <= b < 256

  predicate Continuation(b: byte) { 0x80 <= b < 0xC0 }

  function EncodeChar(c: char): (r: seq<byte>)
    ensures 1 <= |r| <= 4
  {
    var v := c as int;
    if v < 0x80 then [v]
    else if v < 0x800 then [0xC0 + v / 64, 0x80 + v % 64]
    else if v < 0x1_0000 then [0xE0 + v / 4096, 0x80 + v / 64 % 64, 0x80 + v % 64]
    else [0xF0 + v / 262144, 0x80 + v / 4096 % 64, 0x80 + v / 64 % 64, 0x80 + v % 64]
  }

  // The scalar value spelled by a lead byte and its continuation bytes.
  function Value2(a: int, b: int): int { (a - 0xC0) * 64 + (b - 0x80) }

  function Value3(a: int, b: int, c: int): int { (a - 0xE0) * 4096 + (b - 0x80) * 64 + (c - 0x80) }

  function Value4(a: int, b: int, c: int, d: int): int {
    (a - 0xF0) * 262144 + (b - 0x80) * 4096 + (c - 0x80) * 64 + (d - 0x80)
  }

  /** The first scalar value of `b` and the number of bytes it takes; None when ill-formed. */
  function DecodeFirst(b: seq<byte>): (r: Option<(char, nat)>)
    ensures r.Some? ==> 1 <= r.value.1 <= |b|
  {
    if b == [] then None
    else if b[0] < 0x80 then Some((b[0] as char, 1))
    else if 0xC2 <= b[0] < 0xE0 then
      if |b| >= 2 && Continuation(b[1]) then Some((Value2(b[0], b[1]) as char, 2)) else None
    else if 0xE0 <= b[0] < 0xF0 then
      if |b| >= 3 && Continuation(b[1]) && Continuation(b[2]) then
        var v := Value3(b[0], b[1], b[2]);
        if 0x800 <= v < 0xD800 || 0xE000 <= v then Some((v as char, 3)) else None
      else None
    else if 0xF0 <= b[0] < 0xF5 then
      if |b| >= 4 && Continuation(b[1]) && Continuation(b[2]) && Continuation(b[3]) then
        var v := Value4(b[0], b[1], b[2], b[3]);
        if 0x1_0000 <= v < 0x11_0000 then Some((v as char, 4)) else None
      else None
    else None
  }

  /** `str::as_bytes`. */
  function Encode(s: string): seq<byte> {
    if s == [] then [] else EncodeChar(s[0]) + Encode(s[1..])
  }

  /** `std::str::from_utf8`. */
  function Decode(b: seq<byte>): (r: Option<string>)
    decreases |b|
  {
    if b == [] then Some("")
    else
      match DecodeFirst(b)
      case None => None
      case Some((c, n)) =>
        match Decode(b[n..])
        case None => None
        case Some(s) => Some([c] + s)
  }

  lemma Pack3(v: int)
    requires 0 <= v < 0x1_0000
    ensures Value3(0xE0 + v / 4096, 0x80 + v / 64 % 64, 0x80 + v % 64) == v
  {
    assert v / 64 / 64 == v / 4096;
  }

  lemma Pack4(v: int)
    requires 0 <= v
    ensures Value4(0xF0 + v / 262144, 0x80 + v / 4096 % 64, 0x80 + v / 64 % 64, 0x80 + v % 64) == v
  {
    assert v / 64 / 64 == v / 4096;
    assert v / 4096 / 64 == v / 262144;
  }

  lemma DecodeFirstEncoded(c: char, rest: seq<byte>)
    ensures DecodeFirst(EncodeChar(c) + rest) == Some((c, |EncodeChar(c)|))
  {
    var v := c as int;
    var b := EncodeChar(c) + rest;
    if v < 0x80 {
    } else if v < 0x800 {
      assert b[0] == 0xC0 + v / 64 && b[1] == 0x80 + v % 64;
    } else if v < 0x1_0000 {
      Pack3(v);
      assert b[0] == 0xE0 + v / 4096 && b[1] == 0x80 + v / 64 % 64 && b[2] == 0x80 + v % 64;
    } else {
      Pack4(v);
      assert b[0] == 0xF0 + v / 262144 && b[1] == 0x80 + v / 4096 % 64;
      assert b[2] == 0x80 + v / 64 % 64 && b[3] == 0x80 + v % 64;
    }
  }

  lemma {:induction false} DecodeEncode(s: string)
    ensures Decode(Encode(s)) == Some(s)
  {
    if s != [] {
      var e := EncodeChar(s[0]);
      DecodeEncode(s[1..]);
      DecodeFirstEncoded(s[0], Encode(s[1..]));
      assert (e + Encode(s[1..]))[|e|..] == Encode(s[1..]);
      assert [s[0]] + s[1..] == s;
    }
  }

  lemma FirstDecoded(b: seq<byte>)
    requires DecodeFirst(b).Some?
    ensures var (c, n) := DecodeFirst(b).value; EncodeChar(c) == b[..n]
  {
    var (c, n) := DecodeFirst(b).value;
    if n == 2 {
      assert (c as int) / 64 == b[0] - 0xC0 && (c as int) % 64 == b[1] - 0x80;
    } else if n == 3 {
      Unpack3(b[0], b[1], b[2]);
    } else if n == 4 {
      Unpack4(b[0], b[1], b[2], b[3]);
    }
  }

  lemma Unpack3(a: int, b: int, c: int)
    requires 0x80 <= b < 0xC0 && 0x80 <= c < 0xC0
    ensures var v := Value3(a, b, c); v / 4096 == a - 0xE0 && v / 64 % 64 == b - 0x80 && v % 64 == c - 0x80
  {
    var v := Value3(a, b, c);
    assert v == 64 * ((a - 0xE0) * 64 + (b - 0x80)) + (c - 0x80);
    assert v / 64 == (a - 0xE0) * 64 + (b - 0x80);
  }

  lemma Unpack4(a: int, b: int, c: int, d: int)
    requires 0x80 <= b < 0xC0 && 0x80 <= c < 0xC0 && 0x80 <= d < 0xC0
    ensures var v := Value4(a, b, c, d);
            v / 262144 == a - 0xF0 && v / 4096 % 64 == b - 0x80 && v / 64 % 64 == c - 0x80 && v % 64 == d - 0x80
  {
    var v := Value4(a, b, c, d);
    var high := (a - 0xF0) * 64 + (b - 0x80);
    assert v == 4096 * high + 64 * (c - 0x80) + (d - 0x80);
    assert v / 64 == 64 * high + (c - 0x80);
    assert v / 4096 == high;
  }

  /** Only the encoding of a string decodes to it: overlong and other ill-formed bytes are refused. */
  lemma {:induction false} EncodeDecode(b: seq<byte>)
    ensures Decode(b).Some? ==> Encode(Decode(b).value) == b
    decreases |b|
  {
    hide EncodeChar, DecodeFirst;
    if b != [] && Decode(b).Some? {
      var (c, n) := DecodeFirst(b).value;
      FirstDecoded(b);
      EncodeDecode(b[n..]);
      assert b == b[..n] + b[n..];
      assert ([c] + Decode(b[n..]).value)[1..] == Decode(b[n..]).value;
    }
  }
}
