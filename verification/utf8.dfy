/** The bytes that the clipboard codec takes for a text are exactly the UTF-8 encodings
    (RFC 3629) of sequences of Unicode scalar values. */
module Utf8Text {
  import opened Wrappers
  import opened ClipboardCodec

  function CharBytes(ch: char): (b: seq<Byte>) {
    var n := ch as int;
    if n < 0x80 then [n]
    else if n < 0x800 then [0xC0 + n / 0x40, 0x80 + n % 0x40]
    else if n < 0x1_0000 then [0xE0 + n / 0x1000, 0x80 + n / 0x40 % 0x40, 0x80 + n % 0x40]
    else [0xF0 + n / 0x4_0000, 0x80 + n / 0x1000 % 0x40, 0x80 + n / 0x40 % 0x40, 0x80 + n % 0x40]
  }

  function Encoded(s: string): (b: seq<Byte>) { if s == "" then [] else CharBytes(s[0]) + Encoded(s[1..]) }

  // ---------------------------------------------------------------- encoding

  lemma CharIsValid(ch: char, rest: seq<Byte>)
    requires ValidUtf8(rest)
    ensures ValidUtf8(CharBytes(ch) + rest)
  {
    var n := ch as int;
    var b := CharBytes(ch) + rest;
    assert b[|CharBytes(ch)|..] == rest;
    assert n < 0xD800 || 0xE000 <= n < 0x11_0000;
    if n >= 0x1_0000 {
      assert n < 0x4_0000 ==> n / 0x1000 >= 0x10;
      assert n / 0x1000 % 0x40 == n / 0x1000 - n / 0x4_0000 * 0x40 by { Nested(n, 0x1000, 0x40); }
    } else if n >= 0x800 {
      assert n / 0x40 % 0x40 == n / 0x40 - n / 0x1000 * 0x40 by { Nested(n, 0x40, 0x40); }
    }
  }

  lemma Nested(n: nat, a: nat, b: nat)
    requires (a == 0x1000 || a == 0x40) && b == 0x40
    ensures n / a % b == n / a - n / (a * b) * b
  {
  }

  lemma {:induction false} EncodedIsValid(s: string)
    ensures ValidUtf8(Encoded(s))
  {
    if s != "" {
      EncodedIsValid(s[1..]);
      CharIsValid(s[0], Encoded(s[1..]));
    }
  }

  // ---------------------------------------------------------------- decoding

  lemma CharOfTwo(x: Byte, y: Byte) returns (ch: char)
    requires 0xC2 <= x <= 0xDF && 0x80 <= y <= 0xBF
    ensures CharBytes(ch) == [x, y]
  {
    ch := ((x - 0xC0) * 0x40 + (y - 0x80)) as char;
  }

  lemma CharOfThree(x: Byte, y: Byte, z: Byte) returns (ch: char)
    requires 0xE0 <= x <= 0xEF && 0x80 <= y <= 0xBF && 0x80 <= z <= 0xBF
    requires (x == 0xE0 ==> y >= 0xA0) && (x == 0xED ==> y <= 0x9F)
    ensures CharBytes(ch) == [x, y, z]
  {
    var a: nat, b: nat, c: nat := x - 0xE0, y - 0x80, z - 0x80;
    var n := a * 0x1000 + b * 0x40 + c;
    Digits3(a, b, c);
    ch := n as char;
  }

  lemma CharOfFour(x: Byte, y: Byte, z: Byte, w: Byte) returns (ch: char)
    requires 0xF0 <= x <= 0xF4 && 0x80 <= y <= 0xBF && 0x80 <= z <= 0xBF && 0x80 <= w <= 0xBF
    requires (x == 0xF0 ==> y >= 0x90) && (x == 0xF4 ==> y <= 0x8F)
    ensures CharBytes(ch) == [x, y, z, w]
  {
    var a: nat, b: nat, c: nat, d: nat := x - 0xF0, y - 0x80, z - 0x80, w - 0x80;
    var n := a * 0x4_0000 + b * 0x1000 + c * 0x40 + d;
    Digits3(a * 0x40 + b, c, d);
    assert n / 0x4_0000 == a && n / 0x1000 % 0x40 == b;
    ch := n as char;
  }

  lemma Digits3(a: nat, b: nat, c: nat)
    requires b < 0x40 && c < 0x40
    ensures var n := a * 0x1000 + b * 0x40 + c; n / 0x1000 == a && n / 0x40 % 0x40 == b && n % 0x40 == c
  {
    var n := a * 0x1000 + b * 0x40 + c;
    assert n / 0x40 == a * 0x40 + b;
  }

  /** The first character of a text, and what follows it. */
  lemma FirstChar(b: seq<Byte>) returns (ch: char, rest: seq<Byte>)
    requires b != [] && ValidUtf8(b)
    ensures ValidUtf8(rest) && b == CharBytes(ch) + rest
  {
    if b[0] < 0x80 {
      ch, rest := b[0] as char, b[1..];
    } else if b[0] <= 0xDF {
      ch := CharOfTwo(b[0], b[1]);
      rest := b[2..];
    } else if b[0] <= 0xEF {
      ch := CharOfThree(b[0], b[1], b[2]);
      rest := b[3..];
    } else {
      ch := CharOfFour(b[0], b[1], b[2], b[3]);
      rest := b[4..];
    }
  }

  lemma {:induction false} ValidIsEncoded(b: seq<Byte>) returns (s: string)
    requires ValidUtf8(b)
    ensures b == Encoded(s)
    decreases |b|
  {
    if b == [] {
      s := "";
    } else {
      var ch, rest := FirstChar(b);
      var t := ValidIsEncoded(rest);
      s := [ch] + t;
    }
  }

  /** Valid exactly when it is the encoding of some text. */
  lemma ValidIff(b: seq<Byte>)
    ensures ValidUtf8(b) <==> exists s :: b == Encoded(s)
  {
    if ValidUtf8(b) { var s := ValidIsEncoded(b); }
    if s :| b == Encoded(s) { EncodedIsValid(s); }
  }
}
