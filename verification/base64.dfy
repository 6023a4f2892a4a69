/** URL-safe base64 without padding (section 5 of RFC 4648), strict about the unused
    bits of the last digit, as the configuration in a file name uses it. */
module UrlBase64 {
  import opened Wrappers

  function Digit(v: nat): (c: char)
    requires v < 64
  {
    if v < 26 then (65 + v) as char
    else if v < 52 then (71 + v) as char
    else if v < 62 then (v - 4) as char
    else if v == 62 then '-'
    else '_'
  }

  /** The value of a digit, -1 for any other character. */
  function Value(c: char): (v: int)
    ensures -1 <= v < 64
  {
    if 'A' <= c <= 'Z' then c as int - 65
    else if 'a' <= c <= 'z' then c as int - 71
    else if '0' <= c <= '9' then c as int + 4
    else if c == '-' then 62
    else if c == '_' then 63
    else -1
  }

  lemma ValueOfDigit(v: nat)
    requires v < 64
    ensures Value(Digit(v)) == v && (Digit(v) == '-' <==> v == 62)
  {
  }

  lemma DigitOfValue(c: char)
    requires Value(c) >= 0
    ensures Digit(Value(c)) == c
  {
  }

  function Encode(b: seq<Byte>): (s: string) {
    if |b| == 0 then []
    else if |b| == 1 then [Digit(b[0] / 4), Digit(b[0] % 4 * 16)]
    else if |b| == 2 then [Digit(b[0] / 4), Digit(b[0] % 4 * 16 + b[1] / 16), Digit(b[1] % 16 * 4)]
    else EncodeGroup(b[0], b[1], b[2]) + Encode(b[3..])
  }

  function EncodeGroup(x: Byte, y: Byte, z: Byte): (s: string)
    ensures |s| == 4
  {
    [Digit(x / 4), Digit(x % 4 * 16 + y / 16), Digit(y % 16 * 4 + z / 64), Digit(z % 64)]
  }

  function Decode(s: string): (r: Option<seq<Byte>>)
    decreases |s|
  {
    if |s| == 0 then Some([])
    else if |s| == 1 then None
    else
      var v0, v1 := Value(s[0]), Value(s[1]);
      if v0 < 0 || v1 < 0 then None
      else if |s| == 2 then if v1 % 16 != 0 then None else Some([v0 * 4 + v1 / 16])
      else
        var v2 := Value(s[2]);
        if v2 < 0 then None
        else if |s| == 3 then
          if v2 % 4 != 0 then None else Some([v0 * 4 + v1 / 16, v1 % 16 * 16 + v2 / 4])
        else
          var v3 := Value(s[3]);
          if v3 < 0 then None
          else
            match Decode(s[4..])
            case None => None
            case Some(rest) => Some(DecodeGroup(v0, v1, v2, v3) + rest)
  }

  function DecodeGroup(v0: nat, v1: nat, v2: nat, v3: nat): (b: seq<Byte>)
    requires v0 < 64 && v1 < 64 && v2 < 64 && v3 < 64
    ensures |b| == 3
  {
    [v0 * 4 + v1 / 16, v1 % 16 * 16 + v2 / 4, v2 % 4 * 64 + v3]
  }

  lemma DivMod4(a: nat, r: nat)
    requires r < 4
    ensures (a * 4 + r) / 4 == a && (a * 4 + r) % 4 == r
  {
  }

  lemma DivMod16(a: nat, r: nat)
    requires r < 16
    ensures (a * 16 + r) / 16 == a && (a * 16 + r) % 16 == r
  {
  }

  lemma DivMod64(a: nat, r: nat)
    requires r < 64
    ensures (a * 64 + r) / 64 == a && (a * 64 + r) % 64 == r
  {
  }

  lemma GroupRoundTrip(x: Byte, y: Byte, z: Byte)
    ensures var s := EncodeGroup(x, y, z);
            && Value(s[0]) >= 0 && Value(s[1]) >= 0 && Value(s[2]) >= 0 && Value(s[3]) >= 0
            && DecodeGroup(Value(s[0]), Value(s[1]), Value(s[2]), Value(s[3])) == [x, y, z]
  {
    ValueOfDigit(x / 4);
    ValueOfDigit(x % 4 * 16 + y / 16);
    ValueOfDigit(y % 16 * 4 + z / 64);
    ValueOfDigit(z % 64);
    DivMod16(x % 4, y / 16);
    DivMod4(y % 16, z / 64);
  }

  lemma DecodeEncodeOne(x: Byte)
    ensures Decode(Encode([x])) == Some([x])
  {
    ValueOfDigit(x / 4);
    ValueOfDigit(x % 4 * 16);
    DivMod16(x % 4, 0);
  }

  lemma DecodeEncodeTwo(x: Byte, y: Byte)
    ensures Decode(Encode([x, y])) == Some([x, y])
  {
    var v0, v1, v2 := x / 4, x % 4 * 16 + y / 16, y % 16 * 4;
    ValueOfDigit(v0);
    ValueOfDigit(v1);
    ValueOfDigit(v2);
    DivMod16(x % 4, y / 16);
    DivMod4(y % 16, 0);
    assert Encode([x, y]) == [Digit(v0), Digit(v1), Digit(v2)];
    DecodeThree([Digit(v0), Digit(v1), Digit(v2)], v0, v1, v2);
    assert v0 * 4 + v1 / 16 == x;
    assert v1 % 16 * 16 + v2 / 4 == y;
  }

  lemma DecodeThree(s: string, v0: nat, v1: nat, v2: nat)
    requires |s| == 3 && v0 == Value(s[0]) && v1 == Value(s[1]) && v2 == Value(s[2]) && v2 % 4 == 0
    ensures Decode(s) == Some([v0 * 4 + v1 / 16, v1 % 16 * 16 + v2 / 4])
  {
  }

  lemma {:induction false} DecodeEncode(b: seq<Byte>)
    ensures Decode(Encode(b)) == Some(b)
  {
    if |b| == 1 {
      assert b == [b[0]];
      DecodeEncodeOne(b[0]);
    } else if |b| == 2 {
      assert b == [b[0], b[1]];
      DecodeEncodeTwo(b[0], b[1]);
    } else if |b| > 2 {
      GroupRoundTrip(b[0], b[1], b[2]);
      DecodeEncode(b[3..]);
      assert Encode(b)[4..] == Encode(b[3..]);
      assert b == [b[0], b[1], b[2]] + b[3..];
    }
  }

  /** The decoder is strict: a byte string has one spelling only. */
  lemma {:induction false} EncodeDecode(s: string)
    requires Decode(s).Some?
    ensures Encode(Decode(s).value) == s
  {
    if |s| == 2 {
      SpellingOfTwo(s);
    } else if |s| == 3 {
      SpellingOfThree(s);
    } else if |s| > 3 {
      var g, rest := DecodeMore(s);
      EncodeDecode(s[4..]);
      SpellingOfMore(s, g, rest);
    }
  }

  lemma DecodeMore(s: string) returns (g: seq<Byte>, rest: seq<Byte>)
    requires |s| > 3 && Decode(s).Some?
    ensures Decode(s[4..]) == Some(rest) && Decode(s) == Some(g + rest)
    ensures |g| == 3 && EncodeGroup(g[0], g[1], g[2]) == s[..4]
  {
    DecodeParts(s);
    g := DecodeGroup(Value(s[0]), Value(s[1]), Value(s[2]), Value(s[3]));
    rest := Decode(s[4..]).value;
    GroupSpelling(s[0], s[1], s[2], s[3]);
    assert s[..4] == [s[0], s[1], s[2], s[3]];
  }

  lemma DecodeParts(s: string)
    requires |s| > 3 && Decode(s).Some?
    ensures Value(s[0]) >= 0 && Value(s[1]) >= 0 && Value(s[2]) >= 0 && Value(s[3]) >= 0
    ensures Decode(s[4..]).Some?
    ensures Decode(s).value == DecodeGroup(Value(s[0]), Value(s[1]), Value(s[2]), Value(s[3])) + Decode(s[4..]).value
  {
  }

  lemma SpellingOfMore(s: string, g: seq<Byte>, rest: seq<Byte>)
    requires |s| > 3 && |g| == 3 && EncodeGroup(g[0], g[1], g[2]) == s[..4] && Encode(rest) == s[4..]
    ensures Encode(g + rest) == s
  {
    EncodeMore(g, rest);
    assert s == s[..4] + s[4..];
  }

  lemma EncodeMore(g: seq<Byte>, rest: seq<Byte>)
    requires |g| == 3
    ensures Encode(g + rest) == EncodeGroup(g[0], g[1], g[2]) + Encode(rest)
  {
    assert (g + rest)[3..] == rest;
  }

  lemma SpellingOfTwo(s: string)
    requires |s| == 2 && Decode(s).Some?
    ensures Encode(Decode(s).value) == s
  {
    EncodeOne(Value(s[0]), Value(s[1]));
    DigitOfValue(s[0]);
    DigitOfValue(s[1]);
  }

  lemma EncodeOne(v0: nat, v1: nat)
    requires v0 < 64 && v1 < 64 && v1 % 16 == 0
    ensures Encode([v0 * 4 + v1 / 16]) == [Digit(v0), Digit(v1)]
  {
    var x := v0 * 4 + v1 / 16;
    DivMod4(v0, v1 / 16);
    assert x % 4 * 16 == v1;
  }

  lemma SpellingOfThree(s: string)
    requires |s| == 3 && Decode(s).Some?
    ensures Encode(Decode(s).value) == s
  {
    var v0, v1, v2 := Value(s[0]), Value(s[1]), Value(s[2]);
    DecodeThree(s, v0, v1, v2);
    EncodeTwo(v0, v1, v2);
    DigitOfValue(s[0]);
    DigitOfValue(s[1]);
    DigitOfValue(s[2]);
  }

  lemma EncodeTwo(v0: nat, v1: nat, v2: nat)
    requires v0 < 64 && v1 < 64 && v2 < 64 && v2 % 4 == 0
    ensures Encode([v0 * 4 + v1 / 16, v1 % 16 * 16 + v2 / 4]) == [Digit(v0), Digit(v1), Digit(v2)]
  {
    var x, y := v0 * 4 + v1 / 16, v1 % 16 * 16 + v2 / 4;
    DivMod4(v0, v1 / 16);
    DivMod16(v1 % 16, v2 / 4);
    assert x % 4 * 16 + y / 16 == v1 && y % 16 * 4 == v2;
  }

  lemma GroupSpelling(c0: char, c1: char, c2: char, c3: char)
    requires Value(c0) >= 0 && Value(c1) >= 0 && Value(c2) >= 0 && Value(c3) >= 0
    ensures var b := DecodeGroup(Value(c0), Value(c1), Value(c2), Value(c3));
            EncodeGroup(b[0], b[1], b[2]) == [c0, c1, c2, c3]
  {
    EncodeDigits(Value(c0), Value(c1), Value(c2), Value(c3));
    DigitOfValue(c0);
    DigitOfValue(c1);
    DigitOfValue(c2);
    DigitOfValue(c3);
  }

  lemma EncodeDigits(v0: nat, v1: nat, v2: nat, v3: nat)
    requires v0 < 64 && v1 < 64 && v2 < 64 && v3 < 64
    ensures var b := DecodeGroup(v0, v1, v2, v3);
            EncodeGroup(b[0], b[1], b[2]) == [Digit(v0), Digit(v1), Digit(v2), Digit(v3)]
  {
    var b := DecodeGroup(v0, v1, v2, v3);
    HighBits(b[0], b[1], v0, v1, v2);
    LowBits(b[1], b[2], v1, v2, v3);
  }

  lemma HighBits(x: nat, y: nat, v0: nat, v1: nat, v2: nat)
    requires v1 < 64 && v2 < 64 && x == v0 * 4 + v1 / 16 && y == v1 % 16 * 16 + v2 / 4
    ensures x / 4 == v0 && x % 4 * 16 + y / 16 == v1
  {
    DivMod4(v0, v1 / 16);
    DivMod16(v1 % 16, v2 / 4);
  }

  lemma LowBits(y: nat, z: nat, v1: nat, v2: nat, v3: nat)
    requires v2 < 64 && v3 < 64 && y == v1 % 16 * 16 + v2 / 4 && z == v2 % 4 * 64 + v3
    ensures y % 16 * 4 + z / 64 == v2 && z % 64 == v3
  {
    DivMod16(v1 % 16, v2 / 4);
    DivMod64(v2 % 4, v3);
  }

  lemma {:induction false} OnlyDigitsDecode(s: string, i: nat)
    requires i < |s| && Value(s[i]) < 0
    ensures Decode(s) == None
  {
    if i >= 4 { OnlyDigitsDecode(s[4..], i - 4); }
  }

  // ---------------------------------------------------------------- the alphabet

  /** The alphabet of section 5 of RFC 4648, four digits to a group. */
  lemma Alphabet()
    ensures EncodeGroup(0x00, 0x10, 0x83) == "ABCD" && EncodeGroup(0x10, 0x51, 0x87) == "EFGH"
    ensures EncodeGroup(0x20, 0x92, 0x8B) == "IJKL" && EncodeGroup(0x30, 0xD3, 0x8F) == "MNOP"
    ensures EncodeGroup(0x41, 0x14, 0x93) == "QRST" && EncodeGroup(0x51, 0x55, 0x97) == "UVWX"
    ensures EncodeGroup(0x61, 0x96, 0x9B) == "YZab" && EncodeGroup(0x71, 0xD7, 0x9F) == "cdef"
    ensures EncodeGroup(0x82, 0x18, 0xA3) == "ghij" && EncodeGroup(0x92, 0x59, 0xA7) == "klmn"
    ensures EncodeGroup(0xA2, 0x9A, 0xAB) == "opqr" && EncodeGroup(0xB2, 0xDB, 0xAF) == "stuv"
    ensures EncodeGroup(0xC3, 0x1C, 0xB3) == "wxyz" && EncodeGroup(0xD3, 0x5D, 0xB7) == "0123"
    ensures EncodeGroup(0xE3, 0x9E, 0xBB) == "4567" && EncodeGroup(0xF3, 0xDF, 0xBF) == "89-_"
  {
  }

  /** A group of four digits spells the number that its three bytes spell, high part
      first. */
  lemma GroupIsNumber(x: Byte, y: Byte, z: Byte)
    ensures var s := EncodeGroup(x, y, z);
            Value(s[0]) * 0x40000 + Value(s[1]) * 0x1000 + Value(s[2]) * 0x40 + Value(s[3]) == x * 0x10000 + y * 0x100 + z
  {
    ValueOfDigit(x / 4);
    ValueOfDigit(x % 4 * 16 + y / 16);
    ValueOfDigit(y % 16 * 4 + z / 64);
    ValueOfDigit(z % 64);
  }

  /** The last one or two bytes are spelled as if zero bits followed, without the digits
      of these. */
  lemma ShortGroups(x: Byte, y: Byte)
    ensures Encode([x, y]) == EncodeGroup(x, y, 0)[..3] && Encode([x]) == EncodeGroup(x, 0, 0)[..2]
  {
  }

  // ---------------------------------------------------------------- where '-' can be

  predicate Ascii(b: seq<Byte>) { forall i :: 0 <= i < |b| ==> b[i] < 128 }

  /** No dash except as the fourth digit of a group. */
  predicate DashOnlyFourth(s: string) {
    forall i :: 0 <= i < |s| && s[i] == '-' ==> i % 4 == 3
  }

  lemma AsciiGroup(x: Byte, y: Byte, z: Byte)
    requires x < 128 && y < 128 && z < 128
    ensures var s := EncodeGroup(x, y, z); s[0] != '-' && s[1] != '-' && s[2] != '-'
  {
    ValueOfDigit(x / 4);
    ValueOfDigit(x % 4 * 16 + y / 16);
    ValueOfDigit(y % 16 * 4 + z / 64);
  }

  lemma GroupThenRest(g: string, rest: string)
    requires |g| == 4 && g[0] != '-' && g[1] != '-' && g[2] != '-' && DashOnlyFourth(rest)
    ensures DashOnlyFourth(g + rest)
  {
    forall i | 0 <= i < |g + rest| && (g + rest)[i] == '-' ensures i % 4 == 3 {
      if i >= 4 { assert rest[i - 4] == '-'; }
    }
  }

  /** The separator lemma: in the encoding of ASCII bytes a dash is always the fourth
      digit of its group, so two dashes are a multiple of four apart. */
  lemma {:induction false} AsciiDashes(b: seq<Byte>)
    requires Ascii(b)
    ensures DashOnlyFourth(Encode(b))
  {
    if |b| == 1 {
      ValueOfDigit(b[0] / 4);
      ValueOfDigit(b[0] % 4 * 16);
    } else if |b| == 2 {
      ValueOfDigit(b[0] / 4);
      ValueOfDigit(b[0] % 4 * 16 + b[1] / 16);
      ValueOfDigit(b[1] % 16 * 4);
    } else if |b| > 2 {
      AsciiGroup(b[0], b[1], b[2]);
      AsciiDashes(b[3..]);
      GroupThenRest(EncodeGroup(b[0], b[1], b[2]), Encode(b[3..]));
    }
  }

  lemma {:induction false} AllDigits(b: seq<Byte>)
    ensures forall i :: 0 <= i < |Encode(b)| ==> Value(Encode(b)[i]) >= 0
  {
    if |b| == 1 {
      ValueOfDigit(b[0] / 4);
      ValueOfDigit(b[0] % 4 * 16);
    } else if |b| == 2 {
      ValueOfDigit(b[0] / 4);
      ValueOfDigit(b[0] % 4 * 16 + b[1] / 16);
      ValueOfDigit(b[1] % 16 * 4);
    } else if |b| > 2 {
      GroupRoundTrip(b[0], b[1], b[2]);
      AllDigits(b[3..]);
      var g, rest := EncodeGroup(b[0], b[1], b[2]), Encode(b[3..]);
      forall i | 0 <= i < |Encode(b)| ensures Value(Encode(b)[i]) >= 0 {
        assert Encode(b)[i] == if i < 4 then g[i] else rest[i - 4];
      }
    }
  }

  lemma LongEncoding(b: seq<Byte>) returns (g: string)
    requires |b| >= 3
    ensures |g| == 4 && Encode(b) == g + Encode(b[3..])
  {
    g := EncodeGroup(b[0], b[1], b[2]);
  }

  lemma FourMore(n: nat)
    ensures (4 + n) % 4 == n % 4
  {
  }

  lemma LastDigitShort(b: seq<Byte>)
    requires 1 <= |b| <= 3 && b[|b| - 1] == 125
    ensures var s := Encode(b); |s| > 1 && s[|s| - 1] != '-' && (|b| < 3 ==> |s| < 4) && (|b| == 3 ==> |s| == 4 && s[3] == '9')
  {
    if |b| == 3 {
      assert Encode(b[3..]) == [];
      assert Digit(125 % 64) == '9';
    } else if |b| == 2 {
      assert Digit(125 % 16 * 4) == '0';
    } else {
      assert Digit(125 % 4 * 16) == 'Q';
    }
  }

  /** A text that ends in `}` never ends in a dash once encoded, and when its last group
      is full the last digit is `9`. */
  lemma {:induction false} LastDigit(b: seq<Byte>)
    requires |b| > 0 && b[|b| - 1] == 125
    ensures var s := Encode(b); |s| > 1 && s[|s| - 1] != '-' && (|s| % 4 == 0 ==> s[|s| - 1] == '9')
  {
    if |b| <= 3 {
      LastDigitShort(b);
    } else {
      LastDigit(b[3..]);
      var g := LongEncoding(b);
      FourMore(|Encode(b[3..])|);
    }
  }

  lemma DashedGroup(b: seq<Byte>)
    requires |b| >= 3 && b[1] == 0xEF && b[2] == 0xBE
    ensures |Encode(b)| >= 4 && Encode(b)[2] == '-' && Encode(b)[3] == '-'
  {
    ValueOfDigit(62);
    assert 0xEF % 16 * 4 + 0xBE / 64 == 62 && 0xBE % 64 == 62;
    assert EncodeGroup(b[0], b[1], b[2])[2..] == [Digit(62), Digit(62)];
  }

  /** Outside ASCII the separator lemma fails: EF BE in the last two places of a group
      is encoded with two dashes in a row. */
  lemma {:induction false} NonAsciiDashes(a: seq<Byte>, c: seq<Byte>) returns (i: nat)
    requires |a| % 3 == 1
    ensures var s := Encode(a + [0xEF, 0xBE] + c); i + 1 < |s| && s[i] == '-' && s[i + 1] == '-'
  {
    var b := a + [0xEF, 0xBE] + c;
    if |a| == 1 {
      DashedGroup(b);
      i := 2;
    } else {
      assert b[3..] == a[3..] + [0xEF, 0xBE] + c;
      i := NonAsciiDashes(a[3..], c);
      i := DashesFurtherOn(b, i);
    }
  }

  lemma DashesFurtherOn(b: seq<Byte>, i: nat) returns (j: nat)
    requires |b| >= 3
    requires var s := Encode(b[3..]); i + 1 < |s| && s[i] == '-' && s[i + 1] == '-'
    ensures var s := Encode(b); j + 1 < |s| && s[j] == '-' && s[j + 1] == '-'
  {
    var g := LongEncoding(b);
    j := i + 4;
  }
}
