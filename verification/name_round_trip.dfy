/** The parser reads back what the printer wrote, whatever the download renamed. */
module NameRoundTrip {
  import opened Wrappers
  import opened Strings
  import opened UrlBase64
  import opened CustomServerName

  const P1: string := "-licensed-"
  const P2: string := "-licensed--"
  const P3: string := "-licensed---"

  // ---------------------------------------------------------------- file names

  /** A mark that the system adds to a second download: "(1)" or " (1)". */
  datatype Copy = Copy(spaced: bool, digits: string)

  ghost predicate PlainCopy(k: Copy) { forall ch :: ch in k.digits ==> '0' <= ch <= '9' }

  function CopyText(k: Copy): (s: string) { (if k.spaced then " " else "") + "(" + k.digits + ")" }

  function Copies(ks: seq<Copy>): (s: string) { if ks == [] then "" else CopyText(ks[0]) + Copies(ks[1..]) }

  /** Nothing, or "--" and a comment without dash, dot or equals sign. */
  ghost predicate PlainTail(t: string) {
    t == "" || (StartsWith(t, "--") && forall ch :: ch in t[2..] ==> ch != '-' && ch != '.' && ch != '=')
  }

  ghost predicate IsSeparator(sep: string) { sep == "--" || sep == P1 || sep == P2 || sep == P3 }

  ghost predicate IsExtension(ext: string) { Lower(ext) in {"", ".exe", ".exe.exe"} }

  // ---------------------------------------------------------------- names

  /** No "-licensed-" in the text, counting one dash in front of it. */
  ghost predicate Unmarked(b: string) { forall i :: !At("-" + b, i, P1) }

  /** What a caller can check of a printed name: the separators do not occur in it. */
  ghost predicate Uncut(n: string) { !Occurs(n, "--") && Unmarked(n) }

  ghost predicate Digits(n: string) {
    && |n| > 1 && n[0] != '-'
    && (forall i :: 0 <= i < |n| ==> Value(n[i]) >= 0)
  }

  lemma PrintedNameDigits(c: Codec, lic: CustomServer)
    requires Lawful(c)
    ensures var n := GenName(c, lic); Digits(n) && n[|n| - 1] == 'e'
  {
    var b := c.toJson(lic);
    assert c.fromJson(b) == Some(lic);
    AllDigits(b);
    LastDigit(b);
    FirstDigit(b);
  }

  lemma FirstDigit(b: seq<Byte>)
    requires |b| > 1 && b[0] == 123
    ensures Encode(b)[0] == 'e'
  {
    assert 123 / 4 == 30;
  }

  /** Where the dashes of an ASCII name are. */
  ghost predicate Spaced(n: string) {
    && (forall i :: 0 <= i < |n| && n[i] == '-' ==> (|n| - 1 - i) % 4 == 3)
    && (|n| % 4 == 0 ==> |n| > 0 && n[0] == '9')
  }

  lemma PrintedNameIsSpaced(c: Codec, lic: CustomServer)
    requires Lawful(c) && Ascii(c.toJson(lic))
    ensures Spaced(GenName(c, lic))
  {
    DataIsSpaced(c.toJson(lic));
  }

  lemma DataIsSpaced(b: seq<Byte>)
    requires Ascii(b) && |b| > 0 && b[|b| - 1] == 125
    ensures Spaced(Reverse(Encode(b)))
  {
    AsciiDashes(b);
    LastDigit(b);
  }

  /** Two dashes of such a name are never one or nine places apart. */
  lemma DashDistance(n: string, j: int)
    requires Spaced(n) && 0 <= j < |n| && n[j] == '-'
    ensures j >= 1 ==> n[j - 1] != '-'
    ensures j >= 9 ==> n[j - 9] != '-'
    ensures j == 8 ==> n[0] == '9'
  {
    var a := |n| - 1 - j;
    assert a % 4 == 3 && (a + 1) % 4 == 0 && (a + 9) % 4 == 0;
    if j >= 1 { assert |n| - 1 - (j - 1) == a + 1; }
    if j >= 9 { assert |n| - 1 - (j - 9) == a + 9; }
  }

  /** The name of an ASCII configuration is never cut: "-licensed-" would need two dashes
      nine apart. */
  lemma AsciiNameIsUncut(c: Codec, lic: CustomServer)
    requires Lawful(c) && Ascii(c.toJson(lic))
    ensures Uncut(GenName(c, lic))
  {
    AsciiDataIsUncut(c.toJson(lic));
  }

  lemma AsciiDataIsUncut(b: seq<Byte>)
    requires Ascii(b) && |b| > 0 && b[|b| - 1] == 125
    ensures Uncut(Reverse(Encode(b)))
  {
    var n := Reverse(Encode(b));
    DataIsSpaced(b);
    forall i ensures !At(n, i, "--") {
      DashPair(n, i);
      if 0 <= i && i + 1 < |n| && n[i + 1] == '-' { DashDistance(n, i + 1); }
    }
    forall i ensures !At("-" + n, i, P1) { SpacedIsUnmarked(n, i); }
  }

  lemma SpacedIsUnmarked(n: string, i: int)
    requires Spaced(n)
    ensures !At("-" + n, i, P1)
  {
    var y := "-" + n;
    PatternChars(y, i, P1);
    if 0 <= i && i + 8 < |n| {
      assert y[i + 9] == n[i + 8] && y[i + 1] == n[i];
      if n[i + 8] == '-' {
        DashDistance(n, i + 8);
        if i > 0 { assert y[i] == n[i - 1]; }
      }
    }
  }

  lemma DashPair(s: string, i: int)
    ensures At(s, i, "--") <==> 0 <= i && i + 1 < |s| && s[i] == '-' && s[i + 1] == '-'
  {
    if 0 <= i && i + 1 < |s| { assert s[i..i + 2] == [s[i], s[i + 1]]; }
  }

  // ---------------------------------------------------------------- suffixes

  ghost predicate SuffixChar(ch: char) { ch == ' ' || ch == '(' || ch == ')' || '0' <= ch <= '9' }

  lemma {:induction false} CopiesText(ks: seq<Copy>)
    requires forall k :: k in ks ==> PlainCopy(k)
    ensures var s := Copies(ks);
            && (forall i :: 0 <= i < |s| ==> SuffixChar(s[i]))
            && (ks != [] ==> |s| >= 2 && s[|s| - 1] == ')' && (s[0] == '(' || (s[0] == ' ' && s[1] == '(')))
  {
    if ks != [] {
      CopiesText(ks[1..]);
      assert ks[0] in ks;
      CopyChars(ks[0]);
      var t, rest := CopyText(ks[0]), Copies(ks[1..]);
      forall i | 0 <= i < |t + rest| ensures SuffixChar((t + rest)[i]) {
        assert (t + rest)[i] == if i < |t| then t[i] else rest[i - |t|];
      }
    }
  }

  lemma CopyChars(k: Copy)
    requires PlainCopy(k)
    ensures var t := CopyText(k);
            && (forall i :: 0 <= i < |t| ==> SuffixChar(t[i]))
            && |t| >= 2 && t[|t| - 1] == ')' && (t[0] == '(' || (t[0] == ' ' && t[1] == '('))
  {
    var open := (if k.spaced then " " else "") + "(";
    var t := CopyText(k);
    assert t == open + k.digits + ")";
    forall i | 0 <= i < |t| ensures SuffixChar(t[i]) {
      if |open| <= i < |t| - 1 {
        assert t[i] == k.digits[i - |open|];
        assert k.digits[i - |open|] in k.digits;
      }
    }
  }

  /** A comment must not follow a dash, nor what could be the end of "-licensed". */
  ghost predicate TailFits(n: string, x: string, t: string) {
    t == "" || x != "" || (n != "" && n[|n| - 1] != '-' && n[|n| - 1] != 'd')
  }

  /** The part of the file name between separator and extension. */
  ghost predicate IsBody(n: string, x: string, t: string, b: string) {
    && Digits(n) && Uncut(n) && PlainTail(t) && TailFits(n, x, t) && b == n + x + t
    && (forall i :: 0 <= i < |x| ==> SuffixChar(x[i]))
    && (x == "" || x[|x| - 1] == ')')
  }

  lemma BodyChar(n: string, x: string, t: string, b: string, i: int)
    requires IsBody(n, x, t, b) && 0 <= i < |b|
    ensures i < |n| ==> b[i] == n[i]
    ensures |n| <= i < |n| + |x| ==> b[i] != '-'
    ensures i == |n| + |x| ==> b[i] == '-'
    ensures i > |n| + |x| + 1 ==> b[i] != '-'
  {
    if |n| <= i < |n| + |x| {
      assert b[i] == x[i - |n|];
    } else if i >= |n| + |x| {
      var k := i - |n| - |x|;
      assert b[i] == t[k];
      if k >= 2 { assert t[k] == t[2..][k - 2] && t[2..][k - 2] in t[2..]; }
    }
  }

  lemma BodyBeforeTail(n: string, x: string, t: string, b: string)
    requires IsBody(n, x, t, b)
    ensures t != "" ==> b[|n| + |x| - 1] != '-' && b[|n| + |x| - 1] != 'd'
  {
  }

  /** What an occurrence of one of the three patterns puts in the text. */
  lemma PatternChars(s: string, i: int, p: string)
    requires p == P1 || p == P2 || p == P3
    ensures At(s, i, p) ==>
              && s[i] == '-' && s[i + 1] == 'l' && s[i + 8] == 'd'
              && forall j :: i + 9 <= j < i + |p| ==> s[j] == '-'
    ensures At(s, i, p) ==> At(s, i, P1)
  {
    if At(s, i, p) {
      var w := s[i..i + |p|];
      assert w[0] == '-' && w[1] == 'l' && w[8] == 'd';
      forall j | i + 9 <= j < i + |p| ensures s[j] == '-' { assert s[j] == w[j - i]; }
      assert p[..10] == P1;
      assert s[i..i + 10] == w[..10];
    }
  }

  /** A name that is not cut brings no "-licensed-" into the body either, not even when a
      dash of the separator is counted with it. */
  lemma NoLicensedInBody(n: string, x: string, t: string, b: string, i: int)
    requires IsBody(n, x, t, b)
    ensures !At("-" + b, i, P1)
  {
    var y := "-" + b;
    PatternChars(y, i, P1);
    if 0 <= i && i + 8 < |n| {
      assert b[..|n|] == n;
      assert y[i..i + 10] == ("-" + n)[i..i + 10];
      assert !At("-" + n, i, P1);
    } else if 0 <= i && i + 8 < |b| {
      assert y[i + 9] == b[i + 8] && y[i + 8] == b[i + 7];
      BodyChar(n, x, t, b, i + 8);
      BodyChar(n, x, t, b, i + 7);
      BodyBeforeTail(n, x, t, b);
    }
  }

  // ---------------------------------------------------------------- replaces

  ghost predicate BodyAfter(b: string) { b != "" && b[0] != '-' && Unmarked(b) }

  lemma ShiftAt(pre: string, s: string, i: int, p: string)
    requires |pre| <= i
    ensures At(pre + s, i, p) <==> At(s, i - |pre|, p)
  {
    if i + |p| <= |pre + s| { assert (pre + s)[i..i + |p|] == s[i - |pre|..i - |pre| + |p|]; }
  }

  /** An unmarked rest can only be marked in what stands before it. */
  lemma MarkBefore(pre: string, b: string, i: int, p: string)
    requires Unmarked(b) && |pre| <= i && (p == P1 || p == P2 || p == P3)
    ensures !At(pre + ("-" + b), i, p)
  {
    ShiftAt(pre, "-" + b, i, p);
    PatternChars("-" + b, i - |pre|, p);
  }

  lemma PlainSeparatorHasNoMark(b: string, p: string)
    requires Unmarked(b) && (p == P1 || p == P2 || p == P3)
    ensures !Occurs("onedesk--" + b, p)
  {
    var s := "onedesk--" + b;
    forall i ensures !At(s, i, p) {
      PatternChars(s, i, p);
      if 0 <= i < 8 {
        assert s[i] == "onedesk--"[i] && s[i + 1] == "onedesk--"[i + 1];
      } else if i >= 8 {
        assert s == "onedesk-" + ("-" + b);
        MarkBefore("onedesk-", b, i, p);
      }
    }
  }

  lemma PlainSeparator(b: string)
    requires Unmarked(b)
    ensures Normalise("onedesk--" + b) == "onedesk--" + b
  {
    PlainSeparatorHasNoMark(b, P1);
    PlainSeparatorHasNoMark(b, P2);
    PlainSeparatorHasNoMark(b, P3);
  }

  function Marked(k: nat): (s: string)
    requires 1 <= k <= 3
    ensures |s| == 16 + k && s[..16] == "onedesk-licensed" && forall i :: 16 <= i < 16 + k ==> s[i] == '-'
  {
    "onedesk-licensed" + ["-", "--", "---"][k - 1]
  }

  /** After k dashes and another character only the patterns of at most k dashes are
      found, and only behind the program name. */
  lemma MarkPositions(b: string, k: nat, i: int, p: string)
    requires BodyAfter(b) && 1 <= k <= 3 && (p == P1 || p == P2 || p == P3)
    ensures At(Marked(k) + b, i, p) ==> i == 7 && |p| - 9 <= k
  {
    var s := Marked(k) + b;
    PatternChars(s, i, p);
    if 0 <= i < 16 {
      assert s[i] == Marked(k)[..16][i];
      assert i == 7 ==> s[16 + k] == b[0];
    } else if 16 <= i < 15 + k {
      assert s[i + 1] == '-';
    } else if i >= 15 + k {
      var cut := Marked(k)[..15 + k];
      assert s == cut + ("-" + b);
      MarkBefore(cut, b, i, p);
    }
  }

  lemma ReplaceSkips(b: string, k: nat, p: string)
    requires BodyAfter(b) && 1 <= k <= 3 && (p == P1 || p == P2 || p == P3) && |p| - 9 > k
    ensures Replace(Marked(k) + b, p, "--") == Marked(k) + b
  {
    forall i ensures !At(Marked(k) + b, i, p) { MarkPositions(b, k, i, p); }
  }

  lemma NoMarkInBody(b: string, p: string)
    requires Unmarked(b) && (p == P1 || p == P2 || p == P3)
    ensures Replace(b, p, "--") == b
  {
    forall i ensures !At(b, i, p) {
      PatternChars(b, i, p);
      if i >= 0 { ShiftAt("-", b, i + 1, P1); }
    }
  }

  lemma ReplaceHits(b: string, k: nat, p: string)
    requires BodyAfter(b) && 1 <= k <= 3 && (p == P1 || p == P2 || p == P3) && |p| - 9 == k
    ensures Replace(Marked(k) + b, p, "--") == "onedesk--" + b
  {
    OwnMark(k, b, p);
    NoMarkInBody(b, p);
  }

  lemma OwnMark(k: nat, n: string, p: string)
    requires 1 <= k <= 3 && (p == P1 || p == P2 || p == P3) && |p| - 9 == k
    ensures At(Marked(k) + n, 7, p)
    ensures Replace(Marked(k) + n, p, "--") == "onedesk--" + Replace(n, p, "--")
  {
    var s := Marked(k) + n;
    MarkedSplit(k, p);
    assert s[7..7 + |p|] == p && s[7 + |p|..] == n && s[..7] == "onedesk";
    forall j | 0 <= j < 7 ensures !At(s, j, p) {
      PatternChars(s, j, p);
      assert s[j] == Marked(k)[..16][j];
    }
    FirstAt(s, p, 7);
    assert "onedesk" + "--" == "onedesk--";
    Associative("onedesk", "--", Replace(n, p, "--"));
  }

  lemma MarkedSplit(k: nat, p: string)
    requires 1 <= k <= 3 && (p == P1 || p == P2 || p == P3) && |p| - 9 == k
    ensures Marked(k) == "onedesk" + p
  {
  }

  /** All recognised separators end up as "--". */
  lemma Normalised(sep: string, b: string)
    requires IsSeparator(sep) && BodyAfter(b)
    ensures Normalise("onedesk" + sep + b) == "onedesk--" + b
  {
    if sep == "--" {
      PlainSeparator(b);
      assert "onedesk" + "--" == "onedesk--";
    } else {
      PlainSeparatorHasNoMark(b, P1);
      PlainSeparatorHasNoMark(b, P2);
      var k := |sep| - 9;
      MarkedSplit(k, sep);
      if k < 3 { ReplaceSkips(b, k, P3); }
      if k < 2 { ReplaceSkips(b, k, P2); }
      ReplaceHits(b, k, sep);
    }
  }

  // ---------------------------------------------------------------- pieces

  lemma BodyIsAfter(n: string, x: string, t: string, b: string)
    requires IsBody(n, x, t, b)
    ensures BodyAfter(b)
  {
    forall i ensures !At("-" + b, i, P1) { NoLicensedInBody(n, x, t, b, i); }
  }

  lemma SplitProgramName(b: string)
    ensures Split("onedesk--" + b, "--") == ["onedesk"] + Split(b, "--")
  {
    var s := "onedesk--" + b;
    forall j | 0 <= j <= 7 ensures At(s, j, "--") <==> j == 7 {
      DashPair(s, j);
      assert s[j] == "onedesk--"[j];
    }
    FirstAt(s, "--", 7);
    assert s[..7] == "onedesk" && s[9..] == b;
  }

  lemma SplitBody(n: string, x: string, t: string, b: string)
    requires IsBody(n, x, t, b)
    ensures Split(b, "--")[0] == n + x
  {
    var m := |n| + |x|;
    forall j | 0 <= j < m ensures !At(b, j, "--") {
      DashPair(b, j);
      BodyChar(n, x, t, b, j);
      if j + 1 < |b| { BodyChar(n, x, t, b, j + 1); }
      if j + 1 < |n| {
        DashPair(n, j);
        assert !At(n, j, "--");
      }
      if j + 1 == m { BodyBeforeTail(n, x, t, b); }
    }
    assert b[..m] == n + x;
    if t == "" {
      forall j ensures !At(b, j, "--") { DashPair(b, j); }
    } else {
      assert b[m] == t[0] && b[m + 1] == t[1];
      DashPair(b, m);
      FirstAt(b, "--", m);
    }
  }

  lemma TrimClean(s: string)
    requires s != "" && !IsSpace(s[0]) && !IsSpace(s[|s| - 1])
    ensures Trim(s) == s && Trim(s + " ") == s
  {
    assert (s + " ")[..|s|] == s;
    assert (s + " ")[0] == s[0];
  }

  lemma DigitsAreClean(n: string)
    requires Digits(n)
    ensures !IsSpace(n[0]) && !IsSpace(n[|n| - 1]) && '(' !in n
  {
    assert Value(n[0]) >= 0 && Value(n[|n| - 1]) >= 0;
  }

  lemma NameDecodes(c: Codec, lic: CustomServer)
    requires Lawful(c)
    ensures FromConfigString(c, GenName(c, lic)) == Some(lic)
  {
    ReverseTwice(Encode(c.toJson(lic)));
    DecodeEncode(c.toJson(lic));
  }

  /** A base64 text that ends in "deno" either does not decode or decodes to bytes that end
      in E8 or 7A. */
  lemma {:induction false} DecodeTail(s: string)
    requires |s| >= 4 && s[|s| - 4..] == "deno"
    ensures Decode(s).Some? ==> |Decode(s).value| > 0 && Decode(s).value[|Decode(s).value| - 1] in {0xE8, 0x7A}
  {
    if |s| >= 8 {
      assert s[4..][|s| - 8..] == s[|s| - 4..];
      DecodeTail(s[4..]);
    } else {
      var tail := s[|s| - 4..];
      assert tail[0] == 'd' && tail[1] == 'e' && tail[2] == 'n' && tail[3] == 'o';
      ShortTail(s);
    }
  }

  lemma ShortTail(s: string)
    requires 4 <= |s| < 8 && s[|s| - 3] == 'e' && s[|s| - 2] == 'n' && s[|s| - 1] == 'o'
    requires |s| == 4 ==> s[0] == 'd'
    ensures Decode(s).Some? ==> |Decode(s).value| > 0 && Decode(s).value[|Decode(s).value| - 1] in {0xE8, 0x7A}
  {
    assert Value('d') == 29 && Value('e') == 30 && Value('n') == 39 && Value('o') == 40;
    var rest := s[4..];
    if |s| == 4 {
      assert Decode(rest) == Some([]);
      assert 39 % 4 * 64 + 40 == 0xE8;
    } else if |s| == 5 {
      assert Decode(rest) == None;
    } else if |s| == 6 {
      assert rest[1] == 'o' && Decode(rest) == None;
    } else {
      DecodeThree(rest, 30, 39, 40);
      assert Decode(rest) == Some([0x7A, 0x7A]);
    }
  }

  /** Whatever begins with the program's name is no configuration: reversed, it ends in
      "deno", and no JSON text ends in such a byte, signed or not. */
  lemma ProgramPieceIsNoConfig(c: Codec, p: string)
    requires Lawful(c) && |p| >= 4 && p[..4] == "oned"
    ensures FromConfigString(c, p) == None
  {
    var s := Reverse(p);
    assert p[0] == p[..4][0] && p[1] == p[..4][1] && p[2] == p[..4][2] && p[3] == p[..4][3];
    assert s[|s| - 4..] == "deno";
    DecodeTail(s);
    if Decode(s).Some? { NoConfigBytes(c, Decode(s).value); }
  }

  lemma NoConfigBytes(c: Codec, data: seq<Byte>)
    requires Lawful(c) && |data| > 0 && data[|data| - 1] in {0xE8, 0x7A}
    ensures c.fromJson(data) == None
    ensures c.verify(data).Some? ==> c.fromJson(c.verify(data).value) == None
  {
    if c.verify(data).Some? && |data| > 64 { assert data[64..][|data| - 65] == data[|data| - 1]; }
  }

  lemma ProgramNameIsNoConfig(c: Codec)
    requires Lawful(c)
    ensures FromPiece(c, "onedesk") == None
  {
    TrimClean("onedesk");
    ProgramPieceIsNoConfig(c, "onedesk");
    assert '(' !in "onedesk";
  }

  /** Within a piece the whole text comes first, and its parts before a parenthesis only
      count when it does not decode. */
  lemma PartsAreNext(c: Codec, a: string, rest: string, lic: CustomServer)
    requires '(' !in a && FromConfigString(c, Trim(a + "(" + rest)) == None
    ensures FromConfigString(c, Trim(a)) == Some(lic) ==> FromPiece(c, a + "(" + rest) == Some(lic)
    ensures FromConfigString(c, Trim(a)) == None ==> FromPiece(c, a + "(" + rest) == FirstOf(c, Split(rest, "("))
  {
    var s := a + "(" + rest;
    assert s[|a|] == '(';
    SplitAtChar(a, '(', rest);
    assert ([a] + Split(rest, "("))[1..] == Split(rest, "(");
  }

  lemma MarksDoNotDecode(c: Codec, s: string)
    requires s != "" && !IsSpace(s[0]) && s[|s| - 1] == ')'
    ensures FromConfigString(c, Trim(s)) == None
  {
    TrimClean(s);
    assert Reverse(s)[0] == ')';
    OnlyDigitsDecode(Reverse(s), 0);
  }

  /** The piece with the copy marks does not decode as it stands, but its part before
      the first parenthesis does. */
  lemma PieceDecodes(c: Codec, n: string, lic: CustomServer, ks: seq<Copy>)
    requires Lawful(c) && Digits(n) && FromConfigString(c, n) == Some(lic) && forall k :: k in ks ==> PlainCopy(k)
    ensures FromPiece(c, n + Copies(ks)) == Some(lic)
  {
    DigitsAreClean(n);
    TrimClean(n);
    if ks == [] {
      assert n + Copies(ks) == n;
    } else {
      CopiesText(ks);
      MarkedPieceDecodes(c, n, lic, Copies(ks));
    }
  }

  lemma MarkedPieceDecodes(c: Codec, n: string, lic: CustomServer, x: string)
    requires n != "" && !IsSpace(n[0]) && '(' !in n && Trim(n) == n && Trim(n + " ") == n && FromConfigString(c, n) == Some(lic)
    requires |x| >= 2 && x[|x| - 1] == ')' && (x[0] == '(' || (x[0] == ' ' && x[1] == '('))
    ensures FromPiece(c, n + x) == Some(lic)
  {
    MarksEnd(n, x);
    MarksDoNotDecode(c, n + x);
    if x[0] == '(' {
      BareMark(n, x);
      PartIsTaken(c, n + x, n, x[1..], lic);
    } else {
      SpacedMark(n, x);
      PartIsTaken(c, n + x, n + " ", x[2..], lic);
    }
  }

  lemma PartIsTaken(c: Codec, s: string, a: string, rest: string, lic: CustomServer)
    requires s == a + "(" + rest && '(' !in a
    requires FromConfigString(c, Trim(s)) == None && FromConfigString(c, Trim(a)) == Some(lic)
    ensures FromPiece(c, s) == Some(lic)
  {
    PartsAreNext(c, a, rest, lic);
  }

  lemma MarksEnd(n: string, x: string)
    requires n != "" && x != "" && x[|x| - 1] == ')'
    ensures (n + x)[|n + x| - 1] == ')' && (n + x)[0] == n[0]
  {
  }

  lemma BareMark(n: string, x: string)
    requires x != "" && x[0] == '('
    ensures n + x == n + "(" + x[1..]
  {
  }

  lemma SpacedMark(n: string, x: string)
    requires |x| >= 2 && x[0] == ' ' && x[1] == '('
    ensures n + x == n + " " + "(" + x[2..]
  {
  }

  lemma StemOf(stem: string, ext: string)
    requires IsExtension(ext) && forall i :: 0 <= i < |stem| ==> stem[i] != '.'
    ensures Stem(stem + ext) == stem
  {
    var s, l := stem + ext, Lower(stem + ext);
    assert forall i :: 0 <= i < |s| ==> s[i] == if i < |stem| then stem[i] else ext[i - |stem|];
    assert forall i :: 0 <= i < |ext| ==> l[|stem| + i] == Lower(ext)[i];
    assert forall i :: 0 <= i < |stem| ==> l[i] != '.';
    assert s[..|stem|] == stem;
    DotBefore(l, |stem|, ".exe");
    DotBefore(l, |stem|, ".exe.exe");
    assert l[|stem|..] == Lower(ext);
  }

  /** A suffix that starts with a dot starts after the last place without dots. */
  lemma DotBefore(l: string, k: nat, p: string)
    requires k <= |l| && (forall i :: 0 <= i < k ==> l[i] != '.') && (p == ".exe" || p == ".exe.exe")
    ensures EndsWith(l, p) ==> |l| - k >= |p|
  {
    if EndsWith(l, p) { assert l[|l| - |p|] == l[|l| - |p|..][0] == '.'; }
  }

  lemma NoHostTag(s: string)
    requires forall i :: 0 <= i < |s| ==> s[i] != '='
    ensures Find(Lower(s), "host=") == |s|
  {
    var l := Lower(s);
    forall i ensures !At(l, i, "host=") {
      if 0 <= i && i + 5 <= |l| { assert l[i..i + 5][4] == l[i + 4] != '='; }
    }
  }

  lemma StemChars(sep: string, n: string, x: string, t: string, b: string, i: int)
    requires IsSeparator(sep) && IsBody(n, x, t, b) && 0 <= i < |"onedesk" + sep + b|
    ensures var s := "onedesk" + sep + b; s[i] != '.' && s[i] != '='
  {
    var pre := "onedesk" + sep;
    if i < |pre| {
      assert (pre + b)[i] == pre[i];
      if i >= 7 { assert pre[i] == sep[i - 7]; }
    } else {
      var k := i - |pre|;
      assert (pre + b)[i] == b[k];
      if k < |n| {
        assert b[k] == n[k];
      } else if k < |n| + |x| {
        assert b[k] == x[k - |n|];
      } else {
        var m := k - |n| - |x|;
        assert b[k] == t[m];
        if m >= 2 { assert t[m] == t[2..][m - 2] && t[2..][m - 2] in t[2..]; }
      }
    }
  }

  /** Reading a name: whatever decodes to a configuration is read from a file name, behind
      any of the four separators, with any number of copy marks, with or without a comment,
      and with the extension written once, twice or not at all, in any letter case, as long
      as the separators do not cut it. */
  lemma NameIsRead(c: Codec, n: string, lic: CustomServer, sep: string, ks: seq<Copy>, tail: string, ext: string)
    requires Lawful(c) && Digits(n) && Uncut(n) && FromConfigString(c, n) == Some(lic)
    requires IsSeparator(sep) && PlainTail(tail) && IsExtension(ext) && TailFits(n, Copies(ks), tail)
    requires forall k :: k in ks ==> PlainCopy(k)
    ensures Parsed(c, "onedesk" + sep + (n + Copies(ks) + tail) + ext) == Some(lic)
  {
    var x := Copies(ks);
    var b := n + x + tail;
    var stem := "onedesk" + sep + b;
    CopiesText(ks);
    assert IsBody(n, x, tail, b);
    forall i | 0 <= i < |stem| ensures stem[i] != '.' && stem[i] != '=' { StemChars(sep, n, x, tail, b, i); }
    StemOf(stem, ext);
    NoHostTag(stem);
    BodyIsAfter(n, x, tail, b);
    Normalised(sep, b);
    SplitProgramName(b);
    SplitBody(n, x, tail, b);
    FirstPieces(c, Split(b, "--"), lic, n, ks);
  }

  /** The round trip: so every configuration is read back from its printed name, when the
      separators do not cut it. */
  lemma UncutNameRoundTrip(c: Codec, lic: CustomServer, sep: string, ks: seq<Copy>, tail: string, ext: string)
    requires Lawful(c) && Uncut(GenName(c, lic))
    requires IsSeparator(sep) && PlainTail(tail) && IsExtension(ext)
    requires forall k :: k in ks ==> PlainCopy(k)
    ensures Parsed(c, "onedesk" + sep + (GenName(c, lic) + Copies(ks) + tail) + ext) == Some(lic)
  {
    PrintedNameDigits(c, lic);
    NameDecodes(c, lic);
    NameIsRead(c, GenName(c, lic), lic, sep, ks, tail, ext);
  }

  /** So every configuration with an ASCII encoding is read back. */
  lemma FileNameRoundTrip(c: Codec, lic: CustomServer, sep: string, ks: seq<Copy>, tail: string, ext: string)
    requires Lawful(c) && Ascii(c.toJson(lic))
    requires IsSeparator(sep) && PlainTail(tail) && IsExtension(ext)
    requires forall k :: k in ks ==> PlainCopy(k)
    ensures Parsed(c, "onedesk" + sep + (GenName(c, lic) + Copies(ks) + tail) + ext) == Some(lic)
  {
    AsciiNameIsUncut(c, lic);
    UncutNameRoundTrip(c, lic, sep, ks, tail, ext);
  }

  lemma FirstPieces(c: Codec, rest: seq<string>, lic: CustomServer, n: string, ks: seq<Copy>)
    requires Lawful(c) && Digits(n) && FromConfigString(c, n) == Some(lic) && forall k :: k in ks ==> PlainCopy(k)
    requires |rest| > 0 && rest[0] == n + Copies(ks)
    ensures FromPieces(c, ["onedesk"] + rest) == Some(lic)
  {
    ProgramNameIsNoConfig(c);
    PieceDecodes(c, n, lic, ks);
    assert (["onedesk"] + rest)[1..] == rest;
  }
}
