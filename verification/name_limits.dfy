/** Which printed names the parser does not read back. */
module NameLimits {
  import opened Wrappers
  import opened Strings
  import opened UrlBase64
  import opened CustomServerName
  import opened NameRoundTrip

  // ---------------------------------------------------------------- names that are cut

  /** Exactly when the parser leaves a printed name in one piece behind "--". */
  lemma OnePieceIff(n: string)
    ensures Split(Normalise("onedesk--" + n), "--") == ["onedesk", n]
            <==> Uncut(n)
  {
    if Unmarked(n) {
      PlainSeparator(n);
      SplitProgramName(n);
      OneUncutPiece(n);
    } else {
      MarkedShrinks(n);
      SplitLength(Normalise("onedesk--" + n));
      TwoPieces("onedesk", n);
    }
  }

  lemma OneUncutPiece(n: string)
    ensures ["onedesk"] + Split(n, "--") == ["onedesk", n] <==> !Occurs(n, "--")
  {
    var ps := Split(n, "--");
    if Occurs(n, "--") {
      assert (["onedesk"] + ps)[1] == ps[0] && |ps[0]| < |n|;
    } else {
      assert ps == [n];
    }
  }

  lemma TwoPieces(p: string, q: string)
    ensures Length([p, q]) == |p| + |q|
  {
    assert [q][1..] == [] && Length([q]) == |q|;
    assert [p, q][1..] == [q];
  }

  function Length(ps: seq<string>): (n: nat) { if ps == [] then 0 else |ps[0]| + Length(ps[1..]) }

  lemma {:induction false} SplitLength(s: string)
    ensures Length(Split(s, "--")) + 2 * (|Split(s, "--")| - 1) == |s|
  {
    var i := Find(s, "--");
    if i == |s| {
      assert Length([]) == 0 && [s][1..] == [];
    } else {
      var rest := Split(s[i + 2..], "--");
      SplitLength(s[i + 2..]);
      assert ([s[..i]] + rest)[1..] == rest;
    }
  }

  lemma MarkedShrinks(n: string)
    requires !Unmarked(n)
    ensures |Normalise("onedesk--" + n)| <= |n| + 1
  {
    var s := "onedesk--" + n;
    var i :| At("-" + n, i, P1);
    assert s == "onedesk-" + ("-" + n);
    ShiftAt("onedesk-", "-" + n, i + 8, P1);
    assert Occurs(s, P1);
    var s3 := Replace(s, P3, "--");
    var s2 := Replace(s3, P2, "--");
    ReplaceShrinks(s, P3, "--");
    ReplaceShrinks(s3, P2, "--");
    ReplaceShrinks(s2, P1, "--");
  }

  // ---------------------------------------------------------------- what a strict decoder reads

  /** Only what the encoder writes for a configuration decodes to it. */
  ghost predicate Strict(c: Codec, lic: CustomServer) {
    forall b :: c.fromJson(b) == Some(lic) ==> b == c.toJson(lic)
  }

  lemma {:induction false} EncodingGrows(a: seq<Byte>, b: seq<Byte>)
    requires |a| >= |b|
    ensures |Encode(a)| >= |Encode(b)|
  {
    if |b| >= 3 {
      EncodingGrows(a[3..], b[3..]);
    }
  }

  /** Then no other text decodes to it, signed or not, unless it is longer than the name. */
  lemma OtherTextIsOther(c: Codec, lic: CustomServer, p: string)
    requires Lawful(c) && Strict(c, lic) && p != GenName(c, lic) && |p| <= |GenName(c, lic)|
    ensures FromConfigString(c, p) != Some(lic)
  {
    var s, b := Reverse(p), c.toJson(lic);
    if Decode(s).Some? {
      var data := Decode(s).value;
      EncodeDecode(s);
      assert data != b by {
        ReverseTwice(p);
        assert Reverse(Encode(b)) == GenName(c, lic);
      }
      if |data| >= |b| + 3 { LongerEncoding(data, b); }
    }
  }

  lemma LongerEncoding(a: seq<Byte>, b: seq<Byte>)
    requires |a| >= |b| + 3
    ensures |Encode(a)| > |Encode(b)|
  {
    var g := LongEncoding(a);
    EncodingGrows(a[3..], b);
  }

  // ---------------------------------------------------------------- pieces

  ghost predicate DigitText(s: string) { forall i :: 0 <= i < |s| ==> Value(s[i]) >= 0 }

  lemma {:induction false} ReplaceDigits(s: string, p: string)
    requires p != [] && DigitText(s)
    ensures DigitText(Replace(s, p, "--"))
  {
    var i := Find(s, p);
    if i < |s| {
      ReplaceDigits(s[i + |p|..], p);
      DigitsTogether(s[..i] + "--", Replace(s[i + |p|..], p, "--"));
    }
  }

  lemma DigitsTogether(a: string, b: string)
    requires DigitText(a) && DigitText(b)
    ensures DigitText(a + b)
  {
    forall i | 0 <= i < |a + b| ensures Value((a + b)[i]) >= 0 {
      assert (a + b)[i] == if i < |a| then a[i] else b[i - |a|];
    }
  }

  lemma {:induction false} PieceOfDigits(s: string, k: nat)
    requires DigitText(s) && k < |Split(s, "--")|
    ensures DigitText(Split(s, "--")[k])
  {
    var i := Find(s, "--");
    if i < |s| {
      DigitsApart(s, i);
      if k > 0 { PieceOfDigits(s[i + 2..], k - 1); }
    }
  }

  lemma DigitsApart(s: string, i: nat)
    requires DigitText(s) && i + 2 <= |s|
    ensures DigitText(s[..i]) && DigitText(s[i + 2..])
  {
    var t := s[i + 2..];
    forall j | 0 <= j < |t| ensures Value(t[j]) >= 0 { assert t[j] == s[i + 2 + j]; }
  }

  lemma {:induction false} PieceHasNoPair(s: string, k: nat)
    requires k < |Split(s, "--")|
    ensures !Occurs(Split(s, "--")[k], "--")
  {
    var i := Find(s, "--");
    if i == |s| {
      assert Split(s, "--") == [s];
    } else if k == 0 {
      FirstHasNoPair(s, i);
    } else {
      PieceHasNoPair(s[i + 2..], k - 1);
    }
  }

  lemma FirstHasNoPair(s: string, i: nat)
    requires i <= |s| && forall j :: j < i ==> !At(s, j, "--")
    ensures !Occurs(s[..i], "--")
  {
    forall j ensures !At(s[..i], j, "--") {
      DashPair(s[..i], j);
      DashPair(s, j);
      assert j < i ==> !At(s, j, "--");
    }
  }

  lemma DigitPiece(c: Codec, p: string)
    requires DigitText(p)
    ensures FromPiece(c, p) == FromConfigString(c, p)
  {
    if p != "" {
      assert Value(p[0]) >= 0 && Value(p[|p| - 1]) >= 0;
      TrimClean(p);
    }
    assert '(' !in p;
  }

  /** A beginning of the file name that no replace and no split can touch. */
  ghost predicate Solid(q: string) {
    forall i :: 0 <= i < |q| && q[i] == '-' ==> i + 1 < |q| && q[i + 1] != '-' && q[i + 1] != 'l'
  }

  lemma SolidStart(t: string, q: string, p: string, i: int)
    requires Solid(q) && StartsWith(t, q) && (p == P1 || p == P2 || p == P3 || p == "--")
    ensures At(t, i, p) ==> i >= |q|
  {
    PatternChars(t, i, if p == "--" then P1 else p);
    DashPair(t, i);
    if 0 <= i < |q| {
      assert t[i] == t[..|q|][i];
      assert i + 1 < |q| ==> t[i + 1] == t[..|q|][i + 1];
    }
  }

  lemma ReplaceKeepsStart(t: string, q: string, p: string)
    requires Solid(q) && StartsWith(t, q) && (p == P1 || p == P2 || p == P3)
    ensures StartsWith(Replace(t, p, "--"), q)
  {
    var i := Find(t, p);
    if i < |t| {
      SolidStart(t, q, p, i);
      var r := t[..i] + "--" + Replace(t[i + |p|..], p, "--");
      assert r[..|q|] == t[..|q|];
    }
  }

  lemma NormalisedText(s: string, q: string)
    requires Solid(q) && StartsWith(s, q) && DigitText(s)
    ensures var t := Normalise(s); StartsWith(t, q) && DigitText(t) && |t| <= |s|
  {
    var s3 := Replace(s, P3, "--");
    var s2 := Replace(s3, P2, "--");
    ReplaceKeepsStart(s, q, P3);
    ReplaceKeepsStart(s3, q, P2);
    ReplaceKeepsStart(s2, q, P1);
    ReplaceDigits(s, P3);
    ReplaceDigits(s3, P2);
    ReplaceDigits(s2, P1);
    ReplaceShrinks(s, P3, "--");
    ReplaceShrinks(s3, P2, "--");
    ReplaceShrinks(s2, P1, "--");
  }

  lemma FirstPieceStarts(t: string, q: string)
    requires Solid(q) && StartsWith(t, q)
    ensures StartsWith(Split(t, "--")[0], q)
  {
    var i := Find(t, "--");
    if i < |t| {
      SolidStart(t, q, "--", i);
      assert t[..i][..|q|] == t[..|q|];
    }
  }

  lemma LaterPieceLength(t: string, k: nat)
    requires 0 < k < |Split(t, "--")|
    ensures |Split(t, "--")[0]| + 2 + |Split(t, "--")[k]| <= |t|
  {
    var ps := Split(t, "--");
    SplitLength(t);
    PieceLength(ps[1..], k - 1);
    assert Length(ps) == |ps[0]| + Length(ps[1..]);
  }

  lemma {:induction false} PieceLength(ps: seq<string>, k: nat)
    requires k < |ps|
    ensures |ps[k]| <= Length(ps)
  {
    if k > 0 { PieceLength(ps[1..], k - 1); }
  }

  /** Behind a solid beginning of the program's name a strict decoder finds nothing when the
      text is too short for the name, or just long enough for a name that is cut at "--". */
  ghost predicate TooShort(t: string, q: string, n: string) {
    |t| < |q| + 2 + |n| || (|t| == |q| + 2 + |n| && Occurs(n, "--"))
  }

  lemma OnePieceIsOther(c: Codec, lic: CustomServer, t: string, q: string, k: nat)
    requires Lawful(c) && Strict(c, lic) && Solid(q) && |q| >= 4 && q[..4] == "oned"
    requires StartsWith(t, q) && DigitText(t) && TooShort(t, q, GenName(c, lic)) && k < |Split(t, "--")|
    ensures FromPiece(c, Split(t, "--")[k]) != Some(lic)
  {
    var p := Split(t, "--")[k];
    PieceOfDigits(t, k);
    PieceHasNoPair(t, k);
    DigitPiece(c, p);
    FirstPieceStarts(t, q);
    if k == 0 {
      assert p[..4] == p[..|q|][..4];
      ProgramPieceIsNoConfig(c, p);
    } else {
      LaterPieceLength(t, k);
      OtherTextIsOther(c, lic, p);
    }
  }

  lemma {:induction false} NoneOfThePieces(c: Codec, lic: CustomServer, ps: seq<string>)
    requires forall k :: 0 <= k < |ps| ==> FromPiece(c, ps[k]) != Some(lic)
    ensures FromPieces(c, ps) != Some(lic)
  {
    if ps != [] { NoneOfThePieces(c, lic, ps[1..]); }
  }

  lemma NoPieceIsRead(c: Codec, lic: CustomServer, t: string, q: string)
    requires Lawful(c) && Strict(c, lic) && Solid(q) && |q| >= 4 && q[..4] == "oned"
    requires StartsWith(t, q) && DigitText(t) && TooShort(t, q, GenName(c, lic))
    ensures FromPieces(c, Split(t, "--")) != Some(lic)
  {
    var ps := Split(t, "--");
    forall k | 0 <= k < |ps| ensures FromPiece(c, ps[k]) != Some(lic) { OnePieceIsOther(c, lic, t, q, k); }
    NoneOfThePieces(c, lic, ps);
  }

  // ---------------------------------------------------------------- the separators

  ghost predicate Single(n: string) { n != "" && n[0] != '-' && !Occurs(n, "--") }

  lemma LongMark(s: string, i: int, p: string)
    requires p == P2 || p == P3
    ensures At(s, i, p) ==> At(s, i + 9, "--") && (p == P3 ==> At(s, i + 10, "--"))
  {
    PatternChars(s, i, p);
    DashPair(s, i + 9);
    DashPair(s, i + 10);
  }

  /** The only two dashes in a row are those of the separator. */
  lemma StemPairs(k: nat, n: string, i: int)
    requires Single(n) && 1 <= k <= 3
    ensures At(Marked(k) + n, i, "--") ==> 16 <= i < 15 + k
  {
    var s := Marked(k) + n;
    DashPair(s, i);
    if 0 <= i < 16 {
      assert s[i] == Marked(k)[..16][i];
      assert i < 15 ==> s[i + 1] == Marked(k)[..16][i + 1];
    } else if i == 15 + k {
      assert s[16 + k] == n[0];
    } else if 16 + k <= i && i + 1 < |s| {
      DashPair(n, i - 16 - k);
      assert !At(n, i - 16 - k, "--");
    }
  }

  lemma NoLongMark(n: string, p: string)
    requires !Occurs(n, "--") && (p == P2 || p == P3)
    ensures Replace(n, p, "--") == n
  {
    forall i ensures !At(n, i, p) { NoLongMarkAt(n, i, p); }
  }

  lemma NoLongMarkAt(n: string, i: int, p: string)
    requires !At(n, i + 9, "--") && (p == P2 || p == P3)
    ensures !At(n, i, p)
  {
    LongMark(n, i, p);
  }

  lemma LongerMark(k: nat, n: string, p: string)
    requires Single(n) && 1 <= k <= 3 && (p == P2 || p == P3) && |p| - 9 > k
    ensures Replace(Marked(k) + n, p, "--") == Marked(k) + n
  {
    forall i ensures !At(Marked(k) + n, i, p) { LongerMarkAt(k, n, i, p); }
  }

  lemma LongerMarkAt(k: nat, n: string, i: int, p: string)
    requires Single(n) && 1 <= k <= 3 && (p == P2 || p == P3) && |p| - 9 > k
    ensures !At(Marked(k) + n, i, p)
  {
    LongMark(Marked(k) + n, i, p);
    StemPairs(k, n, i + 9);
    StemPairs(k, n, i + 10);
  }

  lemma PlainPairs(n: string, p: string)
    requires Single(n) && (p == P2 || p == P3)
    ensures Replace("onedesk--" + n, p, "--") == "onedesk--" + n
  {
    forall i ensures !At("onedesk--" + n, i, p) { PlainPairsAt(n, i, p); }
  }

  lemma PlainPairsAt(n: string, i: int, p: string)
    requires Single(n) && (p == P2 || p == P3)
    ensures !At("onedesk--" + n, i, p)
  {
    var s := "onedesk--" + n;
    LongMark(s, i, p);
    DashPair(s, i + 9);
    if 0 <= i && i + 10 < |s| {
      assert s[i + 9] == n[i] && s[i + 10] == n[i + 1];
      DashPair(n, i);
      assert !At(n, i, "--");
    }
  }

  /** Behind "-licensed-" the separator's dash goes with it; behind the others two dashes
      are left, of which the second one can begin another "-licensed-". */
  lemma NormalisedName(k: nat, n: string)
    requires Single(n) && 1 <= k <= 3
    ensures Normalise("onedesk--" + n) == Replace("onedesk--" + n, P1, "--")
    ensures Normalise(Marked(k) + n) ==
            if k == 1 then "onedesk--" + Replace(n, P1, "--") else Normalise("onedesk--" + n)
  {
    PlainPairs(n, P3);
    PlainPairs(n, P2);
    NoLongMark(n, P3);
    NoLongMark(n, P2);
    if k == 1 {
      LongerMark(1, n, P3);
      LongerMark(1, n, P2);
      OwnMark(1, n, P1);
    } else if k == 2 {
      LongerMark(2, n, P3);
      OwnMark(2, n, P2);
    } else {
      OwnMark(3, n, P3);
    }
  }

  /** Whatever the name, the separator itself shrinks to two dashes at least. */
  lemma MarkedLength(k: nat, n: string)
    requires 1 <= k <= 3
    ensures |Normalise(Marked(k) + n)| <= |n| + 9
  {
    var s := Marked(k) + n;
    OwnMark(k, n, if k == 1 then P1 else if k == 2 then P2 else P3);
    var s3 := Replace(s, P3, "--");
    var s2 := Replace(s3, P2, "--");
    ReplaceShrinks(s, P3, "--");
    ReplaceShrinks(s3, P2, "--");
    ReplaceShrinks(s2, P1, "--");
  }

  // ---------------------------------------------------------------- reading back, exactly

  function FileName(sep: string, n: string, ext: string): (s: string) { "onedesk" + sep + n + ext }

  /** What can be seen from a printed name: the separators do not occur in it. Behind
      "-licensed-" the dash in front does not count. */
  ghost predicate Readable(sep: string, n: string) {
    !Occurs(n, "--") && if sep == P1 then !Occurs(n, P1) else Unmarked(n)
  }

  function Dashes(sep: string): (k: nat) { if sep == P1 then 1 else if sep == P2 then 2 else 3 }

  lemma SeparatorStem(sep: string, n: string)
    requires IsSeparator(sep)
    ensures "onedesk" + sep + n == if sep == "--" then "onedesk--" + n else Marked(Dashes(sep)) + n
  {
    if sep == "--" { assert "onedesk" + "--" == "onedesk--"; } else { MarkedSplit(Dashes(sep), sep); }
  }

  lemma NamePieces(c: Codec, sep: string, n: string, ext: string)
    requires Digits(n) && IsSeparator(sep) && IsExtension(ext)
    ensures DigitText("onedesk" + sep + n)
    ensures Parsed(c, FileName(sep, n, ext)) == FromPieces(c, Split(Normalise("onedesk" + sep + n), "--"))
  {
    var stem := "onedesk" + sep + n;
    DigitsTogether("onedesk", sep);
    DigitsTogether("onedesk" + sep, n);
    forall i | 0 <= i < |stem| ensures stem[i] != '.' && stem[i] != '=' { assert Value(stem[i]) >= 0; }
    StemOf(stem, ext);
    NoHostTag(stem);
  }

  lemma UncutNameIsRead(c: Codec, lic: CustomServer, sep: string, ext: string)
    requires Lawful(c) && IsSeparator(sep) && IsExtension(ext) && Uncut(GenName(c, lic))
    ensures Parsed(c, FileName(sep, GenName(c, lic), ext)) == Some(lic)
  {
    var n := GenName(c, lic);
    UncutNameRoundTrip(c, lic, sep, [], "", ext);
    assert n + Copies([]) + "" == n;
  }

  /** Behind "-licensed-" also when the name begins with "licensed-". */
  lemma LicensedNameIsRead(c: Codec, lic: CustomServer, ext: string)
    requires Lawful(c) && IsExtension(ext) && Readable(P1, GenName(c, lic))
    ensures Parsed(c, FileName(P1, GenName(c, lic), ext)) == Some(lic)
  {
    var n := GenName(c, lic);
    PrintedNameDigits(c, lic);
    NamePieces(c, P1, n, ext);
    LicensedPieces(n);
    assert n + Copies([]) == n;
    NameDecodes(c, lic);
    FirstPieces(c, [n], lic, n, []);
  }

  lemma LicensedPieces(n: string)
    requires Digits(n) && Readable(P1, n)
    ensures Split(Normalise("onedesk" + P1 + n), "--") == ["onedesk"] + [n]
  {
    SeparatorStem(P1, n);
    NormalisedName(1, n);
    ReplaceShrinks(n, P1, "--");
    SplitProgramName(n);
  }

  /** A cut name leaves too short a text. */
  lemma CutNameIsShort(sep: string, n: string)
    requires IsSeparator(sep) && Digits(n) && !Readable(sep, n)
    ensures TooShort(Normalise("onedesk" + sep + n), "onedesk", n)
  {
    SeparatorStem(sep, n);
    var s := "onedesk" + sep + n;
    if Occurs(n, "--") {
      if sep == "--" { NormaliseShrinks(s); } else { MarkedLength(Dashes(sep), n); }
    } else {
      NormalisedName(if sep == "--" then 2 else Dashes(sep), n);
      if sep == P1 { ReplaceShrinks(n, P1, "--"); } else { MarkedShrinks(n); }
    }
  }

  lemma NormaliseShrinks(s: string)
    ensures |Normalise(s)| <= |s|
  {
    var s3 := Replace(s, P3, "--");
    ReplaceShrinks(s, P3, "--");
    ReplaceShrinks(s3, P2, "--");
    ReplaceShrinks(Replace(s3, P2, "--"), P1, "--");
  }

  lemma ProgramIsSolid(sep: string, n: string)
    ensures Solid("onedesk") && "onedesk"[..4] == "oned" && StartsWith("onedesk" + sep + n, "onedesk")
  {
    assert ("onedesk" + sep + n)[..7] == "onedesk";
  }

  lemma CutNameIsNotRead(c: Codec, lic: CustomServer, sep: string, ext: string)
    requires Lawful(c) && Strict(c, lic) && IsSeparator(sep) && IsExtension(ext) && !Readable(sep, GenName(c, lic))
    ensures Parsed(c, FileName(sep, GenName(c, lic), ext)) != Some(lic)
  {
    var n := GenName(c, lic);
    var s := "onedesk" + sep + n;
    PrintedNameDigits(c, lic);
    NamePieces(c, sep, n, ext);
    ProgramIsSolid(sep, n);
    NormalisedText(s, "onedesk");
    CutNameIsShort(sep, n);
    NoPieceIsRead(c, lic, Normalise(s), "onedesk");
  }

  /** Reading back, exactly, with a strict decoder: behind each of the four separators the
      file name gives the configuration when and only when its printed name is not cut. */
  lemma ReadBackIff(c: Codec, lic: CustomServer, sep: string, ext: string)
    requires Lawful(c) && Strict(c, lic) && IsSeparator(sep) && IsExtension(ext)
    ensures Reads(c, lic, sep, ext) <==> Readable(sep, GenName(c, lic))
  {
    if !Readable(sep, GenName(c, lic)) {
      CutNameIsNotRead(c, lic, sep, ext);
    } else if sep == P1 {
      LicensedNameIsRead(c, lic, ext);
    } else {
      UncutNameIsRead(c, lic, sep, ext);
    }
  }

  /** The decoder that accepts only what the encoder writes. */
  function StrictOf(c: Codec): (k: Codec) {
    Codec(c.toJson,
          b => match c.fromJson(b) case None => None case Some(lic) => if c.toJson(lic) == b then Some(lic) else None,
          _ => None)
  }

  lemma StrictOfIsLawful(c: Codec, lic: CustomServer)
    requires Lawful(c)
    ensures Lawful(StrictOf(c)) && Strict(StrictOf(c), lic)
  {
    var k := StrictOf(c);
    forall b | k.fromJson(b).Some? ensures |b| > 0 && JsonEnd(b[|b| - 1]) { assert c.fromJson(b).Some?; }
  }

  ghost predicate Reads(k: Codec, lic: CustomServer, sep: string, ext: string) {
    Parsed(k, FileName(sep, GenName(k, lic), ext)) == Some(lic)
  }

  /** And without any condition on the decoder but its laws: every decoder for the same
      encoder reads the configuration back when and only when the name is not cut. */
  lemma EveryDecoderReadsBackIff(c: Codec, lic: CustomServer, sep: string, ext: string)
    requires Lawful(c) && IsSeparator(sep) && IsExtension(ext)
    ensures (forall k :: Lawful(k) && k.toJson == c.toJson ==> Reads(k, lic, sep, ext)) <==> Readable(sep, GenName(c, lic))
  {
    if Readable(sep, GenName(c, lic)) {
      forall k | Lawful(k) && k.toJson == c.toJson ensures Reads(k, lic, sep, ext) {
        if sep == P1 { LicensedNameIsRead(k, lic, ext); } else { UncutNameIsRead(k, lic, sep, ext); }
      }
    } else {
      var k := StrictOf(c);
      StrictOfIsLawful(c, lic);
      CutNameIsNotRead(k, lic, sep, ext);
      assert k.toJson == c.toJson && Lawful(k) && !Reads(k, lic, sep, ext);
    }
  }

  /** Outside ASCII: EF BE behind the first place of a group (as in U+FFBE) prints as two
      dashes, whatever the rest of the payload, and a strict decoder does not get the
      configuration back behind any separator. */
  lemma NonAsciiNameIsCut(c: Codec, lic: CustomServer, a: seq<Byte>, z: seq<Byte>, sep: string, ext: string)
    requires Lawful(c) && IsSeparator(sep) && IsExtension(ext)
    requires c.toJson(lic) == a + [0xEF, 0xBE] + z && |a| % 3 == 1
    ensures Occurs(GenName(c, lic), "--")
    ensures Strict(c, lic) ==> !Reads(c, lic, sep, ext)
  {
    var s, n := Encode(c.toJson(lic)), GenName(c, lic);
    var i := NonAsciiDashes(a, z);
    assert n[|s| - 2 - i] == s[i + 1] && n[|s| - 1 - i] == s[i];
    DashPair(n, |s| - 2 - i);
    if Strict(c, lic) { CutNameIsNotRead(c, lic, sep, ext); }
  }

  // ---------------------------------------------------------------- the printed prefix

  /** The prefix that the printer's own command line writes is not one the parser takes
      off. It decodes the whole name, prefix included, and never gets a configuration. */
  lemma PrintedPrefixIsNotRead(c: Codec, lic: CustomServer)
    requires Lawful(c) && Uncut(GenName(c, lic))
    ensures Parsed(c, "onedesk-custom_serverd-" + GenName(c, lic) + ".exe") == None
  {
    var n := GenName(c, lic);
    PrintedNameDigits(c, lic);
    PrintedPieces(c, n);
    PrefixHasNoMark(n);
    OnlyPiece(c, "onedesk-custom_serverd-" + n, n);
  }

  /** In particular not for any configuration with an ASCII encoding. */
  lemma PrintedAsciiNameIsNotRead(c: Codec, lic: CustomServer)
    requires Lawful(c) && Ascii(c.toJson(lic))
    ensures Parsed(c, "onedesk-custom_serverd-" + GenName(c, lic) + ".exe") == None
  {
    AsciiNameIsUncut(c, lic);
    PrintedPrefixIsNotRead(c, lic);
  }

  const PRINTED: string := "onedesk-custom_serverd"

  /** And a strict decoder gets no configuration back that was printed behind it, whether
      the name is cut or not: what begins with the program's name decodes to nothing, and
      the other pieces are shorter than the name. */
  lemma PrintedPrefixIsNeverRead(c: Codec, lic: CustomServer)
    requires Lawful(c) && Strict(c, lic)
    ensures Parsed(c, "onedesk-custom_serverd-" + GenName(c, lic) + ".exe") != Some(lic)
  {
    var n := GenName(c, lic);
    var s := "onedesk-custom_serverd-" + n;
    PrintedNameDigits(c, lic);
    PrintedPieces(c, n);
    PrintedIsSolid(n);
    NormalisedText(s, PRINTED);
    NoPieceIsRead(c, lic, Normalise(s), PRINTED);
  }

  lemma PrintedIsSolid(n: string)
    requires Digits(n)
    ensures Solid(PRINTED) && |PRINTED| == 22 && PRINTED[..4] == "oned"
    ensures var s := "onedesk-custom_serverd-" + n; StartsWith(s, PRINTED) && DigitText(s)
  {
    PrintedDashes();
    PrintedDigits();
    var pre := "onedesk-custom_serverd-";
    assert pre[..22] == PRINTED;
    assert (pre + n)[..22] == pre[..22];
    DigitsTogether(pre, n);
  }

  lemma PrintedDashes()
    ensures Solid(PRINTED) && |PRINTED| == 22
  {
  }

  lemma PrintedDigits()
    ensures DigitText("onedesk-custom_serverd-")
  {
  }

  lemma PrefixChars(n: string)
    requires Digits(n)
    ensures var s := "onedesk-custom_serverd-" + n; forall i :: 0 <= i < |s| ==> s[i] != '.' && s[i] != '='
  {
    var pre := "onedesk-custom_serverd-";
    var s := pre + n;
    forall i | 0 <= i < |s| ensures s[i] != '.' && s[i] != '=' {
      assert s[i] == if i < |pre| then pre[i] else n[i - |pre|];
    }
  }

  lemma PrintedPieces(c: Codec, n: string)
    requires Digits(n)
    ensures var s := "onedesk-custom_serverd-" + n;
            Parsed(c, s + ".exe") == FromPieces(c, Split(Normalise(s), "--"))
  {
    var s := "onedesk-custom_serverd-" + n;
    PrefixChars(n);
    assert Lower(".exe") == ".exe";
    StemOf(s, ".exe");
    NoHostTag(s);
  }

  lemma OnlyPiece(c: Codec, s: string, n: string)
    requires Lawful(c) && Digits(n) && s == "onedesk-custom_serverd-" + n
    ensures FromPieces(c, [s]) == None
  {
    PrintedIsSolid(n);
    DigitPiece(c, s);
    assert s[..4] == PRINTED[..4];
    ProgramPieceIsNoConfig(c, s);
    assert [s][1..] == [];
  }

  lemma PrefixHasNoMark(n: string)
    requires Digits(n) && Uncut(n)
    ensures var s := "onedesk-custom_serverd-" + n; Normalise(s) == s && Split(s, "--") == [s]
  {
    var pre := "onedesk-custom_serverd-";
    var s := pre + n;
    forall i, p | p == P1 || p == P2 || p == P3 ensures !At(s, i, p) {
      PatternChars(s, i, p);
      if 0 <= i < 22 {
        assert s[i] == pre[i] && s[i + 1] == pre[i + 1];
      } else if i >= 22 {
        assert s == pre[..22] + ("-" + n);
        MarkBefore(pre[..22], n, i, p);
      }
    }
    assert !Occurs(s, P1) && !Occurs(s, P2) && !Occurs(s, P3);
    forall j ensures !At(s, j, "--") {
      DashPair(s, j);
      if 0 <= j < 22 {
        assert s[j] == pre[j] && s[j + 1] == pre[j + 1];
      } else if j == 22 && |n| > 0 {
        assert s[23] == n[0];
      } else if 23 <= j && j + 1 < |s| {
        assert s[j] == n[j - 23] && s[j + 1] == n[j - 22];
        DashPair(n, j - 23);
        assert !At(n, j - 23, "--");
      }
    }
  }
}
