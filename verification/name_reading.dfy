/** More of what the parser reads: signed configurations, white space, and the order in
    which the pieces of a file name are tried. */
module NameReading {
  import opened Wrappers
  import opened Strings
  import opened UrlBase64
  import opened CustomServerName
  import opened NameRoundTrip

  // ---------------------------------------------------------------- names of any data

  function NameOf(data: seq<Byte>): (n: string) { Reverse(Encode(data)) }

  lemma {:induction false} LastDigitIsNoDash(b: seq<Byte>)
    requires |b| > 0 && JsonEnd(b[|b| - 1])
    ensures |Encode(b)| > 1 && Encode(b)[|Encode(b)| - 1] != '-'
  {
    if |b| > 3 {
      LastDigitIsNoDash(b[3..]);
      var g := LongEncoding(b);
    } else {
      ShortEnd(b);
    }
  }

  lemma ShortEnd(b: seq<Byte>)
    requires 0 < |b| <= 3 && JsonEnd(b[|b| - 1])
    ensures |Encode(b)| > 1 && Encode(b)[|Encode(b)| - 1] != '-'
  {
    var last := b[|b| - 1];
    if |b| == 1 {
      ValueOfDigit(last % 4 * 16);
    } else if |b| == 2 {
      ValueOfDigit(last % 16 * 4);
    } else {
      assert Encode(b[3..]) == [];
      ValueOfDigit(last % 64);
    }
  }

  lemma NameOfDigits(data: seq<Byte>)
    requires |data| > 0 && JsonEnd(data[|data| - 1])
    ensures Digits(NameOf(data))
  {
    LastDigitIsNoDash(data);
    AllDigits(data);
  }

  /** Bytes that are a JSON text of a configuration give that configuration, whatever the
      signature check would say of them. */
  lemma DecodedFirst(c: Codec, data: seq<Byte>, lic: CustomServer)
    requires c.fromJson(data) == Some(lic)
    ensures FromConfigString(c, NameOf(data)) == Some(lic)
  {
    ReverseTwice(Encode(data));
    DecodeEncode(data);
  }

  /** Other bytes give what the text under a valid signature gives. */
  lemma SignedNext(c: Codec, data: seq<Byte>, text: seq<Byte>, lic: CustomServer)
    requires c.fromJson(data) == None && c.verify(data) == Some(text) && c.fromJson(text) == Some(lic)
    ensures FromConfigString(c, NameOf(data)) == Some(lic)
  {
    ReverseTwice(Encode(data));
    DecodeEncode(data);
  }

  /** A plain configuration in any JSON spelling is read from a file name. */
  lemma DecodedNameIsRead(c: Codec, data: seq<Byte>, lic: CustomServer, sep: string, ks: seq<Copy>, tail: string, ext: string)
    requires Lawful(c) && c.fromJson(data) == Some(lic) && Uncut(NameOf(data))
    requires IsSeparator(sep) && PlainTail(tail) && IsExtension(ext) && TailFits(NameOf(data), Copies(ks), tail)
    requires forall k :: k in ks ==> PlainCopy(k)
    ensures Parsed(c, "onedesk" + sep + (NameOf(data) + Copies(ks) + tail) + ext) == Some(lic)
  {
    DecodedFirst(c, data, lic);
    NameOfDigits(data);
    NameIsRead(c, NameOf(data), lic, sep, ks, tail, ext);
  }

  /** So is a signed one: a signature of 64 bytes, and then the text. */
  lemma SignedNameIsRead(c: Codec, sig: seq<Byte>, text: seq<Byte>, lic: CustomServer, sep: string, ks: seq<Copy>, tail: string, ext: string)
    requires Lawful(c) && |sig| == 64 && c.fromJson(sig + text) == None
    requires c.verify(sig + text) == Some(text) && c.fromJson(text) == Some(lic)
    requires Uncut(NameOf(sig + text)) && TailFits(NameOf(sig + text), Copies(ks), tail)
    requires IsSeparator(sep) && PlainTail(tail) && IsExtension(ext) && forall k :: k in ks ==> PlainCopy(k)
    ensures Parsed(c, "onedesk" + sep + (NameOf(sig + text) + Copies(ks) + tail) + ext) == Some(lic)
  {
    var data := sig + text;
    SignedNext(c, data, text, lic);
    assert data[|data| - 1] == text[|text| - 1];
    NameOfDigits(data);
    NameIsRead(c, NameOf(data), lic, sep, ks, tail, ext);
  }

  // ---------------------------------------------------------------- white space

  ghost predicate Blank(s: string) { forall i :: 0 <= i < |s| ==> IsSpace(s[i]) }

  lemma {:induction false} TrimEndBlank(core: string, b: string)
    requires core != "" && !IsSpace(core[|core| - 1]) && Blank(b)
    ensures TrimEnd(core + b) == core
  {
    if b == "" {
      assert core + b == core;
    } else {
      assert (core + b)[..|core + b| - 1] == core + b[..|b| - 1];
      TrimEndBlank(core, b[..|b| - 1]);
    }
  }

  /** White space around a text is taken off, and nothing else. */
  lemma {:induction false} TrimAround(a: string, core: string, b: string)
    requires core != "" && !IsSpace(core[0]) && !IsSpace(core[|core| - 1]) && Blank(a) && Blank(b)
    ensures Trim(a + core + b) == core
  {
    if a == "" {
      assert a + core + b == core + b;
      TrimEndBlank(core, b);
    } else {
      assert (a + core + b)[1..] == a[1..] + core + b;
      TrimAround(a[1..], core, b);
    }
  }

  lemma TheSpaces(ch: char)
    ensures IsSpace(ch) <==>
      ch in {'\t', '\n', '\U{000B}', '\U{000C}', '\r', ' ', '\U{0085}', '\U{00A0}', '\U{1680}', '\U{2028}', '\U{2029}', '\U{202F}',
             '\U{205F}', '\U{3000}'} || '\U{2000}' <= ch <= '\U{200A}'
  {
  }

  lemma SpacedPieceIsRead(c: Codec, n: string, lic: CustomServer, a: string, b: string)
    requires Digits(n) && FromConfigString(c, n) == Some(lic) && Blank(a) && Blank(b)
    ensures FromPiece(c, a + n + b) == Some(lic)
  {
    DigitsAreClean(n);
    TrimAround(a, n, b);
  }

  // ---------------------------------------------------------------- order

  /** Result i is this configuration, and there is none before it. */
  ghost predicate IsFirst(rs: seq<Option<CustomServer>>, i: int, lic: CustomServer) {
    0 <= i < |rs| && rs[i] == Some(lic) && forall j :: 0 <= j < i ==> rs[j] == None
  }

  lemma FirstOrLater(r: Option<CustomServer>, rest: seq<Option<CustomServer>>, lic: CustomServer)
    ensures (exists i :: IsFirst([r] + rest, i, lic)) <==> r == Some(lic) || (r == None && exists i :: IsFirst(rest, i, lic))
  {
    if r == Some(lic) {
      assert IsFirst([r] + rest, 0, lic);
    } else if r == None {
      if i :| IsFirst(rest, i, lic) {
        assert IsFirst([r] + rest, i + 1, lic);
      }
      if i :| IsFirst([r] + rest, i, lic) {
        forall j | 0 <= j < i - 1 ensures rest[j] == None { assert ([r] + rest)[j + 1] == rest[j]; }
        assert IsFirst(rest, i - 1, lic);
      }
    } else {
      forall i ensures !IsFirst([r] + rest, i, lic) { assert ([r] + rest)[0] == r; }
    }
  }

  function Parts(c: Codec, ps: seq<string>): (rs: seq<Option<CustomServer>>) {
    if ps == [] then [] else [FromConfigString(c, Trim(ps[0]))] + Parts(c, ps[1..])
  }

  function Pieces(c: Codec, ps: seq<string>): (rs: seq<Option<CustomServer>>) {
    if ps == [] then [] else [FromPiece(c, ps[0])] + Pieces(c, ps[1..])
  }

  /** Of the parts of a piece the first one that decodes is taken. */
  lemma {:induction false} FirstOfIff(c: Codec, ps: seq<string>, lic: CustomServer)
    ensures FirstOf(c, ps) == Some(lic) <==> exists i :: IsFirst(Parts(c, ps), i, lic)
  {
    if ps != [] {
      FirstOfIff(c, ps[1..], lic);
      FirstOrLater(FromConfigString(c, Trim(ps[0])), Parts(c, ps[1..]), lic);
      assert Parts(c, ps) == [FromConfigString(c, Trim(ps[0]))] + Parts(c, ps[1..]);
    }
  }

  /** Of the pieces the first one that gives a configuration is taken. */
  lemma {:induction false} FromPiecesIff(c: Codec, ps: seq<string>, lic: CustomServer)
    ensures FromPieces(c, ps) == Some(lic) <==> exists i :: IsFirst(Pieces(c, ps), i, lic)
  {
    if ps != [] {
      FromPiecesIff(c, ps[1..], lic);
      FirstOrLater(FromPiece(c, ps[0]), Pieces(c, ps[1..]), lic);
      assert Pieces(c, ps) == [FromPiece(c, ps[0])] + Pieces(c, ps[1..]);
    }
  }

  // ---------------------------------------------------------------- letter case

  /** Letter i of the alphabet, in either case, becomes the small letter i; nothing else
      changes. */
  lemma LettersFold(ch: char)
    ensures 'A' <= ch <= 'Z' ==> 'a' <= LowerChar(ch) <= 'z' && LowerChar(ch) as int - 'a' as int == ch as int - 'A' as int
    ensures ch < 'A' || ch > 'Z' ==> LowerChar(ch) == ch
  {
  }
}
