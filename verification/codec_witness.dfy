/** A codec that meets the laws the file-name theorems ask for: each character is written
    as three digits of seven bits, and nothing is accepted that was not written so. */
module CodecWitness {
  import opened Wrappers
  import opened UrlBase64
  import opened CustomServerName
  import opened NameRoundTrip
  import opened NameLimits
  import opened NameReading

  /** A character is marked by 1, the end of a text by 0. */
  function Written(s: string): (b: seq<Byte>) {
    if s == "" then [0]
    else
      var n := s[0] as int;
      [1, n / 0x4000, n / 0x80 % 0x80, n % 0x80] + Written(s[1..])
  }

  predicate IsChar(n: int) { 0 <= n < 0xD800 || 0xE000 <= n < 0x11_0000 }

  function CodeOf(b: seq<Byte>): (n: int)
    requires |b| >= 4
  {
    var x: int, y: int, z: int := b[1], b[2], b[3];
    x * 0x4000 + y * 0x80 + z
  }

  function Read(b: seq<Byte>): (r: Option<(string, seq<Byte>)>)
    decreases |b|
  {
    if b == [] then None
    else if b[0] == 0 then Some(("", b[1..]))
    else if |b| >= 4 && b[0] == 1 && b[2] < 0x80 && b[3] < 0x80 && IsChar(CodeOf(b)) then
      match Read(b[4..])
      case None => None
      case Some((s, rest)) => Some(([CodeOf(b) as char] + s, rest))
    else None
  }

  lemma SevenBits(n: nat)
    ensures n / 0x4000 * 0x4000 + n / 0x80 % 0x80 * 0x80 + n % 0x80 == n
  {
    assert n / 0x80 == n / 0x4000 * 0x80 + n / 0x80 % 0x80;
  }

  lemma {:induction false} ReadWritten(s: string, rest: seq<Byte>)
    ensures Read(Written(s) + rest) == Some((s, rest))
  {
    var b := Written(s) + rest;
    if s == "" {
      assert b[1..] == rest;
    } else {
      var n := s[0] as int;
      SevenBits(n);
      ReadWritten(s[1..], rest);
      assert b[4..] == Written(s[1..]) + rest;
      assert CodeOf(b) == n && [n as char] + s[1..] == s;
    }
  }

  lemma SevenBitsBack(x: nat, y: nat, z: nat)
    requires y < 0x80 && z < 0x80
    ensures var n := x * 0x4000 + y * 0x80 + z;
            n / 0x4000 == x && n / 0x80 % 0x80 == y && n % 0x80 == z
  {
    var n := x * 0x4000 + y * 0x80 + z;
    assert n == (x * 0x80 + y) * 0x80 + z;
    assert n / 0x80 == x * 0x80 + y;
  }

  lemma {:induction false} WrittenRead(b: seq<Byte>)
    requires Read(b).Some?
    ensures b == Written(Read(b).value.0) + Read(b).value.1
    decreases |b|
  {
    var (s, rest) := Read(b).value;
    if b[0] == 0 {
      assert b == [0] + b[1..];
    } else {
      WrittenRead(b[4..]);
      SevenBitsBack(b[1], b[2], b[3]);
      assert s[1..] == Read(b[4..]).value.0;
      assert b == [b[0], b[1], b[2], b[3]] + b[4..];
      Associative([b[0], b[1], b[2], b[3]], Written(s[1..]), rest);
    }
  }

  function Fields(lic: CustomServer): (b: seq<Byte>) {
    Written(lic.key) + (Written(lic.host) + (Written(lic.api) + (Written(lic.relay) + [0x7D])))
  }

  function ReadFields(b: seq<Byte>): (r: Option<CustomServer>) {
    match Read(b)
    case None => None
    case Some((key, b1)) =>
      match Read(b1)
      case None => None
      case Some((host, b2)) =>
        match Read(b2)
        case None => None
        case Some((api, b3)) =>
          match Read(b3)
          case None => None
          case Some((relay, b4)) => if b4 == [0x7D] then Some(CustomServer(key, host, api, relay)) else None
  }

  lemma ReadFieldsWritten(lic: CustomServer)
    ensures ReadFields(Fields(lic)) == Some(lic)
  {
    ReadWritten(lic.relay, [0x7D]);
    ReadWritten(lic.api, Written(lic.relay) + [0x7D]);
    ReadWritten(lic.host, Written(lic.api) + (Written(lic.relay) + [0x7D]));
    ReadWritten(lic.key, Written(lic.host) + (Written(lic.api) + (Written(lic.relay) + [0x7D])));
  }

  lemma FieldsRead(b: seq<Byte>)
    requires ReadFields(b).Some?
    ensures b == Fields(ReadFields(b).value)
  {
    var b1 := Read(b).value.1;
    var b2 := Read(b1).value.1;
    WrittenRead(b);
    WrittenRead(b1);
    WrittenRead(b2);
    WrittenRead(Read(b2).value.1);
  }

  function Witness(): (c: Codec) {
    Codec((lic: CustomServer) => [0x7B] + Fields(lic),
          (b: seq<Byte>) => if b != [] && b[0] == 0x7B then ReadFields(b[1..]) else None,
          _ => None)
  }

  lemma {:induction false} WrittenIsAscii(s: string)
    ensures Ascii(Written(s))
  {
    if s != "" { WrittenIsAscii(s[1..]); }
  }

  lemma AsciiTogether(a: seq<Byte>, b: seq<Byte>)
    requires Ascii(a) && Ascii(b)
    ensures Ascii(a + b)
  {
  }

  lemma FieldsAreAscii(lic: CustomServer)
    ensures Ascii([0x7B] + Fields(lic))
  {
    WrittenIsAscii(lic.key);
    WrittenIsAscii(lic.host);
    WrittenIsAscii(lic.api);
    WrittenIsAscii(lic.relay);
    AsciiTogether(Written(lic.relay), [0x7D]);
    AsciiTogether(Written(lic.api), Written(lic.relay) + [0x7D]);
    AsciiTogether(Written(lic.host), Written(lic.api) + (Written(lic.relay) + [0x7D]));
    AsciiTogether(Written(lic.key), Written(lic.host) + (Written(lic.api) + (Written(lic.relay) + [0x7D])));
    AsciiTogether([0x7B], Fields(lic));
  }

  lemma LastByte(lic: CustomServer)
    ensures var b := [0x7B] + Fields(lic); |b| > 1 && b[0] == 0x7B && b[|b| - 1] == 0x7D
  {
  }

  lemma WitnessReads(lic: CustomServer)
    ensures Witness().fromJson(Witness().toJson(lic)) == Some(lic)
  {
    ReadFieldsWritten(lic);
    assert ([0x7B] + Fields(lic))[1..] == Fields(lic);
  }

  lemma WitnessIsStrict(b: seq<Byte>)
    requires Witness().fromJson(b).Some?
    ensures b == Witness().toJson(Witness().fromJson(b).value)
    ensures |b| > 0 && JsonEnd(b[|b| - 1])
  {
    FieldsRead(b[1..]);
    assert b == [0x7B] + b[1..];
    LastByte(Witness().fromJson(b).value);
  }

  /** The laws can be met, by a codec whose texts are all ASCII and whose decoder is
      strict. */
  lemma WitnessIsLawful()
    ensures Lawful(Witness())
    ensures forall lic :: Ascii(Witness().toJson(lic)) && Strict(Witness(), lic)
  {
    var c := Witness();
    forall lic ensures c.fromJson(c.toJson(lic)) == Some(lic) { WitnessReads(lic); }
    forall lic ensures Ascii(c.toJson(lic)) { FieldsAreAscii(lic); }
    forall lic ensures var b := c.toJson(lic); |b| > 1 && b[0] == 0x7B && b[|b| - 1] == 0x7D { LastByte(lic); }
    forall b | c.fromJson(b).Some? ensures b == c.toJson(c.fromJson(b).value) && |b| > 0 && JsonEnd(b[|b| - 1]) {
      WitnessIsStrict(b);
    }
  }

  // ---------------------------------------------------------------- signed texts

  function Seal(): (sig: seq<Byte>)
    ensures |sig| == 64
  {
    seq(64, _ => 0)
  }

  /** The same, with a signature check that asks for 64 zero bytes. */
  function Sealing(): (c: Codec) {
    Witness().(verify := (b: seq<Byte>) => if |b| >= 64 && b[..64] == Seal() then Some(b[64..]) else None)
  }

  lemma SealingIsLawful()
    ensures Lawful(Sealing())
  {
    WitnessIsLawful();
  }

  /** A signed configuration is read from its file name. */
  lemma SealedNameIsRead(lic: CustomServer, sep: string, ks: seq<Copy>, ext: string)
    requires IsSeparator(sep) && IsExtension(ext) && forall k :: k in ks ==> PlainCopy(k)
    ensures Parsed(Sealing(), "onedesk" + sep + (NameOf(Seal() + Witness().toJson(lic)) + Copies(ks) + "") + ext) == Some(lic)
  {
    var text := Witness().toJson(lic);
    SealingIsLawful();
    SealedText(lic);
    AsciiDataIsUncut(Seal() + text);
    SignedNameIsRead(Sealing(), Seal(), text, lic, sep, ks, "", ext);
  }

  lemma SealedText(lic: CustomServer)
    ensures var c, text := Sealing(), Witness().toJson(lic);
            && c.fromJson(Seal() + text) == None && c.verify(Seal() + text) == Some(text) && c.fromJson(text) == Some(lic)
    ensures var data := Seal() + Witness().toJson(lic); Ascii(data) && |data| > 0 && data[|data| - 1] == 125
  {
    var text := Witness().toJson(lic);
    var data := Seal() + text;
    WitnessReads(lic);
    assert data[0] == 0;
    assert data[..64] == Seal() && data[64..] == text;
    FieldsAreAscii(lic);
    LastByte(lic);
    AsciiTogether(Seal(), text);
  }
}
