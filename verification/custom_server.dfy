/** Server configuration that is carried in the name of the executable: the printer
    (`gen_name`) and the parser (`get_custom_server_from_string`). */
module CustomServerName {
  import opened Wrappers
  import opened Strings
  import opened UrlBase64

  datatype CustomServer = CustomServer(key: string, host: string, api: string, relay: string)

  /** The codecs that are not part of this model: JSON and the signature check. */
  datatype Codec = Codec(
    toJson: CustomServer -> seq<Byte>,
    fromJson: seq<Byte> -> Option<CustomServer>,
    verify: seq<Byte> -> Option<seq<Byte>>)

  /** The bytes a JSON text of an object or a list can end in. */
  predicate JsonEnd(b: Byte) { b in {0x7D, 0x5D, 0x20, 0x09, 0x0A, 0x0D} }

  /** JSON decoding inverts encoding, an object is written between braces, a JSON text ends
      in a bracket or in white space, and a signature is the 64 bytes before the message. */
  ghost predicate Lawful(c: Codec) {
    && (forall lic :: c.fromJson(c.toJson(lic)) == Some(lic))
    && (forall lic :: var b := c.toJson(lic); |b| > 1 && b[0] == 123 && b[|b| - 1] == 125)
    && (forall b :: c.fromJson(b).Some? ==> |b| > 0 && JsonEnd(b[|b| - 1]))
    && (forall b :: c.verify(b).Some? ==> |b| >= 64 && c.verify(b).value == b[64..])
  }

  // ---------------------------------------------------------------- printer and parser

  function GenName(c: Codec, lic: CustomServer): (s: string) { Reverse(Encode(c.toJson(lic))) }

  function FromConfigString(c: Codec, s: string): (r: Option<CustomServer>) {
    match Decode(Reverse(s))
    case None => None
    case Some(data) =>
      match c.fromJson(data)
      case Some(lic) => Some(lic)
      case None =>
        match c.verify(data)
        case Some(signed) => c.fromJson(signed)
        case None => None
  }

  /** The first of the pieces that decodes. */
  function FirstOf(c: Codec, pieces: seq<string>): (r: Option<CustomServer>) {
    if pieces == [] then None
    else
      var r := FromConfigString(c, Trim(pieces[0]));
      if r.Some? then r else FirstOf(c, pieces[1..])
  }

  function FromPiece(c: Codec, s: string): (r: Option<CustomServer>) {
    var r := FromConfigString(c, Trim(s));
    if r.Some? then r else if '(' in s then FirstOf(c, Split(s, "(")) else None
  }

  function FromPieces(c: Codec, pieces: seq<string>): (r: Option<CustomServer>) {
    if pieces == [] then None
    else
      var r := FromPiece(c, pieces[0]);
      if r.Some? then r else FromPieces(c, pieces[1..])
  }

  function Normalise(s: string): (r: string) {
    Replace(Replace(Replace(s, "-licensed---", "--"), "-licensed--", "--"), "-licensed-", "--")
  }

  function Stem(s: string): (r: string) {
    if EndsWith(Lower(s), ".exe.exe") then s[..|s| - 8]
    else if EndsWith(Lower(s), ".exe") then s[..|s| - 4]
    else s
  }

  /** The text after the given tag in the last element that starts with it. */
  function LastValue(els: seq<string>, tag: string): (v: string) {
    if els == [] then ""
    else
      var el := els[|els| - 1];
      if StartsWith(Lower(el), tag) then el[|tag|..] else LastValue(els[..|els| - 1], tag)
  }

  function HostForm(els: seq<string>): (r: CustomServer) {
    CustomServer(LastValue(els, "key="), LastValue(els, "host="), LastValue(els, "api="), LastValue(els, "relay="))
  }

  function Parsed(c: Codec, name: string): (r: Option<CustomServer>) {
    var s := Stem(name);
    var i := Find(Lower(s), "host=");
    if i < |s| then Some(HostForm(Split(s[i..], ",")))
    else FromPieces(c, Split(Normalise(s), "--"))
  }

  method ParseElements(els: seq<string>) returns (r: CustomServer)
    ensures r == HostForm(els)
  {
    var host, key, api, relay := "", "", "", "";
    for i := 0 to |els|
      invariant CustomServer(key, host, api, relay) == HostForm(els[..i])
    {
      var el := els[i];
      var lower := Lower(el);
      assert els[..i + 1][..i] == els[..i];
      if StartsWith(lower, "host=") { host := el[5..]; }
      if StartsWith(lower, "key=") { key := el[4..]; }
      if StartsWith(lower, "api=") { api := el[4..]; }
      if StartsWith(lower, "relay=") { relay := el[6..]; }
    }
    assert els[..|els|] == els;
    r := CustomServer(key, host, api, relay);
  }

  method GetCustomServerFromString(c: Codec, name: string) returns (r: Option<CustomServer>)
    ensures r == Parsed(c, name)
  {
    var s := Stem(name);
    var at := Find(Lower(s), "host=");
    if at < |s| {
      var server := ParseElements(Split(s[at..], ","));
      return Some(server);
    }
    var strs := Split(Normalise(s), "--");
    for i := 0 to |strs|
      invariant FromPieces(c, strs) == FromPieces(c, strs[i..])
    {
      var lic := FromConfigString(c, Trim(strs[i]));
      if lic.Some? {
        return lic;
      } else if '(' in strs[i] {
        var parts := Split(strs[i], "(");
        for j := 0 to |parts|
          invariant FirstOf(c, parts) == FirstOf(c, parts[j..])
        {
          var part := FromConfigString(c, Trim(parts[j]));
          if part.Some? {
            return part;
          }
        }
      }
    }
    r := None;
  }
}
