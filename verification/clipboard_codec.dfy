/** The clipboard entries and their wire form: compressed when that is shorter. */
module ClipboardCodec {
  import opened Wrappers

  // ---------------------------------------------------------------- data

  predicate Continues(b: seq<Byte>, from: nat, to: nat) {
    to <= |b| && forall i :: from <= i < to ==> 0x80 <= b[i] <= 0xBF
  }

  /** Well-formed UTF-8, the invariant of a text. */
  predicate ValidUtf8(b: seq<Byte>)
    decreases |b|
  {
    if b == [] then true
    else if b[0] < 0x80 then ValidUtf8(b[1..])
    else if 0xC2 <= b[0] <= 0xDF then Continues(b, 1, 2) && ValidUtf8(b[2..])
    else if 0xE0 <= b[0] <= 0xEF then
      && Continues(b, 1, 3) && (b[0] == 0xE0 ==> b[1] >= 0xA0) && (b[0] == 0xED ==> b[1] <= 0x9F)
      && ValidUtf8(b[3..])
    else if 0xF0 <= b[0] <= 0xF4 then
      && Continues(b, 1, 4) && (b[0] == 0xF0 ==> b[1] >= 0x90) && (b[0] == 0xF4 ==> b[1] <= 0x8F)
      && ValidUtf8(b[4..])
    else false
  }

  type Utf8 = b: seq<Byte> | ValidUtf8(b) witness []
  type Usize = n: nat | n < 0x1_0000_0000_0000_0000
  type I32 = i: int | -0x8000_0000 <= i < 0x8000_0000

  datatype Image = Rgba(width: Usize, height: Usize, pixels: seq<Byte>) | Png(png: seq<Byte>) | Svg(svg: Utf8)

  datatype Entry =
    | Text(text: Utf8)
    | Rtf(rtf: Utf8)
    | Html(html: Utf8)
    | Picture(image: Image)
    | Special(name: seq<Byte>, data: seq<Byte>)
    | FileUrl(urls: seq<Utf8>)
    | Nothing

  datatype Format =
    | FText | FRtf | FHtml | FRgba | FPng | FSvg | FSpecial
    | FUnknown(code: int)

  datatype Wire = Wire(compressed: bool, content: seq<Byte>, width: I32, height: I32, format: Format, specialName: seq<Byte>)

  /** The compressor is not part of this model. */
  datatype Zip = Zip(compress: seq<Byte> -> seq<Byte>, decompress: seq<Byte> -> seq<Byte>)

  ghost predicate Lossless(z: Zip) { forall b :: z.decompress(z.compress(b)) == b }

  /** Casts between a 64-bit length and the signed 32-bit field of the message. */
  function ToI32(n: Usize): (i: I32) {
    var m := n % 0x1_0000_0000;
    if m < 0x8000_0000 then m else m - 0x1_0000_0000
  }

  function ToUsize(i: I32): (n: Usize) {
    if i >= 0 then i else i + 0x1_0000_0000_0000_0000
  }

  predicate SurvivesI32(n: Usize) { n < 0x8000_0000 || n >= 0xFFFF_FFFF_8000_0000 }

  lemma CastRoundTrip(n: Usize)
    ensures ToUsize(ToI32(n)) == n <==> SurvivesI32(n)
  {
  }

  // ---------------------------------------------------------------- encoding

  function Shorter(z: Zip, b: seq<Byte>): (c: bool) { |z.compress(b)| < |b| }

  function Packed(z: Zip, b: seq<Byte>, otherwise: seq<Byte>, f: Format, name: seq<Byte>): (w: Wire) {
    Wire(Shorter(z, b), if Shorter(z, b) then z.compress(b) else otherwise, 0, 0, f, name)
  }

  function PlainToProto(z: Zip, b: seq<Byte>, f: Format): (w: Wire) { Packed(z, b, b, f, []) }

  function ImageToProto(z: Zip, image: Image): (w: Wire) {
    match image
    case Rgba(width, height, pixels) =>
      PlainToProto(z, pixels, FRgba).(width := ToI32(width), height := ToI32(height))
    case Png(png) => Wire(false, png, 0, 0, FPng, [])
    case Svg(svg) => PlainToProto(z, svg, FSvg)
  }

  /** An entry that does not get shorter is sent with its name in place of its data. */
  function SpecialToProto(z: Zip, name: seq<Byte>, data: seq<Byte>): (w: Wire) { Packed(z, data, name, FSpecial, name) }

  function ToProto(z: Zip, e: Entry): (w: Option<Wire>) {
    match e
    case Text(s) => Some(PlainToProto(z, s, FText))
    case Rtf(s) => Some(PlainToProto(z, s, FRtf))
    case Html(s) => Some(PlainToProto(z, s, FHtml))
    case Picture(image) => Some(ImageToProto(z, image))
    case Special(name, data) => Some(SpecialToProto(z, name, data))
    case FileUrl(_) => None
    case Nothing => None
  }

  function CreateMulti(z: Zip, es: seq<Entry>): (ws: seq<Wire>) {
    if es == [] then []
    else
      var rest := CreateMulti(z, es[1..]);
      match ToProto(z, es[0]) case Some(w) => [w] + rest case None => rest
  }

  // ---------------------------------------------------------------- decoding

  function FromUtf8(b: seq<Byte>, wrap: Utf8 -> Entry): (r: Option<Entry>) {
    if ValidUtf8(b) then Some(wrap(b)) else None
  }

  function FromWire(z: Zip, w: Wire): (r: Option<Entry>) {
    var data := if w.compressed then z.decompress(w.content) else w.content;
    match w.format
    case FText => FromUtf8(data, (s: Utf8) => Text(s))
    case FRtf => FromUtf8(data, (s: Utf8) => Rtf(s))
    case FHtml => FromUtf8(data, (s: Utf8) => Html(s))
    case FRgba => Some(Picture(Rgba(ToUsize(w.width), ToUsize(w.height), data)))
    case FPng => Some(Picture(Png(data)))
    case FSvg => Some(Picture(Svg(if ValidUtf8(data) then data else [])))
    case FSpecial => Some(Special(w.specialName, data))
    case FUnknown(_) => None
  }

  function FromMulti(z: Zip, ws: seq<Wire>): (es: seq<Entry>) {
    if ws == [] then []
    else
      var rest := FromMulti(z, ws[1..]);
      match FromWire(z, ws[0]) case Some(e) => [e] + rest case None => rest
  }

  // ---------------------------------------------------------------- round trip

  predicate IsSupported(e: Entry) { !e.FileUrl? && !e.Nothing? }

  function Supported(es: seq<Entry>): (r: seq<Entry>) {
    if es == [] then [] else (if IsSupported(es[0]) then [es[0]] else []) + Supported(es[1..])
  }

  /** The compressor gives back what it made shorter. */
  predicate Restores(z: Zip, b: seq<Byte>) { Shorter(z, b) ==> z.decompress(z.compress(b)) == b }

  /** What a caller can check before it hands an entry to the encoder. */
  predicate Carried(z: Zip, e: Entry) {
    match e
    case Text(s) => Restores(z, s)
    case Rtf(s) => Restores(z, s)
    case Html(s) => Restores(z, s)
    case Picture(Rgba(width, height, pixels)) => SurvivesI32(width) && SurvivesI32(height) && Restores(z, pixels)
    case Picture(Png(_)) => true
    case Picture(Svg(svg)) => Restores(z, svg)
    case Special(name, data) => Restores(z, data) && (Shorter(z, data) || data == name)
    case _ => true
  }

  lemma EntryRoundTrip(z: Zip, e: Entry)
    requires IsSupported(e)
    ensures var w := ToProto(z, e); w.Some? && (FromWire(z, w.value) == Some(e) <==> Carried(z, e))
  {
    match e
    case Picture(Rgba(width, height, _)) =>
      CastRoundTrip(width);
      CastRoundTrip(height);
    case _ =>
  }

  lemma FromMultiHead(z: Zip, w: Wire, ws: seq<Wire>)
    ensures FromMulti(z, [w] + ws) == (match FromWire(z, w) case Some(e) => [e] case None => []) + FromMulti(z, ws)
  {
    assert ([w] + ws)[1..] == ws;
  }

  ghost predicate AllCarried(z: Zip, es: seq<Entry>) { forall e :: e in es ==> Carried(z, e) }

  /** The codec gives the list back, without the unsupported kinds and in order,
      exactly when every entry is one that the wire form can carry; a compressor that
      loses data can only make the list shorter. */
  lemma {:induction false} MultiRoundTrip(z: Zip, es: seq<Entry>)
    ensures |FromMulti(z, CreateMulti(z, es))| <= |Supported(es)|
    ensures FromMulti(z, CreateMulti(z, es)) == Supported(es) <==> AllCarried(z, es)
  {
    if es != [] {
      var e, rest := es[0], es[1..];
      assert es == [e] + rest;
      assert RoundTrips(z, rest) by { MultiRoundTrip(z, rest); }
      assert RoundTrips(z, [e] + rest) by { RoundTripCons(z, e, rest); }
    }
  }

  ghost predicate RoundTrips(z: Zip, es: seq<Entry>) {
    && |FromMulti(z, CreateMulti(z, es))| <= |Supported(es)|
    && (FromMulti(z, CreateMulti(z, es)) == Supported(es) <==> AllCarried(z, es))
  }

  lemma RoundTripCons(z: Zip, e: Entry, rest: seq<Entry>)
    requires RoundTrips(z, rest)
    ensures RoundTrips(z, [e] + rest)
  {
    CarriedCons(z, e, rest);
    assert ([e] + rest)[1..] == rest;
    if IsSupported(e) {
      assert CreateMulti(z, [e] + rest) == [ToProto(z, e).value] + CreateMulti(z, rest);
      assert Supported([e] + rest) == [e] + Supported(rest);
      RoundTripHead(z, e, CreateMulti(z, rest), Supported(rest));
    } else {
      assert CreateMulti(z, [e] + rest) == CreateMulti(z, rest);
      assert Supported([e] + rest) == [] + Supported(rest) == Supported(rest);
    }
  }

  lemma CarriedCons(z: Zip, e: Entry, rest: seq<Entry>)
    ensures AllCarried(z, [e] + rest) <==> Carried(z, e) && AllCarried(z, rest)
  {
    if AllCarried(z, [e] + rest) {
      assert e in [e] + rest;
      forall x | x in rest ensures Carried(z, x) { assert x in [e] + rest; }
    }
  }

  lemma RoundTripHead(z: Zip, e: Entry, ws: seq<Wire>, es: seq<Entry>)
    requires IsSupported(e) && |FromMulti(z, ws)| <= |es|
    ensures var r := FromMulti(z, [ToProto(z, e).value] + ws);
            && |r| <= |[e] + es|
            && (r == [e] + es <==> Carried(z, e) && FromMulti(z, ws) == es)
  {
    EntryRoundTrip(z, e);
    var w := ToProto(z, e).value;
    FromMultiHead(z, w, ws);
    match FromWire(z, w)
    case Some(x) => ConsEqual(x, FromMulti(z, ws), e, es);
    case None => assert [] + FromMulti(z, ws) == FromMulti(z, ws);
  }

  lemma ConsEqual<T>(a: T, s: seq<T>, b: T, t: seq<T>)
    ensures [a] + s == [b] + t <==> a == b && s == t
  {
    if [a] + s == [b] + t {
      assert ([a] + s)[0] == ([b] + t)[0];
      assert ([a] + s)[1..] == s && ([b] + t)[1..] == t;
    }
  }

  /** The bytes an entry holds. */
  function Payload(e: Entry): (b: seq<Byte>)
    requires IsSupported(e)
  {
    match e
    case Text(s) => s
    case Rtf(s) => s
    case Html(s) => s
    case Picture(Rgba(_, _, pixels)) => pixels
    case Picture(Png(png)) => png
    case Picture(Svg(svg)) => svg
    case Special(_, data) => data
  }

  lemma {:induction false} SupportedOnly(es: seq<Entry>)
    ensures forall e :: e in Supported(es) <==> e in es && IsSupported(e)
  {
    if es != [] {
      SupportedOnly(es[1..]);
      assert forall e :: e in es <==> e == es[0] || e in es[1..];
    }
  }

  /** Wire entry i carries supported entry i; only a special entry can take more bytes
      on the wire than it has, namely the bytes of its name. */
  lemma {:induction false} WireSizes(z: Zip, es: seq<Entry>, i: nat)
    requires i < |Supported(es)|
    ensures |CreateMulti(z, es)| == |Supported(es)| && IsSupported(Supported(es)[i])
    ensures var e, w := Supported(es)[i], CreateMulti(z, es)[i];
            && ToProto(z, e) == Some(w)
            && (!e.Special? ==> |w.content| <= |Payload(e)|)
            && (e.Special? && !Shorter(z, e.data) ==> w.content == e.name)
  {
    if IsSupported(es[0]) {
      if i > 0 {
        WireSizes(z, es[1..], i - 1);
      } else if |Supported(es[1..])| > 0 {
        WireSizes(z, es[1..], 0);
      } else {
        NothingSupported(z, es[1..]);
      }
    } else {
      WireSizes(z, es[1..], i);
    }
  }

  lemma {:induction false} NothingSupported(z: Zip, es: seq<Entry>)
    requires Supported(es) == []
    ensures CreateMulti(z, es) == []
  {
    if es != [] { NothingSupported(z, es[1..]); }
  }

  /** A compressor that reports a failure as an empty result: a text that is not empty is
      then lost, since the empty result is the shorter one and is sent. */
  lemma FailedCompressionLosesText(z: Zip, s: Utf8)
    requires s != [] && z.compress(s) == [] && z.decompress([]) == []
    ensures !Carried(z, Text(s)) && FromMulti(z, CreateMulti(z, [Text(s)])) == [Text([])]
  {
    var w := PlainToProto(z, s, FText);
    assert CreateMulti(z, [Text(s)]) == [w];
    assert FromWire(z, w) == Some(Text([]));
    assert [w][1..] == [];
  }

  // ---------------------------------------------------------------- the second time

  /** What is decoded can be encoded and decoded again without any change, as long as the
      compressor is lossless: what the wire form loses it loses the first time. */
  lemma EntryOnceMore(z: Zip, e: Entry)
    requires Lossless(z) && IsSupported(e)
    ensures var r := FromWire(z, ToProto(z, e).value);
            && r.Some? && IsSupported(r.value) && Carried(z, r.value)
            && (ToProto(z, r.value) == ToProto(z, e) <==> Resent(z, e))
  {
    match e
    case Picture(Rgba(width, height, _)) =>
      CastTwice(width);
      CastTwice(height);
    case _ =>
  }

  lemma CastTwice(n: Usize)
    ensures ToI32(ToUsize(ToI32(n))) == ToI32(n) && SurvivesI32(ToUsize(ToI32(n)))
  {
  }

  /** Only the name of a special entry that was sent in place of its data can look
      different the second time: when it gets shorter itself. */
  predicate Resent(z: Zip, e: Entry) {
    e.Special? ==> Shorter(z, e.data) || e.data == e.name || !Shorter(z, e.name)
  }

  ghost predicate Stable(z: Zip, es: seq<Entry>) {
    var d := FromMulti(z, CreateMulti(z, es));
    && |d| == |Supported(es)| && Supported(d) == d && AllCarried(z, d)
    && (CreateMulti(z, d) == CreateMulti(z, es) <==> forall e :: e in es ==> Resent(z, e))
  }

  lemma {:induction false} ListOnceMore(z: Zip, es: seq<Entry>)
    requires Lossless(z)
    ensures Stable(z, es)
  {
    if es != [] {
      ListOnceMore(z, es[1..]);
      assert es == [es[0]] + es[1..];
      OnceMoreCons(z, es[0], es[1..]);
    }
  }

  lemma OnceMoreCons(z: Zip, e: Entry, rest: seq<Entry>)
    requires Lossless(z) && Stable(z, rest)
    ensures Stable(z, [e] + rest)
  {
    assert ([e] + rest)[1..] == rest;
    assert (forall x :: x in [e] + rest ==> Resent(z, x)) <==> Resent(z, e) && (forall x :: x in rest ==> Resent(z, x));
    var ws, d := CreateMulti(z, rest), FromMulti(z, CreateMulti(z, rest));
    assert [] + Supported(rest) == Supported(rest);
    if IsSupported(e) {
      EntryOnceMore(z, e);
      var w := ToProto(z, e).value;
      var x := FromWire(z, w).value;
      FromMultiHead(z, w, ws);
      CarriedCons(z, x, d);
      assert ([x] + d)[1..] == d && [x] + Supported(d) == [x] + d;
      ConsEqual(ToProto(z, x).value, CreateMulti(z, d), w, ws);
    }
  }

  // ---------------------------------------------------------------- what is on the wire

  /** The content is the shorter one of the bytes and their compressed form, and the flag
      says which; a PNG is sent as it is, and so is the name of a special entry in place
      of data that does not get shorter. */
  lemma WireContent(z: Zip, e: Entry)
    requires IsSupported(e)
    ensures var w, b := ToProto(z, e).value, Payload(e);
            && (w.compressed <==> |z.compress(b)| < |b| && !(e.Picture? && e.image.Png?))
            && w.content == (if w.compressed then z.compress(b) else if e.Special? then e.name else b)
            && (!(e.Picture? && e.image.Png?) && !e.Special? ==> |w.content| <= |b| && |w.content| <= |z.compress(b)|)
  {
  }

  /** A special entry arrives with its data when its compressed form is shorter. */
  lemma SpecialArrives(z: Zip, name: seq<Byte>, data: seq<Byte>)
    requires |z.compress(data)| < |data| && z.decompress(z.compress(data)) == data
    ensures FromMulti(z, CreateMulti(z, [Special(name, data)])) == [Special(name, data)]
  {
    MultiRoundTrip(z, [Special(name, data)]);
    assert [Special(name, data)][1..] == [];
  }

  /** The size of an image is in the message modulo 2^32, width and height each in its own
      field, and the kind and the name of an entry are what they are. */
  lemma WireFields(z: Zip, e: Entry)
    requires IsSupported(e)
    ensures var w := ToProto(z, e).value;
            && (e.Picture? && e.image.Rgba? ==>
                (w.width - e.image.width) % 0x1_0000_0000 == 0 && (w.height - e.image.height) % 0x1_0000_0000 == 0)
            && (e.Special? <==> w.format == FSpecial) && (e.Special? ==> w.specialName == e.name)
            && (e.Text? <==> w.format == FText) && (e.Rtf? <==> w.format == FRtf) && (e.Html? <==> w.format == FHtml)
            && (e.Picture? ==> match e.image case Rgba(_, _, _) => w.format == FRgba case Png(_) => w.format == FPng case Svg(_) => w.format == FSvg)
  {
  }

  /** What is dropped on arrival: an unknown kind, and a text that is no text. A picture in
      SVG that is no text arrives empty. */
  lemma DroppedIff(z: Zip, w: Wire)
    ensures var data := if w.compressed then z.decompress(w.content) else w.content;
            && (FromWire(z, w) == None <==>
                w.format.FUnknown? || (w.format in {FText, FRtf, FHtml} && !ValidUtf8(data)))
            && (w.format == FSvg && !ValidUtf8(data) ==> FromWire(z, w) == Some(Picture(Svg([]))))
  {
  }

  /** The size in the message is read as a 64-bit length with the same low bits. */
  lemma SizeIsRead(z: Zip, w: Wire)
    requires w.format == FRgba
    ensures var e := FromWire(z, w).value;
            && e.Picture? && e.image.Rgba?
            && (e.image.width - w.width) % 0x1_0000_0000_0000_0000 == 0 && (e.image.height - w.height) % 0x1_0000_0000_0000_0000 == 0
  {
  }
}
