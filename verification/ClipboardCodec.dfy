/** Clipboard contents, the messages that carry them, and the conversions between the two
    (the `proto` module of src/clipboard.rs). */
module ClipboardCodec {
  import opened Common

  /** Rust strings are represented by their UTF-8 bytes. */
  type Utf8 = seq<byte>

  datatype Image =
    | Rgba(width: nat, height: nat, pixels: seq<byte>)
    | Png(png: seq<byte>)
    | Svg(svg: Utf8)

  datatype Data =
    | Text(text: Utf8)
    | Html(html: Utf8)
    | Rtf(rtf: Utf8)
    | Picture(image: Image)
    | Special(name: Utf8, data: seq<byte>)
    | FileUrl(urls: seq<Utf8>)
    | Unsupported
    | Nothing

  datatype Format = FText | FRtf | FHtml | FImageRgba | FImagePng | FImageSvg | FSpecial | FUnknown

  datatype Clipboard = Clipboard(compress: bool, content: seq<byte>, width: int, height: int,
                                 format: Format, specialName: Utf8)

  /** The compression library and the UTF-8 check. */
  datatype Library = Library(
    compress: seq<byte> -> seq<byte>,
    decompress: seq<byte> -> seq<byte>,
    isUtf8: seq<byte> -> bool)

  /** Compression that is worth sending loses nothing. */
  ghost predicate Lossless(lib: Library, b: seq<byte>) {
    |lib.compress(b)| < |b| ==> lib.decompress(lib.compress(b)) == b
  }

  // ----- casts between the platform's sizes and the 32-bit fields of the message -----

  const TWO31 := 0x8000_0000
  const TWO32 := 0x1_0000_0000
  const TWO64 := 0x1_0000_0000_0000_0000

  function AsI32(n: nat): int {
    var m := n % TWO32;
    if m < TWO31 then m else m - TWO32
  }

  function AsUsize(i: int): nat
    requires -TWO31 <= i < TWO31
  {
    if i >= 0 then i else i + TWO64
  }

  predicate FitsI32(n: nat) {
    n < TWO31 || TWO64 - TWO31 <= n < TWO64
  }

  lemma SizeRoundTrip(n: nat)
    requires n < TWO64
    ensures AsUsize(AsI32(n)) == n <==> FitsI32(n)
  {}

  // ----- contents to messages -----

  function Packed(lib: Library, b: seq<byte>): (bool, seq<byte>) {
    var compressed := lib.compress(b);
    if |compressed| < |b| then (true, compressed) else (false, b)
  }

  function PlainToProto(lib: Library, s: Utf8, format: Format): Clipboard {
    var (compress, content) := Packed(lib, s);
    Clipboard(compress, content, 0, 0, format, [])
  }

  function ImageToProto(lib: Library, a: Image): Clipboard {
    match a
    case Rgba(w, h, pixels) =>
      var (compress, content) := Packed(lib, pixels);
      Clipboard(compress, content, AsI32(w), AsI32(h), FImageRgba, [])
    case Png(png) =>
      Clipboard(false, png, 0, 0, FImagePng, [])
    case Svg(svg) =>
      var (compress, content) := Packed(lib, svg);
      Clipboard(compress, content, 0, 0, FImageSvg, [])
  }

  /** As written in the source, an item that does not compress carries its own name in
      place of its data. */
  function SpecialToProto(lib: Library, d: seq<byte>, s: Utf8): Clipboard {
    var compressed := lib.compress(d);
    var compress := |compressed| < |d|;
    Clipboard(compress, if compress then compressed else s, 0, 0, FSpecial, s)
  }

  function ToProto(lib: Library, d: Data): Option<Clipboard> {
    match d
    case Text(s) => Some(PlainToProto(lib, s, FText))
    case Rtf(s) => Some(PlainToProto(lib, s, FRtf))
    case Html(s) => Some(PlainToProto(lib, s, FHtml))
    case Picture(a) => Some(ImageToProto(lib, a))
    case Special(s, data) => Some(SpecialToProto(lib, data, s))
    case _ => None
  }

  function CreateMulti(lib: Library, ds: seq<Data>): seq<Clipboard> {
    if ds == [] then []
    else
      var c := ToProto(lib, ds[0]);
      (if c.Some? then [c.value] else []) + CreateMulti(lib, ds[1..])
  }

  // ----- messages to contents -----

  /** Message fields are 32-bit integers. */
  predicate ValidClipboard(c: Clipboard) {
    -TWO31 <= c.width < TWO31 && -TWO31 <= c.height < TWO31
  }

  function FromProto(lib: Library, c: Clipboard): Option<Data>
    requires ValidClipboard(c)
  {
    var data := if c.compress then lib.decompress(c.content) else c.content;
    match c.format
    case FText => if lib.isUtf8(data) then Some(Text(data)) else None
    case FRtf => if lib.isUtf8(data) then Some(Rtf(data)) else None
    case FHtml => if lib.isUtf8(data) then Some(Html(data)) else None
    case FImageRgba => Some(Picture(Rgba(AsUsize(c.width), AsUsize(c.height), data)))
    case FImagePng => Some(Picture(Png(data)))
    case FImageSvg => Some(Picture(Svg(if lib.isUtf8(data) then data else [])))
    case FSpecial => Some(Special(c.specialName, data))
    case FUnknown => None
  }

  predicate AllValid(cs: seq<Clipboard>) {
    forall i :: 0 <= i < |cs| ==> ValidClipboard(cs[i])
  }

  function FromMulti(lib: Library, cs: seq<Clipboard>): seq<Data>
    requires AllValid(cs)
  {
    if cs == [] then []
    else
      var d := FromProto(lib, cs[0]);
      (if d.Some? then [d.value] else []) + FromMulti(lib, cs[1..])
  }

  // ----- when a content survives the trip -----

  /** What the types of the source guarantee: strings are UTF-8, sizes are 64-bit. */
  ghost predicate WellTyped(lib: Library, d: Data) {
    match d
    case Text(s) => lib.isUtf8(s)
    case Rtf(s) => lib.isUtf8(s)
    case Html(s) => lib.isUtf8(s)
    case Picture(Rgba(w, h, _)) => w < TWO64 && h < TWO64
    case Picture(Svg(s)) => lib.isUtf8(s)
    case _ => true
  }

  ghost predicate LosslessFor(lib: Library, d: Data) {
    match d
    case Text(s) => Lossless(lib, s)
    case Rtf(s) => Lossless(lib, s)
    case Html(s) => Lossless(lib, s)
    case Picture(Rgba(_, _, pixels)) => Lossless(lib, pixels)
    case Picture(Svg(s)) => Lossless(lib, s)
    case Special(_, data) => Lossless(lib, data)
    case _ => true
  }

  /** The contents a message can carry: everything but files and unreadable items, images
      whose sizes fit, and special items that compress (or happen to equal their name). */
  ghost predicate Carried(lib: Library, d: Data) {
    match d
    case Text(_) => true
    case Rtf(_) => true
    case Html(_) => true
    case Picture(Rgba(w, h, _)) => FitsI32(w) && FitsI32(h)
    case Picture(_) => true
    case Special(s, data) => |lib.compress(data)| < |data| || data == s
    case _ => false
  }

  /** One item through the message and back. */
  function Through(lib: Library, d: Data): Option<Data> {
    var c := ToProto(lib, d);
    if c.Some? then FromProto(lib, c.value) else None
  }

  /** An item comes back unchanged exactly when it is one a message can carry. */
  lemma ItemRoundTrip(lib: Library, d: Data)
    requires WellTyped(lib, d) && LosslessFor(lib, d)
    ensures Through(lib, d) == Some(d) <==> Carried(lib, d)
  {
    if d.Picture? && d.image.Rgba? {
      SizeRoundTrip(d.image.width);
      SizeRoundTrip(d.image.height);
    }
  }

  lemma {:induction false} MultiValid(lib: Library, ds: seq<Data>)
    ensures AllValid(CreateMulti(lib, ds))
  {
    if ds != [] {
      MultiValid(lib, ds[1..]);
      var c := ToProto(lib, ds[0]);
      assert c.Some? ==> ValidClipboard(c.value);
    }
  }

  /** The whole list through the message and back. */
  function ThroughAll(lib: Library, ds: seq<Data>): seq<Data> {
    MultiValid(lib, ds);
    FromMulti(lib, CreateMulti(lib, ds))
  }

  lemma ThroughAllCons(lib: Library, ds: seq<Data>)
    requires ds != []
    ensures ThroughAll(lib, ds)
         == (if Through(lib, ds[0]).Some? then [Through(lib, ds[0]).value] else []) + ThroughAll(lib, ds[1..])
  {
    MultiValid(lib, ds);
    MultiValid(lib, ds[1..]);
    var c := ToProto(lib, ds[0]);
    var rest := CreateMulti(lib, ds[1..]);
    if c.Some? {
      assert CreateMulti(lib, ds) == [c.value] + rest;
      assert ([c.value] + rest)[1..] == rest;
    } else {
      assert CreateMulti(lib, ds) == rest;
    }
  }

  lemma {:induction false} ThroughAllLength(lib: Library, ds: seq<Data>)
    ensures |ThroughAll(lib, ds)| <= |ds|
  {
    if ds != [] {
      ThroughAllCons(lib, ds);
      ThroughAllLength(lib, ds[1..]);
    }
  }

  /** A list of items comes back unchanged exactly when every item is one a message can carry. */
  lemma {:induction false} MultiRoundTrip(lib: Library, ds: seq<Data>)
    requires forall i :: 0 <= i < |ds| ==> WellTyped(lib, ds[i]) && LosslessFor(lib, ds[i])
    ensures ThroughAll(lib, ds) == ds <==> forall i :: 0 <= i < |ds| ==> Carried(lib, ds[i])
  {
    if ds != [] {
      ThroughAllCons(lib, ds);
      ItemRoundTrip(lib, ds[0]);
      MultiRoundTrip(lib, ds[1..]);
      ThroughAllLength(lib, ds[1..]);
      var t := ThroughAll(lib, ds);
      var t1 := ThroughAll(lib, ds[1..]);
      if Through(lib, ds[0]).Some? {
        assert t[0] == Through(lib, ds[0]).value && t[1..] == t1;
        if t == ds {
          assert t1 == ds[1..];
        }
        if Carried(lib, ds[0]) && t1 == ds[1..] {
          assert t == [ds[0]] + ds[1..];
        }
      } else {
        assert t == t1;
      }
      assert (forall i :: 0 <= i < |ds| ==> Carried(lib, ds[i])) <==>
             Carried(lib, ds[0]) && forall i :: 0 <= i < |ds[1..]| ==> Carried(lib, ds[1..][i]) by {
        forall i | 0 <= i < |ds| ensures ds[i] == if i == 0 then ds[0] else ds[1..][i - 1] {}
      }
    }
  }

  /** The bytes an item consists of, when a message carries it. */
  ghost function RawOf(d: Data): seq<byte> {
    match d
    case Text(s) => s
    case Rtf(s) => s
    case Html(s) => s
    case Picture(Rgba(_, _, pixels)) => pixels
    case Picture(Png(png)) => png
    case Picture(Svg(s)) => s
    case Special(_, data) => data
    case _ => []
  }

  /** What a message says of its item: the format is the item's kind, and the content is
      compressed exactly when that makes it shorter; PNG data never is. */
  lemma MessageOf(lib: Library, d: Data)
    ensures ToProto(lib, d).None? <==> d.FileUrl? || d.Unsupported? || d.Nothing?
    ensures ToProto(lib, d).Some? ==>
              var c := ToProto(lib, d).value;
              && (c.format == FText <==> d.Text?) && (c.format == FRtf <==> d.Rtf?) && (c.format == FHtml <==> d.Html?)
              && (c.format == FImageRgba <==> d.Picture? && d.image.Rgba?)
              && (c.format == FImagePng <==> d.Picture? && d.image.Png?)
              && (c.format == FImageSvg <==> d.Picture? && d.image.Svg?)
              && (c.format == FSpecial <==> d.Special?) && (d.Special? ==> c.specialName == d.name)
              && (c.compress <==> c.format != FImagePng && |lib.compress(RawOf(d))| < |RawOf(d)|)
              && (c.compress ==> c.content == lib.compress(RawOf(d)))
              && (!c.compress && !d.Special? ==> c.content == RawOf(d))
              && (d.Picture? && d.image.Rgba? && d.image.width < TWO31 && d.image.height < TWO31 ==>
                    c.width == d.image.width && c.height == d.image.height)
  {}

  /** What any message is read as, also one of another program: the kind its format says, of
      the decompressed content; text that is not UTF-8 is no item, and no SVG is an empty one. */
  lemma ReadingOf(lib: Library, c: Clipboard)
    requires ValidClipboard(c)
    ensures var raw := if c.compress then lib.decompress(c.content) else c.content;
            var d := FromProto(lib, c);
            && (c.format == FText ==> d == if lib.isUtf8(raw) then Some(Text(raw)) else None)
            && (c.format == FRtf ==> d == if lib.isUtf8(raw) then Some(Rtf(raw)) else None)
            && (c.format == FHtml ==> d == if lib.isUtf8(raw) then Some(Html(raw)) else None)
            && (c.format == FImagePng ==> d == Some(Picture(Png(raw))))
            && (c.format == FImageSvg ==> d == Some(Picture(Svg(if lib.isUtf8(raw) then raw else []))))
            && (c.format == FImageRgba && c.width >= 0 && c.height >= 0 ==>
                  d == Some(Picture(Rgba(c.width, c.height, raw))))
            && (c.format == FSpecial ==> d == Some(Special(c.specialName, raw)))
            && (c.format == FUnknown ==> d == None)
  {}

  /** A special item that does not compress arrives as its own name. */
  lemma IncompressibleSpecial(lib: Library, name: Utf8, data: seq<byte>)
    requires |lib.compress(data)| >= |data|
    ensures Through(lib, Special(name, data)) == Some(Special(name, name))
  {}
}
