/** What the file-name parser answers by the bytes a name carries: plain configurations,
    signed ones and anything else.  The results of NameRoundTrip.dfy, without the parser's
    own reading of a text. */
module SignedNames {
  import opened Common
  import opened Text
  import opened Base64Url
  import opened CustomServer
  import opened NameRoundTrip

  /** The text that carries `data`. */
  function TokenOf(data: seq<byte>): string {
    Reverse(Encode(data))
  }

  /** The bytes are the configuration `lic`: as they stand, or, if they are none, as a signed
      message whose content is. */
  ghost predicate ReadsAs(lib: Library, data: seq<byte>, lic: Server) {
    || lib.fromJson(data) == Some(lic)
    || (lib.fromJson(data) == None && exists m :: lib.verify(data) == Some(m) && lib.fromJson(m) == Some(lic))
  }

  /** The text `t` carries bytes that are the configuration `lic`. */
  ghost predicate Carries(lib: Library, t: string, lic: Server) {
    exists data :: t == TokenOf(data) && ReadsAs(lib, data, lic)
  }

  ghost predicate CarriesNothing(lib: Library, t: string) {
    forall lic :: !Carries(lib, t, lic)
  }

  lemma TokenDecodes(data: seq<byte>)
    ensures Decode(Reverse(TokenOf(data))) == Some(data)
  {
    ReverseTwice(Encode(data));
    DecodeEncode(data);
  }

  /** A text that decodes is the text of the bytes it decodes to, and of no others. */
  lemma TokenIsUnique(t: string, data: seq<byte>)
    ensures Decode(Reverse(t)) == Some(data) <==> t == TokenOf(data)
  {
    TokenDecodes(data);
    if Decode(Reverse(t)) == Some(data) {
      EncodeDecode(Reverse(t), data);
      ReverseTwice(t);
    }
  }

  lemma TextCarriesIff(lib: Library, t: string, lic: Server)
    ensures FromConfigString(lib, t) == Some(lic) <==> Carries(lib, t, lic)
  {
    var d := Decode(Reverse(t));
    if d.Some? {
      TokenIsUnique(t, d.value);
    }
    if Carries(lib, t, lic) {
      var data :| t == TokenOf(data) && ReadsAs(lib, data, lic);
      TokenDecodes(data);
    }
  }

  lemma TokenCarriesIff(lib: Library, data: seq<byte>, lic: Server)
    ensures FromConfigString(lib, TokenOf(data)) == Some(lic) <==> ReadsAs(lib, data, lic)
  {
    TextCarriesIff(lib, TokenOf(data), lic);
    TokenDecodes(data);
    if Carries(lib, TokenOf(data), lic) {
      var d :| TokenOf(data) == TokenOf(d) && ReadsAs(lib, d, lic);
      TokenDecodes(d);
    }
  }

  lemma TextCarriesNothingIff(lib: Library, t: string)
    ensures FromConfigString(lib, t) == None <==> CarriesNothing(lib, t)
  {
    forall lic ensures FromConfigString(lib, t) == Some(lic) <==> Carries(lib, t, lic) {
      TextCarriesIff(lib, t, lic);
    }
    if FromConfigString(lib, t).Some? {
      assert Carries(lib, t, FromConfigString(lib, t).value);
    }
  }

  /** Bytes that end in a closing brace, as configurations do and signed messages that have
      one behind the signature, are carried by a text with no separator in front. */
  lemma TokenOfIsFramed(data: seq<byte>)
    requires |data| >= 2 && data[|data| - 1] == '}' as int
    ensures Framed(TokenOf(data))
  {
    EncodeLast(data);
    EncodeLength(data);
    DigitsOfChars(EncodeDigits(data));
  }

  /** For every name with a text the parser cannot cut: the answer is the configuration that
      its bytes are, plain or signed, and none if they are none. */
  lemma NameAnswersIff(lib: Library, data: seq<byte>, lic: Server, prefix: string, sep: string,
                       blanks: string, rest: string, ext: string)
    requires Fits(TokenOf(data), blanks, rest) && Uncut(TokenOf(data))
    requires PlainPrefix(prefix) && SilentAhead(lib, prefix, sep) && Separates(prefix, sep)
    requires IsSeparator(sep) && IsExtension(ext) && PlainTail(rest) && SilentTail(lib, rest)
    ensures ParseName(lib, Stem(prefix, sep, TokenOf(data), blanks, rest) + ext) == Some(lic)
       <==> ReadsAs(lib, data, lic)
  {
    GluedForms(prefix, sep);
    NothingStuck(TokenOf(data));
    NameYields(lib, TokenOf(data), prefix, sep, blanks, rest, ext);
    TokenCarriesIff(lib, data, lic);
  }

  /** A signed configuration reads back: bytes that are no configuration themselves, but open
      as a signed message that is, give that configuration, whatever follows the text. */
  lemma SignedNameReadsBack(lib: Library, data: seq<byte>, message: seq<byte>, lic: Server, prefix: string, sep: string,
                            blanks: string, rest: string, ext: string)
    requires lib.fromJson(data) == None && lib.verify(data) == Some(message) && lib.fromJson(message) == Some(lic)
    requires Fits(TokenOf(data), blanks, rest) && Uncut(TokenOf(data))
    requires PlainPrefix(prefix) && SilentAhead(lib, prefix, sep) && Separates(prefix, sep)
    requires IsSeparator(sep) && IsExtension(ext) && PlainTail(rest)
    ensures ParseName(lib, Stem(prefix, sep, TokenOf(data), blanks, rest) + ext) == Some(lic)
  {
    GluedForms(prefix, sep);
    NothingStuck(TokenOf(data));
    TextCarriesIff(lib, TokenOf(data), lic);
    NameYields(lib, TokenOf(data), prefix, sep, blanks, rest, ext);
  }

  /** Bytes that are no configuration, and do not open as a signed message that is one, give
      none. */
  lemma UnreadableNameIsLost(lib: Library, data: seq<byte>, prefix: string, sep: string,
                             blanks: string, rest: string, ext: string)
    requires lib.fromJson(data) == None
    requires lib.verify(data).Some? ==> lib.fromJson(lib.verify(data).value) == None
    requires Fits(TokenOf(data), blanks, rest) && Uncut(TokenOf(data))
    requires PlainPrefix(prefix) && SilentAhead(lib, prefix, sep) && Separates(prefix, sep)
    requires IsSeparator(sep) && IsExtension(ext) && PlainTail(rest) && SilentTail(lib, rest)
    ensures ParseName(lib, Stem(prefix, sep, TokenOf(data), blanks, rest) + ext) == None
  {
    forall lic ensures ParseName(lib, Stem(prefix, sep, TokenOf(data), blanks, rest) + ext) != Some(lic) {
      NameAnswersIff(lib, data, lic, prefix, sep, blanks, rest, ext);
    }
  }

  // ----- texts that are cut -----

  /** Piece `j` is the first that carries a configuration, and carries `lic`. */
  ghost predicate FirstCarries(lib: Library, pieces: seq<string>, j: nat, lic: Server) {
    j < |pieces| && Carries(lib, pieces[j], lic) && forall i :: 0 <= i < j ==> CarriesNothing(lib, pieces[i])
  }

  lemma {:induction false} FirstPieceIff(lib: Library, pieces: seq<string>, lic: Server)
    requires forall i :: 0 <= i < |pieces| ==> AllDigits(pieces[i])
    ensures FirstPiece(lib, pieces) == Some(lic) <==> exists j: nat :: FirstCarries(lib, pieces, j, lic)
  {
    if pieces != [] {
      var first, more := pieces[0], pieces[1..];
      TextYields(lib, first);
      TextCarriesIff(lib, first, lic);
      TextCarriesNothingIff(lib, first);
      FirstPieceIff(lib, more, lic);
      FirstCarriesTail(lib, pieces, lic);
    }
  }

  lemma FirstCarriesTail(lib: Library, pieces: seq<string>, lic: Server)
    requires pieces != []
    ensures (exists j: nat :: FirstCarries(lib, pieces, j, lic))
       <==> Carries(lib, pieces[0], lic)
            || (CarriesNothing(lib, pieces[0]) && exists j: nat :: FirstCarries(lib, pieces[1..], j, lic))
  {
    var more := pieces[1..];
    if j: nat :| FirstCarries(lib, pieces, j, lic) {
      if j > 0 {
        assert forall i :: 0 <= i < j - 1 ==> more[i] == pieces[i + 1];
        assert FirstCarries(lib, more, j - 1, lic);
      }
    }
    if Carries(lib, pieces[0], lic) {
      assert FirstCarries(lib, pieces, 0, lic);
    } else if CarriesNothing(lib, pieces[0]) {
      if j: nat :| FirstCarries(lib, more, j, lic) {
        assert forall i :: 1 <= i < j + 1 ==> pieces[i] == more[i - 1];
        assert FirstCarries(lib, pieces, j + 1, lic);
      }
    }
  }

  /** For every text, cut or not, and every prefix and separator: the answer is what the first
      of its pieces to carry a configuration carries. */
  lemma AnyTextAnswersIff(lib: Library, token: string, lic: Server, prefix: string, sep: string,
                          blanks: string, rest: string, ext: string)
    requires Fits(token, blanks, rest) && PlainPrefix(prefix) && SilentAhead(lib, prefix, sep)
    requires IsSeparator(sep) && IsExtension(ext) && PlainTail(rest) && SilentTail(lib, rest)
    ensures var pieces := Split(Glued(prefix, sep) + Normalise(token), "--");
            ParseName(lib, Stem(prefix, sep, token, blanks, rest) + ext) == Some(lic) <==>
            exists j: nat :: FirstCarries(lib, pieces, j, lic)
  {
    PiecesYield(lib, token, prefix, sep, blanks, rest, ext);
    NormaliseStem(prefix, sep, token, blanks, rest);
    var u := Glued(prefix, sep) + Normalise(token);
    GluedIsText(prefix, sep, Normalise(token), blanks + Normalise(rest));
    forall i | 0 <= i < |Split(u, "--")| ensures AllDigits(Split(u, "--")[i]) {
      PieceDigits(u, i);
    }
    FirstPieceIff(lib, Split(u, "--"), lic);
  }

  /** A part of the text, other than the whole, with or without the remains of a separator in
      front, carries `lic`. */
  ghost predicate PartCarries(lib: Library, token: string, lic: Server) {
    exists h, y :: IsPart(token, h, y) && Carries(lib, h + y, lic)
  }

  ghost predicate IsPart(token: string, h: string, y: string) {
    IsGlue(h) && Contains(token, y) && h + y != token
  }

  /** What a signed text that is cut yields: never what the whole says, but what another part
      of it carries, if any does. */
  lemma CutTextAnswers(lib: Library, token: string, lic: Server, prefix: string, sep: string,
                       blanks: string, rest: string, ext: string)
    requires Fits(token, blanks, rest) && !Uncut(token) && PlainPrefix(prefix) && SilentAhead(lib, prefix, sep)
    requires IsSeparator(sep) && IsExtension(ext) && PlainTail(rest) && SilentTail(lib, rest)
    ensures ParseName(lib, Stem(prefix, sep, token, blanks, rest) + ext) == Some(lic) ==> PartCarries(lib, token, lic)
  {
    PiecesYield(lib, token, prefix, sep, blanks, rest, ext);
    NormaliseStem(prefix, sep, token, blanks, rest);
    GluedForms(prefix, sep);
    if FirstPiece(lib, Split(Glued(prefix, sep) + Normalise(token), "--")) == Some(lic) {
      var h, y := CutTokenYields(lib, token, Glued(prefix, sep));
      TextCarriesIff(lib, h + y, lic);
      assert IsPart(token, h, y);
    }
  }

  // ----- blanks around a text -----

  lemma BlanksAreFree(before: string, t: string, after: string, p: string)
    requires AllSpace(before) && AllSpace(after) && FreeBefore(t, p, |t|)
    requires |p| > 0 && forall k :: 0 <= k < |p| ==> !IsSpace(p[k])
    ensures var s := before + (t + after); FreeBefore(s, p, |s|)
  {
    var s := before + (t + after);
    forall i | 0 <= i < |s| ensures !At(s, p, i) {
      AtChar(s, p, i, 0);
      if i < |before| {
        assert s[i] == before[i];
      } else {
        AtSuffix(before, t + after, p, i);
        var k := i - |before|;
        if k + |p| <= |t| {
          AtWithin(t, after, p, k);
        } else if k < |t| {
          AtChar(t + after, p, k, |t| - k);
          assert |t| < |t + after| ==> (t + after)[|t|] == after[0];
        } else {
          assert s[i] == after[k - |t|];
        }
      }
    }
  }

  lemma BlankName(before: string, t: string, after: string)
    requires AllSpace(before) && AllSpace(after) && t != [] && AllDigits(t)
    ensures var s := before + (t + after); !EndsWith(Lower(s), ".exe") && !Contains(Lower(s), "host=")
  {
    var s := before + (t + after);
    forall i | 0 <= i < |s| ensures s[i] != '.' && s[i] != '=' {
      if |before| <= i < |before| + |t| {
        assert s[i] == t[i - |before|];
      } else if i < |before| {
        assert s[i] == before[i];
      } else {
        assert s[i] == after[i - |before| - |t|];
      }
    }
    LowerLacks(s, '.');
    LowerLacks(s, '=');
    var l := Lower(s);
    forall i | 0 <= i <= |l| ensures !At(l, "host=", i) {
      AtChar(l, "host=", i, 4);
    }
    EndsIn(l);
  }

  lemma EndsIn(l: string)
    ensures EndsWith(l, ".exe") ==> |l| >= 4 && l[|l| - 4] == '.'
  {
    if EndsWith(l, ".exe") {
      assert l[|l| - 4..][0] == l[|l| - 4];
      assert ".exe"[0] == '.';
    }
  }

  lemma BlankNameIsOnePiece(lib: Library, before: string, t: string, after: string)
    requires AllSpace(before) && AllSpace(after) && t != [] && AllDigits(t) && Uncut(t)
    ensures var s := before + (t + after); ParseName(lib, s + ".exe") == FromPiece(lib, s)
  {
    var s := before + (t + after);
    assert Lower(".exe") == ".exe";
    BlankName(before, t, after);
    StripsExtension(s, ".exe");
    BlanksAreFree(before, t, after, LICENSED);
    BlanksAreFree(before, t, after, "--");
    NormaliseNothing(s);
    SplitWhole(s);
    OneFirstPiece(lib, s);
  }

  lemma BlankPiece(lib: Library, before: string, t: string, after: string)
    requires AllSpace(before) && AllSpace(after) && t != [] && AllDigits(t)
    ensures FromPiece(lib, before + (t + after)) == FromConfigString(lib, t)
  {
    assert IsDigit(t[0]) && IsDigit(t[|t| - 1]);
    TrimBoth(before, t, after);
    assert '(' !in before + (t + after);
  }

  /** White space around a text that is the whole name does not matter. */
  lemma BlanksDoNotMatter(lib: Library, before: string, data: seq<byte>, after: string, lic: Server)
    requires AllSpace(before) && AllSpace(after) && data != [] && Uncut(TokenOf(data))
    ensures ParseName(lib, (before + (TokenOf(data) + after)) + ".exe") == Some(lic) <==> ReadsAs(lib, data, lic)
  {
    var t := TokenOf(data);
    EncodeLength(data);
    DigitsOfChars(EncodeDigits(data));
    BlankNameIsOnePiece(lib, before, t, after);
    BlankPiece(lib, before, t, after);
    TokenCarriesIff(lib, data, lic);
  }

  // ----- names with some of the fields -----

  /** Part `i` is the last that starts with `name`, in any letter case. */
  ghost predicate IsLastField(parts: seq<string>, name: string, i: nat) {
    && i < |parts| && name <= Lower(parts[i])
    && forall j :: i < j < |parts| ==> !(name <= Lower(parts[j]))
  }

  /** A field is the text after its name in the last part that starts with the name ... */
  lemma {:induction false} FieldByPlace(parts: seq<string>, name: string, i: nat)
    requires IsLastField(parts, name, i)
    ensures LastField(parts, name) == parts[i][|name|..]
  {
    if i < |parts| - 1 {
      assert !(name <= Lower(parts[|parts| - 1]));
      FieldByPlace(parts[..|parts| - 1], name, i);
    }
  }

  /** ... and empty if there is none. */
  lemma {:induction false} FieldMissing(parts: seq<string>, name: string)
    requires forall i :: 0 <= i < |parts| ==> !(name <= Lower(parts[i]))
    ensures LastField(parts, name) == ""
  {
    if parts != [] {
      FieldMissing(parts[..|parts| - 1], name);
    }
  }

  /** A name with a host and nothing else gives that host and empty key, api and relay. */
  lemma HostAlone(lib: Library, prefix: string, host: string, ext: string)
    requires !Contains(Lower(prefix), "host=") && NoComma(host) && IsExtension(ext)
    requires !EndsWith(Lower(prefix + ("host=" + host)), ".exe")
    ensures ParseName(lib, (prefix + ("host=" + host)) + ext) == Some(Server("", host, "", ""))
  {
    var f := "host=" + host;
    var x := prefix + f;
    StripsExtension(x, ext);
    HostIsFirst(prefix, f);
    assert x[|prefix|..] == f;
    HostIsOnePart(host);
    HostField(host);
  }

  lemma HostIsOnePart(host: string)
    requires NoComma(host)
    ensures Split("host=" + host, ",") == ["host=" + host]
  {
    var f := "host=" + host;
    forall i | 0 <= i < |f| ensures !At(f, ",", i) {
      AtChar(f, ",", i, 0);
      assert i >= 5 ==> f[i] == host[i - 5];
    }
    assert f + "" == f;
    SplitSkip(f, "", ",");
  }

  lemma HostField(host: string)
    ensures FromParts(["host=" + host]) == Server("", host, "", "")
  {
    var f := "host=" + host;
    HostPart(host);
    FieldByPlace([f], "host=", 0);
    FieldMissing([f], "key=");
    FieldMissing([f], "api=");
    FieldMissing([f], "relay=");
    assert f[5..] == host;
  }

  lemma HostPart(host: string)
    ensures var l := Lower("host=" + host);
            "host=" <= l && !("key=" <= l) && !("api=" <= l) && !("relay=" <= l)
  {
    FieldOf("host=", host, "host=");
    FieldOf("host=", host, "key=");
    FieldOf("host=", host, "api=");
    FieldOf("host=", host, "relay=");
  }
}
