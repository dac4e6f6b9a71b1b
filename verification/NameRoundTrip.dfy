/** When the file-name parser recovers the configuration the printer put into the name. */
module NameRoundTrip {
  import opened Common
  import opened Text
  import opened Base64Url
  import opened CustomServer

  // ----- tokens the parser cannot cut -----

  /** A text of the alphabet that forms no separator together with what is in front of it. */
  predicate Framed(t: string) {
    && |t| >= 2 && AllDigits(t)
    && t[0] != '-' && t[0] != 'l'
  }

  /** Nor with a dash behind it. */
  predicate EndsClosed(t: string) {
    t != [] && t[|t| - 1] != '-' && t[|t| - 1] != 'd'
  }

  /** Nor with `z` behind it: any text may be followed by nothing, by white space or by a
      parenthesis. */
  predicate Ends(t: string, z: string) {
    z == "" || z[0] != '-' || EndsClosed(t)
  }

  /** No separator of the parser occurs in `t`. */
  ghost predicate Uncut(t: string) {
    FreeBefore(t, "--", |t|) && FreeBefore(t, LICENSED, |t|)
  }

  /** A printed configuration the parser cannot cut. */
  ghost predicate SafeToken(t: string) {
    Framed(t) && Uncut(t)
  }

  /** Every printed configuration is framed, whatever characters it holds. */
  lemma TokenIsFramed(lib: Library, lic: Server)
    requires Faithful(lib, lic)
    ensures Framed(GenName(lib, lic)) && EndsClosed(GenName(lib, lic))
  {
    var b := lib.toJson(lic);
    EncodeFirst(b);
    EncodeLast(b);
    EncodeLength(b);
    DigitsOfChars(EncodeDigits(b));
  }

  /** The reversed text of ASCII bytes contains neither "--" nor "-licensed-": its dashes
      stand a multiple of four apart. */
  lemma AsciiTextHasNoSeparator(b: seq<byte>)
    requires Ascii(b)
    ensures FreeBefore(Reverse(Encode(b)), "--", |Encode(b)|)
    ensures FreeBefore(Reverse(Encode(b)), LICENSED, |Encode(b)|)
  {
    var e := Encode(b);
    forall i | 0 <= i < |e| ensures !At(Reverse(e), "--", i) && !At(Reverse(e), LICENSED, i) {
      NoDashesApart(b, i, "--", 1);
      NoDashesApart(b, i, LICENSED, 9);
    }
  }

  /** A pattern with dashes at 0 and at `k`, not a multiple of four, does not occur. */
  lemma NoDashesApart(b: seq<byte>, i: nat, p: string, k: nat)
    requires Ascii(b) && k < |p| && p[0] == '-' && p[k] == '-' && k % 4 != 0
    ensures !At(Reverse(Encode(b)), p, i)
  {
    var e := Encode(b);
    var t := Reverse(e);
    AtChar(t, p, i, 0);
    AtChar(t, p, i, k);
    if i + k < |e| {
      var x := |e| - 1 - i;
      if e[x] == '-' { AsciiDashes(b, x); }
      if e[x - k] == '-' { AsciiDashes(b, x - k); }
      DifferenceOfThrees(x, k);
    }
  }

  lemma DifferenceOfThrees(x: nat, k: nat)
    requires k <= x
    ensures x % 4 == 3 && (x - k) % 4 == 3 ==> k % 4 == 0
  {}

  /** No configuration whose JSON is ASCII prints as text the parser could cut. */
  lemma AsciiTokenIsSafe(lib: Library, lic: Server)
    requires Faithful(lib, lic) && Ascii(lib.toJson(lic))
    ensures SafeToken(GenName(lib, lic))
  {
    TokenIsFramed(lib, lic);
    AsciiTextHasNoSeparator(lib.toJson(lic));
  }

  lemma TokenReadsBack(lib: Library, lic: Server)
    requires Faithful(lib, lic)
    ensures FromConfigString(lib, GenName(lib, lic)) == Some(lic)
  {
    ReverseTwice(Encode(lib.toJson(lic)));
    DecodeEncode(lib.toJson(lic));
  }

  // ----- what may surround the token -----

  predicate IsSeparator(sep: string) {
    sep == "--" || sep == LICENSED || sep == LICENSED2 || sep == LICENSED3
  }

  predicate IsReplaced(p: string) {
    p == LICENSED || p == LICENSED2 || p == LICENSED3
  }

  /** The dashes `prefix` ends in are even in number. */
  predicate Pairs(prefix: string) {
    TrailingDashes(prefix) % 2 == 0
  }

  /** What may follow the token and some blanks: nothing, a parenthesis such as the
      " (1)" of a second download, or a further separator. */
  predicate TailRest(rest: string) {
    rest == "" || rest[0] == '(' || "--" <= rest
  }

  /** A token with what may follow it. */
  predicate Fits(token: string, blanks: string, rest: string) {
    Framed(token) && AllSpace(blanks) && TailRest(rest) && Ends(token, blanks + rest)
  }

  predicate IsExtension(ext: string) {
    ext == "" || Lower(ext) == ".exe" || Lower(ext) == ".exe.exe"
  }

  // ----- replacing -----

  lemma AtShorter(s: string, p: string, i: nat)
    requires IsReplaced(p)
    ensures At(s, p, i) ==> At(s, LICENSED, i)
  {
    assert p[..10] == LICENSED;
    if At(s, p, i) {
      assert s[i..i + 10] == s[i..i + |p|][..10];
    }
  }

  lemma AtEnd(a: string, y: string)
    requires |a| >= 9
    ensures At(a + y, LICENSED, |a| - 9) ==> EndsWith(a, "-licensed")
  {
    var i := |a| - 9;
    var s := a + y;
    assert LICENSED[..9] == "-licensed";
    if At(s, LICENSED, i) {
      assert a[i..] == s[i..i + 10][..9];
    }
  }

  lemma FreeOfLonger(s: string, p: string, n: nat)
    requires IsReplaced(p) && FreeBefore(s, LICENSED, n)
    ensures FreeBefore(s, p, n)
  {
    forall i | 0 <= i < n ensures !At(s, p, i) {
      AtShorter(s, p, i);
    }
  }

  /** Neither dash of a separator starts an occurrence of "-licensed-" when the text
      after it starts with neither 'l' nor a dash. */
  lemma ReplacePastDashes(w: string, p: string)
    requires IsReplaced(p)
    requires w != [] && w[0] != '-' && w[0] != 'l'
    ensures Replace("--" + w, p, "--") == "--" + Replace(w, p, "--")
  {
    var s := "--" + w;
    forall i | 0 <= i < 2 ensures !At(s, p, i) {
      AtChar(s, p, i, 1);
    }
    ReplaceSkip("--", w, p, "--");
  }

  /** A replacement leaves a shorter separator alone. */
  lemma ReplacePastShorter(d: string, w: string, p: string)
    requires (d == LICENSED && (p == LICENSED2 || p == LICENSED3)) || (d == LICENSED2 && p == LICENSED3)
    requires w != [] && w[0] != '-' && w[0] != 'l'
    ensures Replace(d + w, p, "--") == d + Replace(w, p, "--")
  {
    var s := d + w;
    assert p[|d|] == '-' && s[|d|] == w[0];
    AtChar(s, p, 0, |d|);
    forall i | 1 <= i < |d| ensures !At(s, p, i) {
      AtChar(s, p, i, 0);
      AtChar(s, p, i, 1);
    }
    ReplaceSkip(d, w, p, "--");
  }

  /** The separator in front of the token becomes "--" in the end. */
  lemma ReplaceSeparator(sep: string, w: string, p: string)
    requires IsReplaced(p) && IsSeparator(sep)
    requires |p| >= |sep| || sep == "--"
    requires w != [] && w[0] != '-' && w[0] != 'l'
    ensures Replace(sep + w, p, "--") == (if sep == p then "--" else sep) + Replace(w, p, "--")
  {
    if sep == "--" {
      ReplacePastDashes(w, p);
    } else if sep == p {
      ReplaceHit(w, p, "--");
    } else {
      ReplacePastShorter(sep, w, p);
    }
  }

  lemma ReplaceBlanks(blanks: string, rest: string, p: string)
    requires |p| > 0 && !IsSpace(p[0]) && AllSpace(blanks)
    ensures Replace(blanks + rest, p, "--") == blanks + Replace(rest, p, "--")
  {
    var s := blanks + rest;
    forall i | 0 <= i < |blanks| ensures !At(s, p, i) {
      AtChar(s, p, i, 0);
      assert s[i] == blanks[i];
    }
    ReplaceSkip(blanks, rest, p, "--");
  }

  lemma ReplaceTail(rest: string, p: string)
    requires IsReplaced(p) && TailRest(rest)
    ensures TailRest(Replace(rest, p, "--"))
  {
    if rest != "" {
      AtChar(rest, p, 0, 0);
      AtChar(rest, p, 0, 1);
      ReplaceMiss(rest, p, "--");
      if rest[0] != '(' {
        var s := rest[1..];
        assert s[0] == '-';
        if !At(s, p, 0) {
          ReplaceMiss(s, p, "--");
        }
        assert Replace(s, p, "--")[0] == '-';
      }
    }
  }

  // ----- the whole name -----

  lemma SplitWhole(t: string)
    requires FreeBefore(t, "--", |t|)
    ensures Split(t, "--") == [t]
  {
    assert t + "" == t;
    SplitSkip(t, "", "--");
  }

  lemma ReplaceNothing(s: string, p: string)
    requires IsReplaced(p) && FreeBefore(s, p, |s|)
    ensures Replace(s, p, "--") == s
  {
    assert s + "" == s;
    ReplaceSkip(s, "", p, "--");
  }

  lemma NormaliseNothing(t: string)
    requires FreeBefore(t, LICENSED, |t|)
    ensures Normalise(t) == t
  {
    FreeOfLonger(t, LICENSED3, |t|);
    FreeOfLonger(t, LICENSED2, |t|);
    ReplaceNothing(t, LICENSED3);
    ReplaceNothing(t, LICENSED2);
    ReplaceNothing(t, LICENSED);
  }

  /** What the theorem asks of the text in front of the separator: the parser must not act
      on it before it reaches the separator. */
  ghost predicate PlainPrefix(prefix: string) {
    !Contains(Lower(prefix), "host=") && FreeBefore(prefix, LICENSED, |prefix|)
  }

  ghost predicate NoneParses(lib: Library, pieces: seq<string>) {
    forall i :: 0 <= i < |pieces| ==> FromPiece(lib, pieces[i]) == None
  }

  ghost predicate PlainTail(rest: string) {
    && TailRest(rest)
    && !Contains(Lower(rest), "host=")
    && !EndsWith(Lower(rest), ".exe")
  }

  /** The name without its extension. */
  function Stem(prefix: string, sep: string, token: string, blanks: string, rest: string): string {
    prefix + (sep + (token + (blanks + rest)))
  }

  /** `prefix` ends in the beginning of a separator. */
  predicate EndsLicensed(prefix: string) {
    EndsWith(prefix, "-licensed")
  }

  /** `prefix` without a final "-licensed". */
  function Bare(prefix: string): string {
    if EndsLicensed(prefix) then prefix[..|prefix| - 9] else prefix
  }

  lemma LicensedAgain(p: string)
    ensures EndsLicensed(p) ==> At(p + "-licensed", LICENSED, |p| - 9)
  {
    if EndsLicensed(p) {
      assert (p + "-licensed")[|p| - 9..|p| + 1] == p[|p| - 9..] + "-";
    }
  }

  lemma BareIsPlain(prefix: string)
    requires FreeBefore(prefix, LICENSED, |prefix|) && EndsLicensed(prefix)
    ensures prefix == Bare(prefix) + "-licensed"
    ensures FreeBefore(Bare(prefix), LICENSED, |Bare(prefix)|) && !EndsLicensed(Bare(prefix))
  {
    var p := Bare(prefix);
    assert prefix == p + prefix[|p|..];
    forall i | 0 <= i < |p| ensures !At(p, LICENSED, i) {
      if i + 10 <= |p| {
        AtWithin(p, "-licensed", LICENSED, i);
      }
    }
    LicensedAgain(p);
  }

  /** No replacement begins inside the prefix; not even in a final "-licensed", when it is
      a replacement of one of the two longer separators and no second dash follows. */
  lemma ReplacePastPrefix(prefix: string, y: string, p: string)
    requires IsReplaced(p) && FreeBefore(prefix, LICENSED, |prefix|)
    requires |y| >= 2 && y[0] == '-'
    requires EndsLicensed(prefix) ==> p != LICENSED && y[1] != '-'
    ensures Replace(prefix + y, p, "--") == prefix + Replace(y, p, "--")
  {
    var s := prefix + y;
    assert LICENSED == ['-', 'l', 'i', 'c', 'e', 'n', 's', 'e', 'd', '-'];
    forall i | 0 <= i < |prefix| ensures !At(s, p, i) {
      var k := |prefix| - i;
      AtShorter(s, p, i);
      if k >= 10 {
        AtWithin(prefix, y, LICENSED, i);
      } else if k < 9 {
        AtChar(s, LICENSED, i, k);
      } else {
        AtEnd(prefix, y);
        if p != LICENSED {
          AtChar(s, p, i, 10);
        }
      }
    }
    ReplaceSkip(prefix, y, p, "--");
  }

  lemma {:induction false} ReplaceDigits(s: string, p: string)
    requires |p| > 0 && AllDigits(s)
    ensures AllDigits(Replace(s, p, "--"))
    decreases |s|
  {
    if s != [] {
      if At(s, p, 0) {
        ReplaceDigits(s[|p|..], p);
      } else {
        ReplaceMiss(s, p, "--");
        ReplaceDigits(s[1..], p);
      }
    }
  }

  /** A replacement keeps the first character of a token ... */
  lemma ReplaceFramed(token: string, p: string)
    requires Framed(token) && IsReplaced(p)
    ensures Framed(Replace(token, p, "--"))
  {
    AtChar(token, p, 0, 0);
    ReplaceMiss(token, p, "--");
    ReplaceDigits(token, p);
  }

  /** ... and a last one that closes it. */
  lemma ReplaceClosed(token: string, p: string)
    requires EndsClosed(token) && IsReplaced(p)
    ensures EndsClosed(Replace(token, p, "--"))
  {
    var n := |token| - 1;
    var a, c := token[..n], [token[n]];
    assert token == a + c;
    forall i | 0 <= i < n && At(token, p, i) ensures i + |p| <= n {
      AtChar(token, p, i, |p| - 1);
    }
    ReplaceConcat(a, c, p, "--");
  }

  lemma ReplaceFits(token: string, blanks: string, rest: string, p: string)
    requires Fits(token, blanks, rest) && IsReplaced(p)
    ensures Fits(Replace(token, p, "--"), blanks, Replace(rest, p, "--"))
  {
    ReplaceFramed(token, p);
    ReplaceTail(rest, p);
    if blanks + rest != "" && (blanks + rest)[0] == '-' {
      ReplaceClosed(token, p);
    } else {
      ReplacedStart(blanks, rest, p);
    }
  }

  lemma ReplacedStart(blanks: string, rest: string, p: string)
    requires AllSpace(blanks) && TailRest(rest) && IsReplaced(p)
    requires blanks + rest == "" || (blanks + rest)[0] != '-'
    ensures var z := blanks + Replace(rest, p, "--"); z == "" || z[0] != '-'
  {
    if blanks == "" && rest != "" {
      assert (blanks + rest)[0] == rest[0];
      AtChar(rest, p, 0, 0);
      ReplaceMiss(rest, p, "--");
    }
  }

  /** No replacement reaches from the token into what follows it. */
  lemma ReplaceAfter(token: string, blanks: string, rest: string, p: string)
    requires Fits(token, blanks, rest) && IsReplaced(p)
    ensures Replace(token + (blanks + rest), p, "--") == Replace(token, p, "--") + (blanks + Replace(rest, p, "--"))
  {
    var z := blanks + rest;
    ReplaceBlanks(blanks, rest, p);
    assert z == "" || z[0] == '-' || z[0] !in LICENSED;
    TokenIsApart(token, z, p);
    ReplaceConcat(token, z, p, "--");
  }

  lemma TokenIsApart(token: string, z: string, p: string)
    requires token != [] && Ends(token, z) && IsReplaced(p)
    requires z == "" || z[0] == '-' || z[0] !in LICENSED
    ensures Apart(token, z, p)
  {
    var s := token + z;
    var n := |token|;
    assert forall k :: 1 <= k < |p| && p[k] == '-' ==> p[k - 1] == 'd' || p[k - 1] == '-';
    forall i | 0 <= i < n && n < i + |p| ensures !At(s, p, i) {
      AtChar(s, p, i, n - i);
      AtChar(s, p, i, n - 1 - i);
      assert p[n - i] in LICENSED;
    }
  }

  /** One replacement leaves everything in place but the separator it is for, and what it
      finds within the token and the tail. */
  lemma ReplaceStage(prefix: string, sep: string, token: string, blanks: string, rest: string, p: string)
    requires FreeBefore(prefix, LICENSED, |prefix|)
    requires EndsLicensed(prefix) ==> p != LICENSED && sep != "--"
    requires IsSeparator(sep) && Fits(token, blanks, rest)
    requires IsReplaced(p) && (|p| >= |sep| || sep == "--")
    ensures Fits(Replace(token, p, "--"), blanks, Replace(rest, p, "--"))
    ensures Replace(Stem(prefix, sep, token, blanks, rest), p, "--")
         == Stem(prefix, if sep == p then "--" else sep, Replace(token, p, "--"), blanks, Replace(rest, p, "--"))
  {
    var w := token + (blanks + rest);
    ReplaceFits(token, blanks, rest, p);
    ReplaceAfter(token, blanks, rest, p);
    assert w[0] == token[0];
    ReplaceSeparator(sep, w, p);
    ReplacePastPrefix(prefix, sep + w, p);
  }

  /** After a bare prefix the separator becomes "--" and nothing else in front of the token
      changes. */
  lemma NormaliseBare(prefix: string, sep: string, token: string, blanks: string, rest: string)
    requires FreeBefore(prefix, LICENSED, |prefix|) && !EndsLicensed(prefix)
    requires IsSeparator(sep) && Fits(token, blanks, rest)
    ensures Fits(Normalise(token), blanks, Normalise(rest))
    ensures Normalise(Stem(prefix, sep, token, blanks, rest))
         == Stem(prefix, "--", Normalise(token), blanks, Normalise(rest))
  {
    ReplaceStage(prefix, sep, token, blanks, rest, LICENSED3);
    var sep1 := if sep == LICENSED3 then "--" else sep;
    var token1, rest1 := Replace(token, LICENSED3, "--"), Replace(rest, LICENSED3, "--");
    ReplaceStage(prefix, sep1, token1, blanks, rest1, LICENSED2);
    var sep2 := if sep1 == LICENSED2 then "--" else sep1;
    ReplaceStage(prefix, sep2, Replace(token1, LICENSED2, "--"), blanks, Replace(rest1, LICENSED2, "--"), LICENSED);
  }

  /** The last replacement takes the first "-licensed-" after a bare prefix and leaves what
      is behind it to the token. */
  lemma LastStage(p: string, g: string, token: string, blanks: string, rest: string)
    requires FreeBefore(p, LICENSED, |p|) && !EndsLicensed(p)
    requires g == "-" || g == "licensed-"
    requires Fits(token, blanks, rest)
    ensures Fits(Replace(token, LICENSED, "--"), blanks, Replace(rest, LICENSED, "--"))
    ensures Replace(p + (LICENSED + (g + (token + (blanks + rest)))), LICENSED, "--")
         == p + ("--" + (g + (Replace(token, LICENSED, "--") + (blanks + Replace(rest, LICENSED, "--")))))
  {
    var w := token + (blanks + rest);
    ReplaceFits(token, blanks, rest, LICENSED);
    ReplaceAfter(token, blanks, rest, LICENSED);
    GlueIsFree(g, w);
    ReplaceSkip(g, w, LICENSED, "--");
    ReplaceHit(g + w, LICENSED, "--");
    ReplacePastPrefix(p, LICENSED + (g + w), LICENSED);
  }

  lemma GlueIsFree(g: string, w: string)
    requires g == "-" || g == "licensed-"
    requires w != [] && w[0] != 'l'
    ensures FreeBefore(g + w, LICENSED, |g|)
  {
    var y := g + w;
    forall i | 0 <= i < |g| ensures !At(y, LICENSED, i) {
      AtChar(y, LICENSED, i, 0);
      AtChar(y, LICENSED, i, 1);
      assert y[|g|] == w[0];
    }
  }

  /** The text in front of the "--" that the parser splits at. */
  function Ahead(prefix: string, sep: string): string {
    if EndsLicensed(prefix) && sep == LICENSED2 then Bare(prefix) + "-" else Bare(prefix)
  }

  /** What the replacements leave between that "--" and the token. */
  function Stuck(prefix: string, sep: string): string {
    if EndsLicensed(prefix) && sep == LICENSED then "licensed-" else ""
  }

  lemma Rejoin(p: string, token: string, blanks: string, rest: string)
    ensures Stem(p + "-licensed", "--", token, blanks, rest) == Stem(p, LICENSED2, token, blanks, rest)
    ensures Stem(p + "-licensed", LICENSED, token, blanks, rest)
         == p + (LICENSED + ("licensed-" + (token + (blanks + rest))))
    ensures Stem(p, LICENSED2, token, blanks, rest) == p + (LICENSED + ("-" + (token + (blanks + rest))))
    ensures p + ("--" + ("-" + (token + (blanks + rest)))) == Stem(p + "-", "--", token, blanks, rest)
    ensures p + ("--" + ("licensed-" + (token + (blanks + rest)))) == Stem(p, "--", "licensed-" + token, blanks, rest)
  {
    assert "-licensed" + "--" == LICENSED2 && LICENSED == "-licensed" + "-" && LICENSED2 == LICENSED + "-";
  }

  /** After "-licensed", a "--" or a "-licensed---" becomes "--" and takes the "-licensed"
      with it. */
  lemma NormaliseLicensedOuter(p: string, sep: string, token: string, blanks: string, rest: string)
    requires FreeBefore(p, LICENSED, |p|) && !EndsLicensed(p)
    requires FreeBefore(p + "-licensed", LICENSED, |p| + 9)
    requires sep == "--" || sep == LICENSED3
    requires Fits(token, blanks, rest)
    ensures Fits(Normalise(token), blanks, Normalise(rest))
    ensures Normalise(Stem(p + "-licensed", sep, token, blanks, rest))
         == Stem(p, "--", Normalise(token), blanks, Normalise(rest))
  {
    if sep == "--" {
      Rejoin(p, token, blanks, rest);
      NormaliseBare(p, LICENSED2, token, blanks, rest);
    } else {
      var token1, rest1 := Replace(token, LICENSED3, "--"), Replace(rest, LICENSED3, "--");
      ReplaceStage(p + "-licensed", LICENSED3, token, blanks, rest, LICENSED3);
      Rejoin(p, token1, blanks, rest1);
      ReplaceStage(p, LICENSED2, token1, blanks, rest1, LICENSED2);
      ReplaceStage(p, "--", Replace(token1, LICENSED2, "--"), blanks, Replace(rest1, LICENSED2, "--"), LICENSED);
    }
  }

  /** The other two are not yet gone when the last replacement finds a "-licensed-" one
      character or nine characters too early. */
  lemma NormaliseLicensedInner(p: string, sep: string, token: string, blanks: string, rest: string)
    requires FreeBefore(p, LICENSED, |p|) && !EndsLicensed(p)
    requires FreeBefore(p + "-licensed", LICENSED, |p| + 9)
    requires sep == LICENSED || sep == LICENSED2
    requires Fits(token, blanks, rest)
    ensures Fits(Normalise(token), blanks, Normalise(rest))
    ensures Normalise(Stem(p + "-licensed", sep, token, blanks, rest))
         == p + ("--" + ((if sep == LICENSED then "licensed-" else "-")
                         + (Normalise(token) + (blanks + Normalise(rest)))))
  {
    var token1, rest1 := Replace(token, LICENSED3, "--"), Replace(rest, LICENSED3, "--");
    var token2, rest2 := Replace(token1, LICENSED2, "--"), Replace(rest1, LICENSED2, "--");
    ReplaceStage(p + "-licensed", sep, token, blanks, rest, LICENSED3);
    ReplaceStage(p + "-licensed", sep, token1, blanks, rest1, LICENSED2);
    Rejoin(p, token2, blanks, rest2);
    LastStage(p, if sep == LICENSED then "licensed-" else "-", token2, blanks, rest2);
  }

  lemma NormaliseStem(prefix: string, sep: string, token: string, blanks: string, rest: string)
    requires FreeBefore(prefix, LICENSED, |prefix|)
    requires IsSeparator(sep) && Fits(token, blanks, rest)
    ensures Fits(Normalise(token), blanks, Normalise(rest))
    ensures Normalise(Stem(prefix, sep, token, blanks, rest))
         == Stem(Ahead(prefix, sep), "--", Stuck(prefix, sep) + Normalise(token), blanks, Normalise(rest))
  {
    if !EndsLicensed(prefix) {
      NormaliseBare(prefix, sep, token, blanks, rest);
      NothingStuck(Normalise(token));
    } else {
      NormaliseLicensed(prefix, sep, token, blanks, rest);
    }
  }

  lemma NothingStuck(t: string)
    ensures "" + t == t
  {}

  lemma NormaliseLicensed(prefix: string, sep: string, token: string, blanks: string, rest: string)
    requires FreeBefore(prefix, LICENSED, |prefix|) && EndsLicensed(prefix)
    requires IsSeparator(sep) && Fits(token, blanks, rest)
    ensures Fits(Normalise(token), blanks, Normalise(rest))
    ensures Normalise(Stem(prefix, sep, token, blanks, rest))
         == Stem(Ahead(prefix, sep), "--", Stuck(prefix, sep) + Normalise(token), blanks, Normalise(rest))
  {
    var p := Bare(prefix);
    BareIsPlain(prefix);
    NothingStuck(Normalise(token));
    if sep == "--" || sep == LICENSED3 {
      NormaliseLicensedOuter(p, sep, token, blanks, rest);
    } else {
      NormaliseLicensedInner(p, sep, token, blanks, rest);
      Rejoin(p, Normalise(token), blanks, Normalise(rest));
    }
  }

  // ----- splitting -----

  /** `s` without the last dash of an odd run. */
  function Paired(s: string): string {
    if Pairs(s) then s else s[..|s| - 1]
  }

  /** What ends up in front of the token in the piece that holds it. */
  function Glued(prefix: string, sep: string): string {
    if Pairs(Ahead(prefix, sep)) then Stuck(prefix, sep) else "-" + Stuck(prefix, sep)
  }

  /** The separator does its work: nothing sticks to the token. */
  predicate Separates(prefix: string, sep: string) {
    if !EndsLicensed(prefix) then Pairs(prefix)
    else if sep == LICENSED then false
    else if sep == LICENSED2 then !Pairs(Bare(prefix))
    else Pairs(Bare(prefix))
  }

  predicate IsGlue(g: string) {
    g == "" || g == "-" || g == "licensed-" || g == "-licensed-"
  }

  lemma GluedForms(prefix: string, sep: string)
    ensures IsGlue(Glued(prefix, sep))
    ensures Glued(prefix, sep) == "" <==> Separates(prefix, sep)
  {
    var p := Bare(prefix);
    assert (p + "-")[..|p|] == p;
    assert TrailingDashes(p + "-") == 1 + TrailingDashes(p);
    assert "-" + "licensed-" == "-licensed-" && "-" + "" == "-";
  }

  lemma OddDash(q: string, y: string)
    requires !Pairs(q)
    ensures Pairs(Paired(q)) && q + ("--" + y) == Paired(q) + ("--" + ("-" + y))
  {
    assert q == Paired(q) + "-";
  }

  lemma SplitAhead(q: string, y: string)
    ensures Split(q + ("--" + y), "--") == Split(Paired(q), "--") + Split((if Pairs(q) then "" else "-") + y, "--")
  {
    if Pairs(q) {
      NothingStuck(y);
      SplitAtDashes(q, y);
    } else {
      OddDash(q, y);
      SplitAtDashes(Paired(q), "-" + y);
    }
  }

  /** The token with what sticks to it, as the parser sees it. */
  lemma GluedToken(g: string, token: string)
    requires Framed(token) && IsGlue(g)
    ensures var t := g + token; t != [] && AllDigits(t) && t[|t| - 1] == token[|token| - 1]
    ensures FreeBefore(g + token, "--", |g|)
  {
    var t := g + token;
    assert forall i :: 0 <= i < |g| ==> IsDigit(g[i]);
    forall i | 0 <= i < |g| ensures !At(t, "--", i) {
      AtChar(t, "--", i, 0);
      AtChar(t, "--", i, 1);
      assert t[|g|] == token[0];
    }
  }

  /** What follows the token extends its last piece, up to the next "--". */
  lemma SplitToken(u: string, blanks: string, rest: string)
    requires u != [] && AllSpace(blanks) && TailRest(rest) && Ends(u, blanks + rest)
    ensures var x, r := Split(u, "--"), Split(rest, "--");
            && (r[0] == "" || r[0][0] == '(')
            && Split(u + (blanks + rest), "--") == x[..|x| - 1] + ([x[|x| - 1] + (blanks + r[0])] + r[1..])
  {
    var z := blanks + rest;
    forall i | 0 <= i < |u| && |u| < i + 2 ensures !At(u + z, "--", i) {
      AtChar(u + z, "--", i, 0);
      AtChar(u + z, "--", i, 1);
    }
    forall i | 0 <= i < |blanks| ensures !At(z, "--", i) {
      AtChar(z, "--", i, 0);
      assert z[i] == blanks[i];
    }
    SplitConcat(u, z, "--");
    SplitSkip(blanks, rest, "--");
    AtChar(rest, "--", 0, 0);
  }

  lemma GluedText(prefix: string, sep: string, token: string, z: string)
    ensures (if Pairs(Ahead(prefix, sep)) then "" else "-") + (Stuck(prefix, sep) + token + z)
         == (Glued(prefix, sep) + token) + z
  {}

  /** Where the token stands after the name is normalised and split. */
  lemma SplitName(prefix: string, sep: string, token: string, blanks: string, rest: string)
    requires FreeBefore(prefix, LICENSED, |prefix|)
    requires IsSeparator(sep) && Fits(token, blanks, rest)
    ensures Fits(Normalise(token), blanks, Normalise(rest))
    ensures Split(Normalise(Stem(prefix, sep, token, blanks, rest)), "--")
         == Split(Paired(Ahead(prefix, sep)), "--")
            + Split((Glued(prefix, sep) + Normalise(token)) + (blanks + Normalise(rest)), "--")
  {
    var z := blanks + Normalise(rest);
    NormaliseStem(prefix, sep, token, blanks, rest);
    SplitAhead(Ahead(prefix, sep), Stuck(prefix, sep) + Normalise(token) + z);
    GluedText(prefix, sep, Normalise(token), z);
  }

  // ----- what a piece yields -----

  lemma ParenthesisIsNoConfig(lib: Library, s: string)
    requires '(' in s
    ensures FromConfigString(lib, Trim(s)) == None
  {
    TrimStartKeeps(s, '(');
    TrimEndKeeps(TrimStart(s), '(');
    var t := Trim(s);
    var i :| 0 <= i < |t| && t[i] == '(';
    assert Reverse(t)[|t| - 1 - i] == '(';
  }

  lemma TrimToken(token: string, blanks: string)
    requires AllDigits(token) && AllSpace(blanks)
    ensures Trim(token + blanks) == token
  {
    if token == [] {
      assert token + blanks == blanks;
      TrimStartBlanks(blanks, "");
      assert blanks + "" == blanks;
    } else {
      assert IsDigit(token[0]) && IsDigit(token[|token| - 1]);
      TrimEndBlanks(token, blanks);
    }
  }

  /** A piece of token, blanks and parentheses yields what the token yields, or else what
      the first parenthesis yields. */
  lemma PieceYields(lib: Library, t: string, blanks: string, f: string)
    requires AllDigits(t) && AllSpace(blanks)
    requires f == "" || f[0] == '('
    ensures FromPiece(lib, t + (blanks + f))
         == if FromConfigString(lib, t).Some? then FromConfigString(lib, t) else FirstConfig(lib, Split(f, "(")[1..])
  {
    var s := t + (blanks + f);
    TrimToken(t, blanks);
    if f == "" {
      assert s == t + blanks;
      assert '(' !in s;
    } else {
      var head := t + blanks;
      assert s == head + f;
      assert s[|head|] == '(';
      ParenthesisIsNoConfig(lib, s);
      forall i | 0 <= i < |head| ensures !At(s, "(", i) {
        AtChar(s, "(", i, 0);
        assert s[i] == if i < |t| then t[i] else blanks[i - |t|];
      }
      SplitSkip(head, f, "(");
      assert f[..1] == "(";
      assert Split(s, "(")[0] == head;
      assert Split(s, "(")[1..] == Split(f, "(")[1..];
    }
  }

  lemma {:induction false} FirstPieceConcat(lib: Library, a: seq<string>, b: seq<string>)
    ensures FirstPiece(lib, a + b) == if FirstPiece(lib, a).Some? then FirstPiece(lib, a) else FirstPiece(lib, b)
  {
    if a == [] {
      assert a + b == b;
    } else {
      assert (a + b)[1..] == a[1..] + b;
      FirstPieceConcat(lib, a[1..], b);
    }
  }

  lemma {:induction false} NonePiece(lib: Library, pieces: seq<string>)
    requires NoneParses(lib, pieces)
    ensures FirstPiece(lib, pieces) == None
  {
    if pieces != [] {
      NonePiece(lib, pieces[1..]);
    }
  }

  lemma AfterSilence(lib: Library, before: seq<string>, pieces: seq<string>)
    requires NoneParses(lib, before)
    ensures FirstPiece(lib, before + pieces) == FirstPiece(lib, pieces)
  {
    NonePiece(lib, before);
    FirstPieceConcat(lib, before, pieces);
  }

  lemma {:induction false} PieceDigits(s: string, j: nat)
    requires AllDigits(s) && j < |Split(s, "--")|
    ensures AllDigits(Split(s, "--")[j])
    decreases |s|
  {
    if s != [] {
      if At(s, "--", 0) {
        if j > 0 {
          PieceDigits(s[2..], j - 1);
        }
      } else {
        SplitMiss(s, "--");
        PieceDigits(s[1..], j);
      }
    }
  }

  lemma OneFirstPiece(lib: Library, piece: string)
    ensures FirstPiece(lib, [piece]) == FromPiece(lib, piece)
  {
    assert [piece][1..] == [];
  }

  /** The pieces of the token, with the tail behind the last one. */
  lemma TokenYields(lib: Library, u: string, blanks: string, rest: string)
    requires u != [] && AllDigits(u) && AllSpace(blanks) && TailRest(rest) && Ends(u, blanks + rest)
    ensures var r := Split(rest, "--");
            var found := FirstPiece(lib, Split(u + (blanks + rest), "--"));
            var own := FirstPiece(lib, Split(u, "--"));
            && (own.Some? ==> found == own)
            && (FirstConfig(lib, Split(r[0], "(")[1..]) == None && FirstPiece(lib, r[1..]) == None ==> found == own)
  {
    var x, r := Split(u, "--"), Split(rest, "--");
    SplitToken(u, blanks, rest);
    PieceDigits(u, |x| - 1);
    LastPieceYields(lib, x, blanks, r);
  }

  lemma LastPieceYields(lib: Library, x: seq<string>, blanks: string, r: seq<string>)
    requires x != [] && AllDigits(x[|x| - 1]) && AllSpace(blanks)
    requires r != [] && (r[0] == "" || r[0][0] == '(')
    ensures var found := FirstPiece(lib, x[..|x| - 1] + ([x[|x| - 1] + (blanks + r[0])] + r[1..]));
            var own := FirstPiece(lib, x);
            && (own.Some? ==> found == own)
            && (FirstConfig(lib, Split(r[0], "(")[1..]) == None && FirstPiece(lib, r[1..]) == None ==> found == own)
  {
    var init, last := x[..|x| - 1], x[|x| - 1];
    var piece := last + (blanks + r[0]);
    FirstPieceConcat(lib, init, [piece] + r[1..]);
    FirstPieceConcat(lib, [piece], r[1..]);
    OneFirstPiece(lib, piece);
    PieceYields(lib, last, blanks, r[0]);
    assert x == init + [last];
    FirstPieceConcat(lib, init, [last]);
    OneFirstPiece(lib, last);
    TextYields(lib, last);
  }

  lemma TextYields(lib: Library, t: string)
    requires AllDigits(t)
    ensures FromPiece(lib, t) == FromConfigString(lib, t)
  {
    PieceYields(lib, t, "", "");
    assert t + ("" + "") == t && Split("", "(") == [""];
  }

  // ----- extension and "host=" -----

  lemma LowerAt(s: string, c: char, i: nat)
    requires i < |s| && c !in "abcdefghijklmnopqrstuvwxyz"
    requires !('A' <= c <= 'Z')
    ensures Lower(s)[i] == c <==> s[i] == c
  {
    if 'A' <= s[i] <= 'Z' {
      var k := s[i] as int - 'A' as int;
      assert "abcdefghijklmnopqrstuvwxyz"[k] == Lower(s)[i];
    }
  }

  predicate Lacks(s: string, c: char) {
    forall i :: 0 <= i < |s| ==> s[i] != c
  }

  lemma PartsLack(sep: string, token: string, blanks: string, c: char)
    requires IsSeparator(sep) && AllDigits(token) && AllSpace(blanks)
    requires c == '=' || c == '.'
    ensures Lacks(sep, c) && Lacks(token, c) && Lacks(blanks, c)
  {}

  lemma LowerLacks(s: string, c: char)
    requires Lacks(s, c) && (c == '=' || c == '.')
    ensures Lacks(Lower(s), c)
  {
    forall i | 0 <= i < |s| ensures Lower(s)[i] != c {
      LowerAt(s, c, i);
    }
  }

  /** The part of a name from the separator to the blanks has no dot and no equals sign. */
  lemma MiddleHasNo(sep: string, token: string, blanks: string, c: char)
    requires IsSeparator(sep) && AllDigits(token) && AllSpace(blanks)
    requires c == '=' || c == '.'
    ensures Lacks(Lower(sep + (token + blanks)), c)
  {
    PartsLack(sep, token, blanks, c);
    LowerLacks(sep + (token + blanks), c);
  }

  lemma NoExe(a: string, m: string, y: string)
    requires !EndsWith(y, ".exe") && |m| >= 4 && Lacks(m, '.')
    ensures !EndsWith(a + (m + y), ".exe")
  {
    var s := a + (m + y);
    var i := |s| - 4;
    assert ".exe"[0] == '.';
    if |y| >= 4 {
      assert s[i..] == y[|y| - 4..];
    } else {
      assert s[i..][0] == s[i] == m[i - |a|];
    }
  }

  lemma StemIsLower(prefix: string, sep: string, token: string, blanks: string, rest: string)
    ensures Lower(Stem(prefix, sep, token, blanks, rest))
         == Lower(prefix) + (Lower(sep + (token + blanks)) + Lower(rest))
  {
    var m := sep + (token + blanks);
    assert Stem(prefix, sep, token, blanks, rest) == prefix + (m + rest);
    LowerConcat(prefix, m + rest);
    LowerConcat(m, rest);
  }

  lemma StemHasNoExe(prefix: string, sep: string, token: string, blanks: string, rest: string)
    requires IsSeparator(sep) && Framed(token) && AllSpace(blanks) && PlainTail(rest)
    ensures !EndsWith(Lower(Stem(prefix, sep, token, blanks, rest)), ".exe")
  {
    StemIsLower(prefix, sep, token, blanks, rest);
    MiddleHasNo(sep, token, blanks, '.');
    NoExe(Lower(prefix), Lower(sep + (token + blanks)), Lower(rest));
  }

  lemma ExeTwice(l: string)
    ensures EndsWith(l, ".exe.exe") ==> EndsWith(l, ".exe")
    ensures EndsWith(l + ".exe", ".exe.exe") <==> EndsWith(l, ".exe")
  {
    assert ".exe.exe" == ".exe" + ".exe";
    var m := l + ".exe";
    if |l| >= 4 {
      assert m[|m| - 8..] == l[|l| - 4..] + ".exe";
      assert l[|l| - 4..] == m[|m| - 8..][..4];
    }
    if |l| >= 8 {
      assert l[|l| - 4..] == l[|l| - 8..][4..];
    }
  }

  lemma StripsExtension(x: string, ext: string)
    requires IsExtension(ext) && !EndsWith(Lower(x), ".exe")
    ensures StripExe(x + ext) == x
  {
    var s := x + ext;
    LowerConcat(x, ext);
    ExeTwice(Lower(x));
    var l := Lower(s);
    if ext == "" {
      assert s == x;
    } else if Lower(ext) == ".exe" {
      assert l[|l| - 4..] == ".exe";
      assert s[..|s| - 4] == x;
    } else {
      assert l[|l| - 8..] == ".exe.exe";
      assert s[..|s| - 8] == x;
    }
  }

  /** "host=" ends in a character no middle part has, and cannot reach back over the
      start of the tail. */
  lemma NoHost(a: string, m: string, y: string)
    requires !Contains(a, "host=") && !Contains(y, "host=")
    requires Lacks(m, '=')
    requires y == "" || y[0] == '(' || y[0] == '-'
    ensures !Contains(a + (m + y), "host=")
  {
    var s := a + (m + y);
    var r := |a| + |m|;
    assert s == (a + m) + y;
    assert "host=" == ['h', 'o', 's', 't', '='];
    forall i | 0 <= i <= |s| ensures !At(s, "host=", i) {
      AtChar(s, "host=", i, 4);
      if i + 5 <= |a| {
        AtWithin(a, m + y, "host=", i);
      } else if i + 4 < r {
        assert s[i + 4] == m[i + 4 - |a|];
      } else if i >= r {
        AtSuffix(a + m, y, "host=", i);
      } else if r < |s| {
        AtChar(s, "host=", i, r - i);
        assert s[r] == y[0];
      }
    }
  }

  lemma StemHasNoHost(prefix: string, sep: string, token: string, blanks: string, rest: string)
    requires !Contains(Lower(prefix), "host=")
    requires IsSeparator(sep) && Framed(token) && AllSpace(blanks) && PlainTail(rest)
    ensures !Contains(Lower(Stem(prefix, sep, token, blanks, rest)), "host=")
  {
    StemIsLower(prefix, sep, token, blanks, rest);
    MiddleHasNo(sep, token, blanks, '=');
    NoHost(Lower(prefix), Lower(sep + (token + blanks)), Lower(rest));
  }

  // ----- the round trip -----

  /** Nothing in front of the token is itself a configuration. */
  ghost predicate SilentAhead(lib: Library, prefix: string, sep: string) {
    NoneParses(lib, Split(Paired(Ahead(prefix, sep)), "--"))
  }

  /** Nothing behind the token is itself a configuration. */
  ghost predicate SilentTail(lib: Library, rest: string) {
    var r := Split(Normalise(rest), "--");
    FirstConfig(lib, Split(r[0], "(")[1..]) == None && FirstPiece(lib, r[1..]) == None
  }

  /** What the parser makes of a name, whatever the token: the first of the token's pieces
      that is a configuration. */
  lemma PiecesYield(lib: Library, token: string, prefix: string, sep: string,
                    blanks: string, rest: string, ext: string)
    requires Fits(token, blanks, rest) && PlainPrefix(prefix) && SilentAhead(lib, prefix, sep)
    requires IsSeparator(sep) && PlainTail(rest) && IsExtension(ext)
    ensures var r := FirstPiece(lib, Split(Glued(prefix, sep) + Normalise(token), "--"));
            var parsed := ParseName(lib, Stem(prefix, sep, token, blanks, rest) + ext);
            && (r.Some? ==> parsed == r)
            && (SilentTail(lib, rest) ==> parsed == r)
  {
    var u := Glued(prefix, sep) + Normalise(token);
    TokenDecides(lib, token, prefix, sep, blanks, rest, ext);
    GluedIsText(prefix, sep, Normalise(token), blanks + Normalise(rest));
    TokenYields(lib, u, blanks, Normalise(rest));
  }

  /** The pieces in front of the token do not matter. */
  lemma TokenDecides(lib: Library, token: string, prefix: string, sep: string,
                     blanks: string, rest: string, ext: string)
    requires Fits(token, blanks, rest) && PlainPrefix(prefix) && SilentAhead(lib, prefix, sep)
    requires IsSeparator(sep) && PlainTail(rest) && IsExtension(ext)
    ensures Fits(Normalise(token), blanks, Normalise(rest))
    ensures ParseName(lib, Stem(prefix, sep, token, blanks, rest) + ext)
         == FirstPiece(lib, Split((Glued(prefix, sep) + Normalise(token)) + (blanks + Normalise(rest)), "--"))
  {
    NameSplits(lib, prefix, sep, token, blanks, rest, ext);
    SplitName(prefix, sep, token, blanks, rest);
    AfterSilence(lib, Split(Paired(Ahead(prefix, sep)), "--"),
                 Split((Glued(prefix, sep) + Normalise(token)) + (blanks + Normalise(rest)), "--"));
  }

  lemma GluedIsText(prefix: string, sep: string, t: string, z: string)
    requires Framed(t) && Ends(t, z)
    ensures var u := Glued(prefix, sep) + t; u != [] && AllDigits(u) && Ends(u, z)
  {
    GluedForms(prefix, sep);
    GluedToken(Glued(prefix, sep), t);
  }

  lemma NameSplits(lib: Library, prefix: string, sep: string, token: string, blanks: string, rest: string, ext: string)
    requires Framed(token) && PlainPrefix(prefix)
    requires IsSeparator(sep) && AllSpace(blanks) && PlainTail(rest) && IsExtension(ext)
    ensures var x := Stem(prefix, sep, token, blanks, rest);
            ParseName(lib, x + ext) == FirstPiece(lib, Split(Normalise(x), "--"))
  {
    StemHasNoExe(prefix, sep, token, blanks, rest);
    StripsExtension(Stem(prefix, sep, token, blanks, rest), ext);
    StemHasNoHost(prefix, sep, token, blanks, rest);
  }

  /** For every configuration, with or without separators in its token, the parser's answer
      is the first piece of the token that is a configuration. */
  lemma AnyNameYields(lib: Library, lic: Server, prefix: string, sep: string,
                      blanks: string, rest: string, ext: string)
    requires Faithful(lib, lic) && PlainPrefix(prefix) && SilentAhead(lib, prefix, sep)
    requires IsSeparator(sep) && AllSpace(blanks) && IsExtension(ext)
    requires PlainTail(rest) && SilentTail(lib, rest)
    ensures ParseName(lib, Stem(prefix, sep, GenName(lib, lic), blanks, rest) + ext)
         == FirstPiece(lib, Split(Glued(prefix, sep) + Normalise(GenName(lib, lic)), "--"))
  {
    TokenIsFramed(lib, lic);
    PiecesYield(lib, GenName(lib, lic), prefix, sep, blanks, rest, ext);
  }

  lemma UncutIsOnePiece(g: string, token: string)
    requires SafeToken(token) && IsGlue(g)
    ensures Normalise(token) == token && Split(g + token, "--") == [g + token]
  {
    NormaliseNothing(token);
    GluedToken(g, token);
    forall i | 0 <= i < |g + token| ensures !At(g + token, "--", i) {
      if i >= |g| {
        AtSuffix(g, token, "--", i);
      }
    }
    SplitWhole(g + token);
  }

  /** A token without separators is one piece. */
  lemma NameYields(lib: Library, token: string, prefix: string, sep: string,
                   blanks: string, rest: string, ext: string)
    requires Fits(token, blanks, rest) && Uncut(token) && PlainPrefix(prefix) && SilentAhead(lib, prefix, sep)
    requires IsSeparator(sep) && PlainTail(rest) && IsExtension(ext)
    ensures var r := FromConfigString(lib, Glued(prefix, sep) + token);
            var parsed := ParseName(lib, Stem(prefix, sep, token, blanks, rest) + ext);
            && (r.Some? ==> parsed == r)
            && (SilentTail(lib, rest) ==> parsed == r)
  {
    PiecesYield(lib, token, prefix, sep, blanks, rest, ext);
    GluedForms(prefix, sep);
    GluedToken(Glued(prefix, sep), token);
    UncutIsOnePiece(Glued(prefix, sep), token);
    OneFirstPiece(lib, Glued(prefix, sep) + token);
    TextYields(lib, Glued(prefix, sep) + token);
  }

  /** The parser recovers the configuration from prefix, separator, token, optional
      blanks and tail, and extension, whenever the token is one the parser cannot cut and
      the separator stays recognisable after the prefix. */
  lemma NameReadsBack(lib: Library, lic: Server, prefix: string, sep: string,
                      blanks: string, rest: string, ext: string)
    requires Faithful(lib, lic) && SafeToken(GenName(lib, lic))
    requires PlainPrefix(prefix) && SilentAhead(lib, prefix, sep) && Separates(prefix, sep)
    requires IsSeparator(sep) && AllSpace(blanks) && PlainTail(rest) && IsExtension(ext)
    ensures ParseName(lib, Stem(prefix, sep, GenName(lib, lic), blanks, rest) + ext) == Some(lic)
  {
    var token := GenName(lib, lic);
    GluedForms(prefix, sep);
    assert "" + token == token;
    TokenReadsBack(lib, lic);
    TokenIsFramed(lib, lic);
    NameYields(lib, token, prefix, sep, blanks, rest, ext);
  }

  /** In particular for every configuration with ASCII JSON. */
  lemma AsciiNameReadsBack(lib: Library, lic: Server, prefix: string, sep: string,
                           blanks: string, rest: string, ext: string)
    requires Faithful(lib, lic) && Ascii(lib.toJson(lic))
    requires PlainPrefix(prefix) && SilentAhead(lib, prefix, sep) && Separates(prefix, sep)
    requires IsSeparator(sep) && AllSpace(blanks) && PlainTail(rest) && IsExtension(ext)
    ensures ParseName(lib, Stem(prefix, sep, GenName(lib, lic), blanks, rest) + ext) == Some(lic)
  {
    AsciiTokenIsSafe(lib, lic);
    NameReadsBack(lib, lic, prefix, sep, blanks, rest, ext);
  }

  // ----- exactly which names work -----

  predicate IsJsonSpace(b: byte) {
    b == 9 || b == 10 || b == 13 || b == 32
  }

  /** A reader that rejects the printed object with anything but white space after it, as
      JSON readers do, and does not take it for a signed message. */
  ghost predicate RejectsTrailing(lib: Library, lic: Server) {
    var b := lib.toJson(lic);
    forall more: seq<byte> :: more != [] && !IsJsonSpace(more[0]) ==>
      lib.fromJson(b + more) == None && lib.verify(b + more) == None
  }

  lemma OverrunIsRejected(lib: Library, lic: Server, data: seq<byte>)
    requires RejectsTrailing(lib, lic) && IsOverrun(lib.toJson(lic), Some(data))
    ensures lib.fromJson(data) == None && lib.verify(data) == None
  {
    var b := lib.toJson(lic);
    var more := data[|b|..];
    assert data == b + more;
    assert more[0] == data[|b|];
  }

  lemma ReversedBehind(g: string, e: string)
    requires g != "" && g[|g| - 1] == '-'
    ensures Reverse(g + Reverse(e)) == e + ("-" + Reverse(g[..|g| - 1]))
  {}

  /** Whatever sticks to the token with a dash makes it unreadable. */
  lemma GluedTokenIsRejected(lib: Library, lic: Server, g: string)
    requires RejectsTrailing(lib, lic)
    requires g != "" && g[|g| - 1] == '-'
    ensures FromConfigString(lib, g + GenName(lib, lic)) == None
  {
    var b := lib.toJson(lic);
    var s := Reverse(g[..|g| - 1]);
    ReversedBehind(g, Encode(b));
    DecodeOverrun(b, s);
    var d := Decode(Encode(b) + ("-" + s));
    if d.Some? {
      OverrunIsRejected(lib, lic, d.value);
    }
  }

  /** The parser recovers the configuration if and only if the separator stays recognisable
      after the prefix; otherwise it finds none. */
  lemma NameReadsBackIff(lib: Library, lic: Server, prefix: string, sep: string,
                         blanks: string, rest: string, ext: string)
    requires Faithful(lib, lic) && RejectsTrailing(lib, lic) && SafeToken(GenName(lib, lic))
    requires PlainPrefix(prefix) && SilentAhead(lib, prefix, sep)
    requires IsSeparator(sep) && AllSpace(blanks) && IsExtension(ext)
    requires PlainTail(rest) && SilentTail(lib, rest)
    ensures ParseName(lib, Stem(prefix, sep, GenName(lib, lic), blanks, rest) + ext)
         == if Separates(prefix, sep) then Some(lic) else None
  {
    if Separates(prefix, sep) {
      NameReadsBack(lib, lic, prefix, sep, blanks, rest, ext);
    } else {
      GluedForms(prefix, sep);
      GluedTokenIsRejected(lib, lic, Glued(prefix, sep));
      TokenIsFramed(lib, lic);
      NameYields(lib, GenName(lib, lic), prefix, sep, blanks, rest, ext);
    }
  }

  lemma TextIsPlain(t: string)
    requires AllDigits(t)
    ensures !EndsWith(Lower(t), ".exe") && !Contains(Lower(t), "host=")
  {
    var l := Lower(t);
    forall i | 0 <= i <= |t| ensures !At(l, "host=", i) {
      AtChar(l, "host=", i, 4);
      if i + 4 < |t| {
        LowerAt(t, '=', i + 4);
      }
    }
    if |t| >= 4 {
      LowerAt(t, '.', |t| - 4);
      assert l[|t| - 4..][0] == l[|t| - 4];
      assert ".exe"[0] == '.';
    }
  }

  /** A text of the alphabet without separators is one piece. */
  lemma OnePiece(lib: Library, t: string)
    requires t != [] && AllDigits(t)
    requires FreeBefore(t, LICENSED, |t|) && FreeBefore(t, "--", |t|)
    ensures ParseName(lib, t + ".exe") == FromConfigString(lib, t)
  {
    assert Lower(".exe") == ".exe";
    TextIsPlain(t);
    StripsExtension(t, ".exe");
    NormaliseNothing(t);
    SplitWhole(t);
    OneFirstPiece(lib, t);
    TextYields(lib, t);
  }

  /** The name that the generator's own command line prints carries the token behind no
      separator at all: the parser takes prefix and token together for one text. */
  lemma GeneratedNameIsOnePiece(lib: Library, token: string)
    requires SafeToken(token)
    ensures ParseName(lib, "codedesk-custom_serverd-" + token + ".exe")
         == FromConfigString(lib, "codedesk-custom_serverd-" + token)
  {
    var p := "codedesk-custom_serverd-";
    var t := p + token;
    assert p[8] == '-' && p[23] == '-' && forall i :: 0 <= i < 24 && i != 8 && i != 23 ==> p[i] != '-';
    forall i | 0 <= i < |t| ensures !At(t, LICENSED, i) && !At(t, "--", i) {
      if i < 24 {
        AtChar(t, LICENSED, i, 0);
        AtChar(t, LICENSED, i, 1);
        AtChar(t, "--", i, 0);
        AtChar(t, "--", i, 1);
      } else {
        AtSuffix(p, token, LICENSED, i);
        AtSuffix(p, token, "--", i);
      }
    }
    OnePiece(lib, t);
  }

  /** So the name the generator prints never reads back. */
  lemma GeneratedNameIsLost(lib: Library, lic: Server)
    requires RejectsTrailing(lib, lic) && SafeToken(GenName(lib, lic))
    ensures ParseName(lib, "codedesk-custom_serverd-" + GenName(lib, lic) + ".exe") == None
  {
    GeneratedNameIsOnePiece(lib, GenName(lib, lic));
    GluedTokenIsRejected(lib, lic, "codedesk-custom_serverd-");
  }

  /** In particular for every configuration with ASCII JSON. */
  lemma AsciiGeneratedNameIsLost(lib: Library, lic: Server)
    requires Faithful(lib, lic) && RejectsTrailing(lib, lic) && Ascii(lib.toJson(lic))
    ensures ParseName(lib, "codedesk-custom_serverd-" + GenName(lib, lic) + ".exe") == None
  {
    AsciiTokenIsSafe(lib, lic);
    GeneratedNameIsLost(lib, lic);
  }

  // ----- tokens with separators of their own -----

  lemma {:induction false} FoundPiece(lib: Library, pieces: seq<string>) returns (j: nat)
    requires FirstPiece(lib, pieces).Some?
    ensures j < |pieces| && FromPiece(lib, pieces[j]) == FirstPiece(lib, pieces)
  {
    if FromPiece(lib, pieces[0]).Some? {
      return 0;
    }
    var i := FoundPiece(lib, pieces[1..]);
    assert pieces[1..][i] == pieces[i + 1];
    j := i + 1;
  }

  lemma NormaliseShrinks(t: string)
    ensures |Normalise(t)| <= |t|
    ensures !FreeBefore(t, LICENSED, |t|) ==> |Normalise(t)| < |t|
  {
    var t1 := Replace(t, LICENSED3, "--");
    var t2 := Replace(t1, LICENSED2, "--");
    ReplaceLength(t, LICENSED3, "--");
    ReplaceLength(t1, LICENSED2, "--");
    ReplaceLength(t2, LICENSED, "--");
    if |t1| == |t| {
      ReplaceNothing(t, LICENSED3);
      if |t2| == |t| {
        ReplaceNothing(t, LICENSED2);
      }
    }
  }

  /** No piece of a token with a separator in it is the token. */
  lemma PieceIsNotToken(g: string, token: string, j: nat)
    requires Framed(token) && !Uncut(token) && Framed(Normalise(token))
    requires IsGlue(g)
    requires j < |Split(g + Normalise(token), "--")|
    ensures Split(g + Normalise(token), "--")[j] != token
  {
    var n := Normalise(token);
    PieceIsFree(g + n, "--", j);
    if FreeBefore(token, "--", |token|) {
      NormaliseShrinks(token);
      GluedToken(g, n);
      SplitSkip(g, n, "--");
      PieceIsFree(n, "--", j);
    }
  }

  lemma NormalisedPart(t: string, x: string)
    requires Contains(Normalise(t), x) && FreeBefore(x, "--", |x|)
    ensures Contains(t, x)
  {
    var t1 := Replace(t, LICENSED3, "--");
    var t2 := Replace(t1, LICENSED2, "--");
    var i :| 0 <= i <= |Normalise(t)| && At(Normalise(t), x, i);
    ReplacedPart(t2, LICENSED, i, x);
    i :| 0 <= i <= |t2| && At(t2, x, i);
    ReplacedPart(t1, LICENSED2, i, x);
    i :| 0 <= i <= |t1| && At(t1, x, i);
    ReplacedPart(t, LICENSED3, i, x);
  }

  lemma PieceOfNormalised(token: string, j: nat)
    requires j < |Split(Normalise(token), "--")|
    ensures Contains(token, Split(Normalise(token), "--")[j])
  {
    PieceIsContained(Normalise(token), "--", j);
    PieceIsFree(Normalise(token), "--", j);
    NormalisedPart(token, Split(Normalise(token), "--")[j]);
  }

  lemma GluedPieces(g: string, n: string, j: nat)
    requires IsGlue(g) && Framed(n) && j < |Split(g + n, "--")|
    ensures j < |Split(n, "--")| && Split(g + n, "--")[j] == (if j == 0 then g else "") + Split(n, "--")[j]
  {
    GluedToken(g, n);
    SplitSkip(g, n, "--");
    NothingStuck(Split(n, "--")[j]);
  }

  /** Every piece is a part of the token, the first one behind what sticks to it. */
  lemma PieceIsPart(g: string, token: string, j: nat) returns (h: string, y: string)
    requires IsGlue(g) && Framed(Normalise(token))
    requires j < |Split(g + Normalise(token), "--")|
    ensures IsGlue(h) && Contains(token, y) && Split(g + Normalise(token), "--")[j] == h + y
  {
    GluedPieces(g, Normalise(token), j);
    PieceOfNormalised(token, j);
    h, y := if j == 0 then g else "", Split(Normalise(token), "--")[j];
  }

  /** No other part of the token, with or without the remains of a separator in front, is
      read as the configuration it prints. */
  ghost predicate PartsAreOther(lib: Library, lic: Server) {
    forall g, y :: IsGlue(g) && Contains(GenName(lib, lic), y) && g + y != GenName(lib, lic) ==>
      FromConfigString(lib, g + y) != Some(lic)
  }

  /** They are read as nothing at all. */
  ghost predicate PartsAreUnread(lib: Library, lic: Server) {
    forall g, y :: IsGlue(g) && Contains(GenName(lib, lic), y) && g + y != GenName(lib, lic) ==>
      FromConfigString(lib, g + y) == None
  }

  /** What is found in a cut token is a part of it that is not the whole. */
  lemma CutTokenYields(lib: Library, token: string, g: string) returns (h: string, y: string)
    requires Framed(token) && !Uncut(token) && IsGlue(g) && Framed(Normalise(token))
    requires FirstPiece(lib, Split(g + Normalise(token), "--")).Some?
    ensures IsGlue(h) && Contains(token, y) && h + y != token
    ensures FromConfigString(lib, h + y) == FirstPiece(lib, Split(g + Normalise(token), "--"))
  {
    var u := g + Normalise(token);
    GluedToken(g, Normalise(token));
    var j := FoundPiece(lib, Split(u, "--"));
    PieceDigits(u, j);
    TextYields(lib, Split(u, "--")[j]);
    PieceIsNotToken(g, token, j);
    h, y := PieceIsPart(g, token, j);
  }

  /** With a separator in its token a configuration is not recovered behind any prefix or
      separator; and nothing is found when the parts of the token are read as nothing. */
  lemma CutNameIsLost(lib: Library, lic: Server, prefix: string, sep: string,
                      blanks: string, rest: string, ext: string)
    requires Faithful(lib, lic) && PartsAreOther(lib, lic) && !Uncut(GenName(lib, lic))
    requires PlainPrefix(prefix) && SilentAhead(lib, prefix, sep)
    requires IsSeparator(sep) && AllSpace(blanks) && IsExtension(ext)
    requires PlainTail(rest) && SilentTail(lib, rest)
    ensures ParseName(lib, Stem(prefix, sep, GenName(lib, lic), blanks, rest) + ext) != Some(lic)
    ensures PartsAreUnread(lib, lic) ==>
              ParseName(lib, Stem(prefix, sep, GenName(lib, lic), blanks, rest) + ext) == None
  {
    AnyNameYields(lib, lic, prefix, sep, blanks, rest, ext);
    TokenIsFramed(lib, lic);
    NormaliseStem(prefix, sep, GenName(lib, lic), blanks, rest);
    GluedForms(prefix, sep);
    if FirstPiece(lib, Split(Glued(prefix, sep) + Normalise(GenName(lib, lic)), "--")).Some? {
      var h, y := CutTokenYields(lib, GenName(lib, lic), Glued(prefix, sep));
    }
  }

  lemma WholeIsPart(t: string)
    ensures Contains(t, t)
  {
    PrefixIsContained(t, t);
  }

  /** For every configuration: the parser recovers it if and only if the separator stays
      recognisable after the prefix and the token holds none of its own. */
  lemma NameRecoveredIff(lib: Library, lic: Server, prefix: string, sep: string,
                         blanks: string, rest: string, ext: string)
    requires Faithful(lib, lic) && PartsAreOther(lib, lic)
    requires PlainPrefix(prefix) && SilentAhead(lib, prefix, sep)
    requires IsSeparator(sep) && AllSpace(blanks) && IsExtension(ext)
    requires PlainTail(rest) && SilentTail(lib, rest)
    ensures ParseName(lib, Stem(prefix, sep, GenName(lib, lic), blanks, rest) + ext) == Some(lic)
       <==> Separates(prefix, sep) && Uncut(GenName(lib, lic))
  {
    TokenIsFramed(lib, lic);
    if !Uncut(GenName(lib, lic)) {
      CutNameIsLost(lib, lic, prefix, sep, blanks, rest, ext);
    } else if Separates(prefix, sep) {
      NameReadsBack(lib, lic, prefix, sep, blanks, rest, ext);
    } else {
      GluedForms(prefix, sep);
      WholeIsPart(GenName(lib, lic));
      NameYields(lib, GenName(lib, lic), prefix, sep, blanks, rest, ext);
    }
  }

  /** No fewer bytes than the printed ones are read as the configuration.  So it is with JSON
      when no field is empty; an empty field may be left out of the text. */
  ghost predicate Shortest(lib: Library, lic: Server) {
    forall data :: |data| < |lib.toJson(lic)| ==>
      && lib.fromJson(data) != Some(lic)
      && (lib.verify(data).Some? ==> lib.fromJson(lib.verify(data).value) != Some(lic))
  }

  lemma ShorterTextIsOther(lib: Library, lic: Server, t: string)
    requires Shortest(lib, lic) && |t| < |GenName(lib, lic)|
    ensures FromConfigString(lib, t) != Some(lic)
  {
    var d := Decode(Reverse(t));
    if d.Some? {
      EncodeDecode(Reverse(t), d.value);
      ShorterText(d.value, lib.toJson(lic));
    }
  }

  /** Behind a separator that stays recognisable: recovered if and only if the token holds
      none of its own, for every reader to which the printed text is a shortest one. */
  lemma ShortestRecoveredIff(lib: Library, lic: Server, prefix: string, sep: string,
                             blanks: string, rest: string, ext: string)
    requires Faithful(lib, lic) && Shortest(lib, lic)
    requires PlainPrefix(prefix) && SilentAhead(lib, prefix, sep) && Separates(prefix, sep)
    requires IsSeparator(sep) && AllSpace(blanks) && IsExtension(ext)
    requires PlainTail(rest) && SilentTail(lib, rest)
    ensures ParseName(lib, Stem(prefix, sep, GenName(lib, lic), blanks, rest) + ext) == Some(lic)
       <==> Uncut(GenName(lib, lic))
  {
    var token := GenName(lib, lic);
    TokenIsFramed(lib, lic);
    if Uncut(token) {
      NameReadsBack(lib, lic, prefix, sep, blanks, rest, ext);
    } else {
      AnyNameYields(lib, lic, prefix, sep, blanks, rest, ext);
      NormaliseStem(prefix, sep, token, blanks, rest);
      GluedForms(prefix, sep);
      NothingStuck(Normalise(token));
      if FirstPiece(lib, Split("" + Normalise(token), "--")).Some? {
        CutPieceIsShorter(lib, lic);
      }
    }
  }

  lemma CutPieceIsShorter(lib: Library, lic: Server)
    requires Faithful(lib, lic) && Shortest(lib, lic) && !Uncut(GenName(lib, lic))
    requires Framed(Normalise(GenName(lib, lic)))
    requires FirstPiece(lib, Split("" + Normalise(GenName(lib, lic)), "--")).Some?
    ensures FirstPiece(lib, Split("" + Normalise(GenName(lib, lic)), "--")) != Some(lic)
  {
    var token := GenName(lib, lic);
    var u := "" + Normalise(token);
    TokenIsFramed(lib, lic);
    GluedToken("", Normalise(token));
    var j := FoundPiece(lib, Split(u, "--"));
    PieceDigits(u, j);
    TextYields(lib, Split(u, "--")[j]);
    PieceIsNotToken("", token, j);
    WholePiece(token, j);
    ShorterTextIsOther(lib, lic, Split(u, "--")[j]);
  }

  /** A piece as long as the token is the token. */
  lemma WholePiece(token: string, j: nat)
    requires Framed(Normalise(token)) && j < |Split("" + Normalise(token), "--")|
    ensures var x := Split("" + Normalise(token), "--")[j]; |x| <= |token| && (|x| == |token| ==> x == token)
  {
    var n := Normalise(token);
    NothingStuck(n);
    PieceOfNormalised(token, j);
    WholeIsContained(token, Split(n, "--")[j]);
  }

  // ----- a configuration that is cut -----

  /** A library that knows one configuration, by one text. */
  function OneLibrary(json: seq<byte>, lic: Server): Library {
    Library(_ => json, b => if b == json then Some(lic) else None, _ => None)
  }

  /** Such a library reads the token and nothing else. */
  lemma OnlyTokenIsRead(json: seq<byte>, lic: Server, t: string)
    ensures var lib := OneLibrary(json, lic); FromConfigString(lib, t).Some? ==> t == GenName(lib, lic)
  {
    var lib := OneLibrary(json, lic);
    if FromConfigString(lib, t).Some? {
      EncodeDecode(Reverse(t), json);
      ReverseTwice(t);
    }
  }

  lemma OneLibraryReadsTheWhole(json: seq<byte>, lic: Server)
    ensures PartsAreUnread(OneLibrary(json, lic), lic) && PartsAreOther(OneLibrary(json, lic), lic)
  {
    var lib := OneLibrary(json, lic);
    forall g, y | IsGlue(g) && Contains(GenName(lib, lic), y) && g + y != GenName(lib, lic)
      ensures FromConfigString(lib, g + y) == None
    {
      OnlyTokenIsRead(json, lic, g + y);
    }
  }

  /** The UTF-8 text of {"key":"ac!","host":"","api":"","relay":""}, as the printer writes it,
      with a fullwidth exclamation mark. */
  const FULLWIDTH_JSON: seq<byte> :=
    [123, 34, 107, 101, 121, 34, 58, 34, 97] + ([0x63, 0xEF, 0xBC] + ([0x81, 34, 44,
     34, 104, 111, 115, 116, 34, 58, 34, 34, 44,
     34, 97, 112, 105, 34, 58, 34, 34, 44,
     34, 114, 101, 108, 97, 121, 34, 58, 34, 34, 125]))

  lemma FullwidthIsCut()
    ensures !Uncut(Reverse(Encode(FULLWIDTH_JSON)))
  {
    FullwidthCuts([123, 34, 107, 101, 121, 34, 58, 34, 97],
                  [0x81, 34, 44, 34, 104, 111, 115, 116, 34, 58, 34, 34, 44,
                   34, 97, 112, 105, 34, 58, 34, 34, 44,
                   34, 114, 101, 108, 97, 121, 34, 58, 34, 34, 125]);
  }

  /** To no reader is the configuration with this key recovered from "x--<token>.exe". */
  lemma FullwidthNameIsLost(lib: Library, lic: Server)
    requires Faithful(lib, lic) && PartsAreOther(lib, lic) && lib.toJson(lic) == FULLWIDTH_JSON
    ensures ParseName(lib, Stem("x", "--", GenName(lib, lic), "", "") + ".exe") != Some(lic)
    ensures PartsAreUnread(lib, lic) ==>
              ParseName(lib, Stem("x", "--", GenName(lib, lic), "", "") + ".exe") == None
  {
    FullwidthIsCut();
    XIsPlain(lib);
    assert Lower("x") == "x" && Lower(".exe") == ".exe";
    CutNameIsLost(lib, lic, "x", "--", "", "", ".exe");
  }

  /** There are such readers. */
  lemma FullwidthReader(lic: Server)
    ensures var lib := OneLibrary(FULLWIDTH_JSON, lic);
            && Faithful(lib, lic) && PartsAreOther(lib, lic)
            && ParseName(lib, Stem("x", "--", GenName(lib, lic), "", "") + ".exe") == None
  {
    var lib := OneLibrary(FULLWIDTH_JSON, lic);
    OneLibraryReadsTheWhole(FULLWIDTH_JSON, lic);
    FullwidthNameIsLost(lib, lic);
  }

  /** The fullwidth text at a multiple of three bytes puts a separator into the token. */
  lemma FullwidthCuts(a: seq<byte>, z: seq<byte>)
    requires |a| % 3 == 0
    ensures !Uncut(Reverse(Encode(a + ([0x63, 0xEF, 0xBC] + z))))
  {
    var e := Encode(a + ([0x63, 0xEF, 0xBC] + z));
    FullwidthPrintsDashes(a, z);
    DashesReversed(e, |Encode(a)| + 1);
  }

  lemma DashesReversed(e: string, i: nat)
    requires i + 2 <= |e| && e[i] == '-' && e[i + 1] == '-'
    ensures !FreeBefore(Reverse(e), "--", |e|)
  {
    var k := |e| - 2 - i;
    assert Reverse(e)[k..k + 2] == "--";
    assert At(Reverse(e), "--", k);
  }

  // ----- concrete names that fail -----

  /** A library that knows one configuration by an empty object. */
  function TinyLibrary(lic: Server): Library {
    OneLibrary([123, 125], lic)
  }

  lemma TinyLibraryIsStrict(lic: Server)
    ensures Faithful(TinyLibrary(lic), lic) && RejectsTrailing(TinyLibrary(lic), lic)
    ensures SafeToken(GenName(TinyLibrary(lic), lic))
  {
    var lib := TinyLibrary(lic);
    assert lib.toJson(lic) == [123, 125];
    AsciiTokenIsSafe(lib, lic);
  }

  lemma XIsPlain(lib: Library)
    ensures Pairs("x") && NoneParses(lib, Split("x", "--"))
    ensures PlainTail("") && SilentTail(lib, "")
  {
    assert TrailingDashes("x") == 0;
    assert Split("x", "--") == ["x"];
    assert |Reverse(Trim("x"))| == 1;
    assert Lower("") == "";
    assert Normalise("") == "" && Split("", "--") == [""] && Split("", "(") == [""];
  }

  /** One dash too many: the configuration in "x---<token>.exe" is not found. */
  lemma OneDashTooMany(lic: Server)
    ensures Faithful(TinyLibrary(lic), lic)
    ensures ParseName(TinyLibrary(lic), Stem("x-", "--", GenName(TinyLibrary(lic), lic), "", "") + ".exe") == None
  {
    var lib := TinyLibrary(lic);
    TinyLibraryIsStrict(lic);
    XIsPlain(lib);
    XDash();
    assert Lower(".exe") == ".exe";
    NameReadsBackIff(lib, lic, "x-", "--", "", "", ".exe");
  }

  lemma XDash()
    ensures PlainPrefix("x-") && !Separates("x-", "--")
    ensures Paired(Ahead("x-", "--")) == "x"
  {
    var p := "x-";
    assert p[..1] == "x";
    assert TrailingDashes("x") == 0;
    assert TrailingDashes(p) == 1 + TrailingDashes(p[..1]);
    assert Lower(p) == p;
  }

  /** "licensed" twice: the configuration in "x-licensed-licensed-<token>.exe" is not found,
      and neither is the one in "x-licensed-licensed--<token>.exe". */
  lemma LicensedTwice(lic: Server, sep: string)
    requires sep == LICENSED || sep == LICENSED2
    ensures Faithful(TinyLibrary(lic), lic)
    ensures var lib := TinyLibrary(lic);
            ParseName(lib, Stem("x-licensed", sep, GenName(lib, lic), "", "") + ".exe") == None
  {
    var lib := TinyLibrary(lic);
    TinyLibraryIsStrict(lic);
    XIsPlain(lib);
    XLicensed(sep);
    assert Lower(".exe") == ".exe";
    NameReadsBackIff(lib, lic, "x-licensed", sep, "", "", ".exe");
  }

  lemma XLicensed(sep: string)
    requires sep == LICENSED || sep == LICENSED2
    ensures PlainPrefix("x-licensed") && !Separates("x-licensed", sep)
    ensures Paired(Ahead("x-licensed", sep)) == "x"
  {
    var p := "x-licensed";
    assert p[1..] == "-licensed" && p[..1] == "x";
    assert Bare(p) == "x";
    assert TrailingDashes("x") == 0;
    assert ("x" + "-")[..1] == "x";
    assert TrailingDashes("x" + "-") == 1 + TrailingDashes(("x" + "-")[..1]);
    assert Lower(p) == p;
    forall i | 0 <= i <= |p| ensures !At(p, "host=", i) && !At(p, LICENSED, i) {
      AtChar(p, "host=", i, 0);
      AtChar(p, LICENSED, i, 9);
    }
  }

  // ----- the other form: named fields -----

  /** The part of the name that carries the fields, closed by a comma so that a suffix
      added to the file name does not garble the last one. */
  function Fields(lic: Server, junk: string): string {
    "host=" + (lic.host + ("," + ("key=" + (lic.key + ("," +
      ("api=" + (lic.api + ("," + ("relay=" + (lic.relay + ("," + junk)))))))))))
  }

  predicate NoComma(s: string) {
    ',' !in s
  }

  predicate NoField(s: string) {
    var l := Lower(s);
    !("host=" <= l) && !("key=" <= l) && !("api=" <= l) && !("relay=" <= l)
  }

  lemma SplitComma(a: string, b: string)
    requires NoComma(a)
    ensures Split(a + ("," + b), ",") == [a] + Split(b, ",")
  {
    var s := a + ("," + b);
    forall i | 0 <= i < |a| ensures !At(s, ",", i) {
      AtChar(s, ",", i, 0);
    }
    SplitSkip(a, "," + b, ",");
    SplitHit(b, ",");
    assert a + "" == a;
  }

  lemma SplitField(name: string, value: string, b: string)
    requires NoComma(name) && NoComma(value)
    ensures Split(name + (value + ("," + b)), ",") == [name + value] + Split(b, ",")
  {
    assert name + (value + ("," + b)) == (name + value) + ("," + b);
    SplitComma(name + value, b);
  }

  lemma SplitFields(lic: Server, junk: string)
    requires NoComma(lic.host) && NoComma(lic.key) && NoComma(lic.api) && NoComma(lic.relay) && NoComma(junk)
    ensures Split(Fields(lic, junk), ",") == PartsOf(lic, junk)
  {
    assert junk + "" == junk;
    forall i | 0 <= i < |junk| ensures !At(junk, ",", i) {
      AtChar(junk, ",", i, 0);
    }
    SplitSkip(junk, "", ",");
    SplitField("relay=", lic.relay, junk);
    var t3 := "relay=" + (lic.relay + ("," + junk));
    SplitField("api=", lic.api, t3);
    var t2 := "api=" + (lic.api + ("," + t3));
    SplitField("key=", lic.key, t2);
    SplitField("host=", lic.host, "key=" + (lic.key + ("," + t2)));
  }

  predicate IsField(name: string) {
    name == "host=" || name == "key=" || name == "api=" || name == "relay="
  }

  lemma FieldOf(name: string, value: string, other: string)
    requires IsField(name) && IsField(other)
    ensures other <= Lower(name + value) <==> other == name
    ensures (name + value)[|name|..] == value
  {
    LowerConcat(name, value);
    assert Lower(name) == name;
    var l := Lower(name + value);
    assert l[0] == name[0];
    assert other <= l ==> l[0] == other[0];
  }

  lemma LastFieldStep(parts: seq<string>, last: string, name: string)
    ensures LastField(parts + [last], name) == if name <= Lower(last) then last[|name|..] else LastField(parts, name)
  {
    assert (parts + [last])[..|parts|] == parts;
  }

  /** The parts of a named-field name, in order. */
  function PartsOf(lic: Server, junk: string): seq<string> {
    ["host=" + lic.host] + ["key=" + lic.key] + ["api=" + lic.api] + ["relay=" + lic.relay] + [junk]
  }

  lemma FieldInParts(lic: Server, junk: string, name: string)
    requires IsField(name) && !(name <= Lower(junk))
    ensures LastField(PartsOf(lic, junk), name)
         == if name == "host=" then lic.host
            else if name == "key=" then lic.key
            else if name == "api=" then lic.api else lic.relay
  {
    var p1 := ["host=" + lic.host];
    var p2 := p1 + ["key=" + lic.key];
    var p3 := p2 + ["api=" + lic.api];
    var p4 := p3 + ["relay=" + lic.relay];
    FieldOf("host=", lic.host, name);
    FieldOf("key=", lic.key, name);
    FieldOf("api=", lic.api, name);
    FieldOf("relay=", lic.relay, name);
    LastFieldStep(p4, junk, name);
    LastFieldStep(p3, "relay=" + lic.relay, name);
    LastFieldStep(p2, "api=" + lic.api, name);
    LastFieldStep(p1, "key=" + lic.key, name);
    LastFieldStep([], "host=" + lic.host, name);
    assert [] + p1 == p1;
  }

  lemma FieldsOfParts(lic: Server, junk: string)
    requires NoField(junk)
    ensures FromParts(PartsOf(lic, junk)) == lic
  {
    FieldInParts(lic, junk, "host=");
    FieldInParts(lic, junk, "key=");
    FieldInParts(lic, junk, "api=");
    FieldInParts(lic, junk, "relay=");
  }

  /** The first "host=" of a name is where the fields start. */
  lemma HostIsFirst(prefix: string, rest: string)
    requires !Contains(Lower(prefix), "host=") && "host=" <= rest
    ensures Contains(Lower(prefix + rest), "host=")
    ensures Find(Lower(prefix + rest), "host=", 0) == |prefix|
  {
    var p := Lower(prefix);
    var y := Lower(rest);
    LowerConcat(prefix, rest);
    var l := p + y;
    assert "host=" == ['h', 'o', 's', 't', '='];
    assert y[..5] == "host=";
    assert l[|p|..|p| + 5] == y[..5];
    assert At(l, "host=", |p|);
    forall i | 0 <= i < |p| ensures !At(l, "host=", i) {
      if i + 5 <= |p| {
        AtWithin(p, y, "host=", i);
      } else {
        AtChar(l, "host=", i, |p| - i);
        assert l[|p|] == y[0];
      }
    }
  }

  /** Named fields read back too, in any prefix, whatever suffix follows the final comma. */
  lemma FieldsReadBack(lib: Library, lic: Server, prefix: string, junk: string, ext: string)
    requires NoComma(lic.host) && NoComma(lic.key) && NoComma(lic.api) && NoComma(lic.relay)
    requires NoComma(junk) && NoField(junk) && !EndsWith(Lower(prefix + Fields(lic, junk)), ".exe")
    requires !Contains(Lower(prefix), "host=")
    requires IsExtension(ext)
    ensures ParseName(lib, prefix + Fields(lic, junk) + ext) == Some(lic)
  {
    var f := Fields(lic, junk);
    var x := prefix + f;
    StripsExtension(x, ext);
    assert "host=" <= f;
    HostIsFirst(prefix, f);
    assert x[|prefix|..] == f;
    SplitFields(lic, junk);
    FieldsOfParts(lic, junk);
  }
}
