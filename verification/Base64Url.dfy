/** Base64 with the URL-safe alphabet and no padding (section 5 of RFC 4648), strict on
    decoding: foreign characters, a lone final character and non-zero unused bits are errors. */
module Base64Url {
  import opened Common

  type sextet = x: int | 0 <= x < 64

  // ----- the alphabet -----

  function ToChar(d: sextet): char {
    if d < 26 then ('A' as int + d) as char
    else if d < 52 then ('a' as int + (d - 26)) as char
    else if d < 62 then ('0' as int + (d - 52)) as char
    else if d == 62 then '-'
    else '_'
  }

  predicate IsDigit(c: char) {
    'A' <= c <= 'Z' || 'a' <= c <= 'z' || '0' <= c <= '9' || c == '-' || c == '_'
  }

  function ToDigit(c: char): (d: sextet)
    requires IsDigit(c)
    ensures ToChar(d) == c
  {
    if 'A' <= c <= 'Z' then c as int - 'A' as int
    else if 'a' <= c <= 'z' then c as int - 'a' as int + 26
    else if '0' <= c <= '9' then c as int - '0' as int + 52
    else if c == '-' then 62
    else 63
  }

  function Chars(d: seq<sextet>): (s: string)
    ensures |s| == |d| && forall i :: 0 <= i < |d| ==> s[i] == ToChar(d[i])
  {
    seq(|d|, i requires 0 <= i < |d| => ToChar(d[i]))
  }

  predicate AllDigits(s: string) {
    forall i :: 0 <= i < |s| ==> IsDigit(s[i])
  }

  function Digits(s: string): (d: seq<sextet>)
    requires AllDigits(s)
    ensures |d| == |s| && forall i :: 0 <= i < |s| ==> d[i] == ToDigit(s[i])
  {
    seq(|s|, i requires 0 <= i < |s| => ToDigit(s[i]))
  }

  lemma DigitRoundTrip(d: sextet)
    ensures IsDigit(ToChar(d)) && ToDigit(ToChar(d)) == d
  {}

  lemma DigitsOfChars(d: seq<sextet>)
    ensures AllDigits(Chars(d)) && Digits(Chars(d)) == d
  {
    forall i | 0 <= i < |d| ensures IsDigit(Chars(d)[i]) && ToDigit(Chars(d)[i]) == d[i] {
      DigitRoundTrip(d[i]);
    }
  }

  lemma CharsOfDigits(s: string)
    requires AllDigits(s)
    ensures Chars(Digits(s)) == s
  {}

  // ----- three bytes as four sextets -----

  function S0(b0: byte): sextet { b0 / 4 }
  function S1(b0: byte, b1: byte): sextet { b0 % 4 * 16 + b1 / 16 }
  function S2(b1: byte, b2: byte): sextet { b1 % 16 * 4 + b2 / 64 }
  function S3(b2: byte): sextet { b2 % 64 }

  function B0(d0: sextet, d1: sextet): byte { d0 * 4 + d1 / 16 }
  function B1(d1: sextet, d2: sextet): byte { d1 % 16 * 16 + d2 / 4 }
  function B2(d2: sextet, d3: sextet): byte { d2 % 4 * 64 + d3 }

  lemma BytesOfSextets(b0: byte, b1: byte, b2: byte)
    ensures B0(S0(b0), S1(b0, b1)) == b0
    ensures B1(S1(b0, b1), S2(b1, b2)) == b1
    ensures B2(S2(b1, b2), S3(b2)) == b2
    ensures S1(b0, 0) % 16 == 0 && S2(b1, 0) % 4 == 0
  {}

  lemma SextetsOfBytes(d0: sextet, d1: sextet, d2: sextet, d3: sextet)
    ensures S0(B0(d0, d1)) == d0
    ensures S1(B0(d0, d1), B1(d1, d2)) == d1
    ensures S2(B1(d1, d2), B2(d2, d3)) == d2
    ensures S3(B2(d2, d3)) == d3
    ensures d1 % 16 == 0 ==> S1(B0(d0, d1), 0) == d1
    ensures d2 % 4 == 0 ==> S2(B1(d1, d2), 0) == d2
  {}

  function EncodeDigits(b: seq<byte>): seq<sextet> {
    if |b| == 0 then []
    else if |b| == 1 then [S0(b[0]), S1(b[0], 0)]
    else if |b| == 2 then [S0(b[0]), S1(b[0], b[1]), S2(b[1], 0)]
    else [S0(b[0]), S1(b[0], b[1]), S2(b[1], b[2]), S3(b[2])] + EncodeDigits(b[3..])
  }

  function DecodeDigits(d: seq<sextet>): Option<seq<byte>> {
    if |d| == 0 then Some([])
    else if |d| == 1 then None
    else if |d| == 2 then
      if d[1] % 16 != 0 then None else Some([B0(d[0], d[1])])
    else if |d| == 3 then
      if d[2] % 4 != 0 then None else Some([B0(d[0], d[1]), B1(d[1], d[2])])
    else
      match DecodeDigits(d[4..])
      case None => None
      case Some(rest) => Some([B0(d[0], d[1]), B1(d[1], d[2]), B2(d[2], d[3])] + rest)
  }

  function Encode(b: seq<byte>): string {
    Chars(EncodeDigits(b))
  }

  function Decode(s: string): Option<seq<byte>> {
    if AllDigits(s) then DecodeDigits(Digits(s)) else None
  }

  lemma DecodeBlock(d0: sextet, d1: sextet, d2: sextet, d3: sextet, rest: seq<sextet>, b: seq<byte>)
    requires DecodeDigits(rest) == Some(b)
    ensures DecodeDigits([d0, d1, d2, d3] + rest) == Some([B0(d0, d1), B1(d1, d2), B2(d2, d3)] + b)
  {
    assert ([d0, d1, d2, d3] + rest)[4..] == rest;
  }

  lemma DecodeEnds(d0: sextet, d1: sextet, d2: sextet)
    ensures d1 % 16 == 0 ==> DecodeDigits([d0, d1]) == Some([B0(d0, d1)])
    ensures d2 % 4 == 0 ==> DecodeDigits([d0, d1, d2]) == Some([B0(d0, d1), B1(d1, d2)])
  {}

  lemma DecodeEncodeOne(b0: byte)
    ensures DecodeDigits(EncodeDigits([b0])) == Some([b0])
  {
    DecodeEnds(S0(b0), S1(b0, 0), 0);
  }

  lemma DecodeEncodeTwo(b0: byte, b1: byte)
    ensures DecodeDigits(EncodeDigits([b0, b1])) == Some([b0, b1])
  {
    BytesOfSextets(b0, b1, 0);
    DecodeEnds(S0(b0), S1(b0, b1), S2(b1, 0));
  }

  lemma {:induction false} DecodeEncodeDigits(b: seq<byte>)
    ensures DecodeDigits(EncodeDigits(b)) == Some(b)
  {
    if |b| >= 3 {
      assert b == [b[0], b[1], b[2]] + b[3..];
      BytesOfSextets(b[0], b[1], b[2]);
      DecodeEncodeDigits(b[3..]);
      DecodeBlock(S0(b[0]), S1(b[0], b[1]), S2(b[1], b[2]), S3(b[2]), EncodeDigits(b[3..]), b[3..]);
    } else if |b| == 2 {
      assert b == [b[0], b[1]];
      DecodeEncodeTwo(b[0], b[1]);
    } else if |b| == 1 {
      assert b == [b[0]];
      DecodeEncodeOne(b[0]);
    }
  }

  lemma EncodeBlock(b0: byte, b1: byte, b2: byte, rest: seq<byte>)
    ensures EncodeDigits([b0, b1, b2] + rest) == [S0(b0), S1(b0, b1), S2(b1, b2), S3(b2)] + EncodeDigits(rest)
  {
    assert ([b0, b1, b2] + rest)[3..] == rest;
  }

  lemma EncodeDecodeBlock(d0: sextet, d1: sextet, d2: sextet, d3: sextet, rest: seq<byte>)
    ensures EncodeDigits([B0(d0, d1), B1(d1, d2), B2(d2, d3)] + rest) == [d0, d1, d2, d3] + EncodeDigits(rest)
  {
    SextetsOfBytes(d0, d1, d2, d3);
    EncodeBlock(B0(d0, d1), B1(d1, d2), B2(d2, d3), rest);
  }

  lemma EncodeDecodeEnds(d0: sextet, d1: sextet, d2: sextet)
    ensures d1 % 16 == 0 ==> EncodeDigits([B0(d0, d1)]) == [d0, d1]
    ensures d2 % 4 == 0 ==> EncodeDigits([B0(d0, d1), B1(d1, d2)]) == [d0, d1, d2]
  {
    SextetsOfBytes(d0, d1, d2, 0);
  }

  lemma {:induction false} EncodeDecodeDigits(d: seq<sextet>)
    ensures DecodeDigits(d).Some? ==> EncodeDigits(DecodeDigits(d).value) == d
  {
    if |d| >= 4 {
      assert d == [d[0], d[1], d[2], d[3]] + d[4..];
      EncodeDecodeDigits(d[4..]);
      if DecodeDigits(d[4..]).Some? {
        EncodeDecodeBlock(d[0], d[1], d[2], d[3], DecodeDigits(d[4..]).value);
      }
    } else if |d| == 3 {
      assert d == [d[0], d[1], d[2]];
      EncodeDecodeEnds(d[0], d[1], d[2]);
    } else if |d| == 2 {
      assert d == [d[0], d[1]];
      EncodeDecodeEnds(d[0], d[1], 0);
    }
  }

  /** Decoding undoes encoding, for every byte string. */
  lemma {:induction false} DecodeEncode(b: seq<byte>)
    ensures Decode(Encode(b)) == Some(b)
  {
    DigitsOfChars(EncodeDigits(b));
    DecodeEncodeDigits(b);
  }

  /** The decoder accepts one text per byte string: the one the encoder prints. */
  lemma EncodeDecode(s: string, b: seq<byte>)
    requires Decode(s) == Some(b)
    ensures Encode(b) == s
  {
    EncodeDecodeDigits(Digits(s));
    CharsOfDigits(s);
  }

  // ----- where the text of ASCII bytes can hold a dash -----

  predicate Ascii(b: seq<byte>) {
    forall i :: 0 <= i < |b| ==> b[i] < 128
  }

  lemma DashDigit(d: sextet)
    ensures ToChar(d) == '-' <==> d == 62
  {}

  lemma AsciiSextets(b0: byte, b1: byte, b2: byte)
    requires b0 < 128 && b1 < 128 && b2 < 128
    ensures S0(b0) != 62 && S1(b0, b1) != 62 && S2(b1, b2) != 62
  {}

  lemma AsciiBlock(b0: byte, b1: byte, b2: byte, rest: seq<sextet>, i: nat)
    requires b0 < 128 && b1 < 128 && b2 < 128
    requires i < 4 + |rest|
    requires i >= 4 && rest[i - 4] == 62 ==> (i - 4) % 4 == 3
    ensures ([S0(b0), S1(b0, b1), S2(b1, b2), S3(b2)] + rest)[i] == 62 ==> i % 4 == 3
  {
    AsciiSextets(b0, b1, b2);
  }

  lemma {:induction false} AsciiDashDigits(b: seq<byte>, i: nat)
    requires Ascii(b) && i < |EncodeDigits(b)|
    ensures EncodeDigits(b)[i] == 62 ==> i % 4 == 3
  {
    if |b| >= 3 {
      if i >= 4 {
        AsciiDashDigits(b[3..], i - 4);
      }
      AsciiBlock(b[0], b[1], b[2], EncodeDigits(b[3..]), i);
    } else if |b| == 2 {
      AsciiSextets(b[0], b[1], 0);
    } else if |b| == 1 {
      AsciiSextets(b[0], 0, 0);
    }
  }

  /** In the text of ASCII bytes a dash stands only at the last place of a group of four. */
  lemma AsciiDashes(b: seq<byte>, i: nat)
    requires Ascii(b)
    requires i < |Encode(b)| && Encode(b)[i] == '-'
    ensures i % 4 == 3
  {
    DashDigit(EncodeDigits(b)[i]);
    AsciiDashDigits(b, i);
  }

  lemma {:induction false} EncodeLastDigit(b: seq<byte>)
    requires b != [] && b[|b| - 1] == 125
    ensures EncodeDigits(b) != []
    ensures var d := EncodeDigits(b)[|EncodeDigits(b)| - 1]; d == 61 || d == 16 || d == 52
  {
    if |b| > 3 {
      EncodeLastDigit(b[3..]);
    } else if |b| == 3 {
      assert EncodeDigits(b[3..]) == [];
    }
  }

  /** The text of bytes that end in a closing brace ends in one of three characters. */
  lemma EncodeLast(b: seq<byte>)
    requires b != [] && b[|b| - 1] == '}' as int
    ensures Encode(b) != []
    ensures var c := Encode(b)[|Encode(b)| - 1]; c == '9' || c == 'Q' || c == '0'
  {
    EncodeLastDigit(b);
  }

  lemma {:induction false} EncodeLength(b: seq<byte>)
    ensures |Encode(b)| == (4 * |b| + 2) / 3
  {
    if |b| >= 3 {
      EncodeLength(b[3..]);
    }
  }

  /** A shorter text is the text of fewer bytes. */
  lemma ShorterText(b: seq<byte>, c: seq<byte>)
    requires |Encode(b)| < |Encode(c)|
    ensures |b| < |c|
  {
    EncodeLength(b);
    EncodeLength(c);
  }

  lemma EncodeFirst(b: seq<byte>)
    requires b != [] && b[0] == '{' as int
    ensures Encode(b) != [] && Encode(b)[0] == 'e'
  {}

  lemma DecodeFour(d0: sextet, d1: sextet, d2: sextet, d3: sextet)
    ensures DecodeDigits([d0, d1, d2, d3]) == Some([B0(d0, d1), B1(d1, d2), B2(d2, d3)])
    ensures d2 % 4 != 0 ==> DecodeDigits([d0, d1, d2]) == None
  {
    assert [d0, d1, d2, d3] + [] == [d0, d1, d2, d3];
    DecodeBlock(d0, d1, d2, d3, [], []);
    var b := [B0(d0, d1), B1(d1, d2), B2(d2, d3)];
    assert b + [] == b;
  }

  lemma DecodeLongerDigits(block: seq<sextet>, x: seq<sextet>, d: seq<sextet>, c: seq<byte>)
    requires |block| == 4
    requires c == [B0(block[0], block[1]), B1(block[1], block[2]), B2(block[2], block[3])]
    ensures DecodeDigits((block + x) + d)
         == if DecodeDigits(x + d).Some? then Some(c + DecodeDigits(x + d).value) else None
  {
    assert (block + x) + d == block + (x + d);
    assert (block + (x + d))[4..] == x + d;
  }

  lemma DecodeLongerBlock(b0: byte, b1: byte, b2: byte, rest: seq<byte>, d: seq<sextet>, r: Option<seq<byte>>)
    requires DecodeDigits(EncodeDigits(rest) + d) == r
    ensures DecodeDigits(EncodeDigits([b0, b1, b2] + rest) + d)
         == if r.Some? then Some([b0, b1, b2] + r.value) else None
  {
    BytesOfSextets(b0, b1, b2);
    EncodeBlock(b0, b1, b2, rest);
    var block := [S0(b0), S1(b0, b1), S2(b1, b2), S3(b2)];
    DecodeLongerDigits(block, EncodeDigits(rest), d, [b0, b1, b2]);
  }

  // ----- what a text decodes to when a dash and anything else follow it -----

  /** Nothing, or the bytes `b` with more after them, the first of which no JSON text may
      have after its value. */
  predicate IsOverrun(b: seq<byte>, r: Option<seq<byte>>) {
    r.Some? ==> b < r.value && (r.value[|b|] == 15 || r.value[|b|] == 62 || r.value[|b|] >= 248)
  }

  lemma OverrunAfter(a: seq<byte>, b: seq<byte>, r: seq<byte>)
    requires IsOverrun(b, Some(r))
    ensures IsOverrun(a + b, Some(a + r))
  {
    assert (a + r)[|a + b|] == r[|b|];
    assert (a + r)[..|a + b|] == a + b;
  }

  lemma OverrunNone(d: seq<sextet>)
    ensures IsOverrun([], DecodeDigits([62] + d))
  {}

  lemma DecodeHead(d: seq<sextet>)
    requires |d| >= 4
    ensures DecodeDigits(d).Some? ==>
              var b := DecodeDigits(d).value;
              |b| >= 3 && b[0] == B0(d[0], d[1]) && b[1] == B1(d[1], d[2]) && b[2] == B2(d[2], d[3])
  {}

  lemma DashAfterOne(b0: byte)
    ensures B0(S0(b0), S1(b0, 0)) == b0 && B1(S1(b0, 0), 62) == 15
  {}

  lemma OverrunOne(b0: byte, d: seq<sextet>)
    ensures IsOverrun([b0], DecodeDigits([S0(b0), S1(b0, 0), 62] + d))
  {
    var d0, d1 := S0(b0), S1(b0, 0);
    DashAfterOne(b0);
    if d == [] {
      DecodeFour(d0, d1, 62, 0);
      assert [d0, d1, 62] + d == [d0, d1, 62];
    } else {
      DecodeHead([d0, d1, 62] + d);
    }
  }

  lemma OverrunTwo(b0: byte, b1: byte, d: seq<sextet>)
    ensures IsOverrun([b0, b1], DecodeDigits([S0(b0), S1(b0, b1), S2(b1, 0), 62] + d))
  {
    BytesOfSextets(b0, b1, 0);
    assert B2(S2(b1, 0), 62) == 62;
    DecodeHead([S0(b0), S1(b0, b1), S2(b1, 0), 62] + d);
  }

  lemma {:induction false} OverrunDigits(b: seq<byte>, d: seq<sextet>)
    ensures IsOverrun(b, DecodeDigits(EncodeDigits(b) + ([62] + d)))
  {
    if |b| >= 3 {
      assert b == [b[0], b[1], b[2]] + b[3..];
      OverrunDigits(b[3..], d);
      var r := DecodeDigits(EncodeDigits(b[3..]) + ([62] + d));
      DecodeLongerBlock(b[0], b[1], b[2], b[3..], [62] + d, r);
      if r.Some? {
        OverrunAfter([b[0], b[1], b[2]], b[3..], r.value);
      }
    } else if |b| == 2 {
      assert b == [b[0], b[1]];
      OverrunTwo(b[0], b[1], d);
      assert EncodeDigits(b) + ([62] + d) == [S0(b[0]), S1(b[0], b[1]), S2(b[1], 0), 62] + d;
    } else if |b| == 1 {
      assert b == [b[0]];
      OverrunOne(b[0], d);
      assert EncodeDigits(b) + ([62] + d) == [S0(b[0]), S1(b[0], 0), 62] + d;
    } else {
      assert b == [];
      OverrunNone(d);
      assert EncodeDigits(b) + ([62] + d) == [62] + d;
    }
  }

  lemma DigitsConcat(x: string, y: string)
    ensures AllDigits(x + y) <==> AllDigits(x) && AllDigits(y)
    ensures AllDigits(x + y) ==> Digits(x + y) == Digits(x) + Digits(y)
  {
    assert forall i :: 0 <= i < |x| ==> x[i] == (x + y)[i];
    assert forall i :: 0 <= i < |y| ==> y[i] == (x + y)[|x| + i];
  }

  /** A dash and any text after a complete text make it undecodable, or add bytes that begin
      with one no JSON text may have after its value. */
  lemma DecodeOverrun(b: seq<byte>, s: string)
    ensures IsOverrun(b, Decode(Encode(b) + ("-" + s)))
  {
    DigitsConcat(Encode(b), "-" + s);
    DigitsConcat("-", s);
    if AllDigits(Encode(b) + ("-" + s)) {
      DigitsOfChars(EncodeDigits(b));
      assert Digits("-") == [62];
      OverrunDigits(b, Digits(s));
    }
  }

  // ----- text outside ASCII -----

  lemma {:induction false} EncodeConcat(a: seq<byte>, b: seq<byte>)
    requires |a| % 3 == 0
    ensures EncodeDigits(a + b) == EncodeDigits(a) + EncodeDigits(b)
  {
    if a == [] {
      assert a + b == b;
    } else {
      assert a + b == [a[0], a[1], a[2]] + (a[3..] + b);
      assert a == [a[0], a[1], a[2]] + a[3..];
      EncodeConcat(a[3..], b);
      EncodeBlock(a[0], a[1], a[2], a[3..] + b);
      EncodeBlock(a[0], a[1], a[2], a[3..]);
    }
  }

  /** The UTF-8 text of 'c' and a fullwidth exclamation mark (63 EF BC 81) prints the
      separator "--" when it begins at a multiple of three bytes. */
  lemma FullwidthPrintsDashes(a: seq<byte>, z: seq<byte>)
    requires |a| % 3 == 0
    ensures var t := Encode(a + ([0x63, 0xEF, 0xBC] + z));
            var i := |Encode(a)| + 1;
            i + 2 <= |t| && t[i] == '-' && t[i + 1] == '-'
  {
    EncodeConcat(a, [0x63, 0xEF, 0xBC] + z);
    EncodeBlock(0x63, 0xEF, 0xBC, z);
    FullwidthSextets();
  }

  lemma FullwidthSextets()
    ensures S1(0x63, 0xEF) == 62 && S2(0xEF, 0xBC) == 62
  {}
}
