/** The string operations the file-name parser relies on, with the laws used about them. */
module Text {

  /** `p` occurs in `s` at position `i`. */
  predicate At(s: string, p: string, i: nat) {
    i + |p| <= |s| && s[i..i + |p|] == p
  }

  lemma AtChar(s: string, p: string, i: nat, k: nat)
    requires k < |p|
    ensures At(s, p, i) ==> i + k < |s| && s[i + k] == p[k]
  {
    if At(s, p, i) {
      assert s[i..i + |p|][k] == s[i + k];
    }
  }

  lemma AtWithin(a: string, y: string, p: string, i: nat)
    requires i + |p| <= |a|
    ensures At(a + y, p, i) <==> At(a, p, i)
  {
    assert (a + y)[i..i + |p|] == a[i..i + |p|];
  }

  lemma AtSuffix(a: string, y: string, p: string, i: nat)
    requires |a| <= i
    ensures At(a + y, p, i) <==> At(y, p, i - |a|)
  {
    var s := a + y;
    if i + |p| <= |s| {
      assert s[i..i + |p|] == y[i - |a|..i - |a| + |p|];
    }
  }

  predicate Contains(s: string, p: string) {
    exists i :: 0 <= i <= |s| && At(s, p, i)
  }

  predicate EndsWith(s: string, p: string) {
    |p| <= |s| && s[|s| - |p|..] == p
  }

  function Reverse(s: string): (r: string)
    ensures |r| == |s| && forall i :: 0 <= i < |s| ==> r[i] == s[|s| - 1 - i]
  {
    seq(|s|, i requires 0 <= i < |s| => s[|s| - 1 - i])
  }

  lemma ReverseTwice(s: string)
    ensures Reverse(Reverse(s)) == s
  {}

  // ----- letter case -----

  function LowerChar(c: char): char {
    if 'A' <= c <= 'Z' then (c as int + 32) as char else c
  }

  function Lower(s: string): (r: string)
    ensures |r| == |s| && forall i :: 0 <= i < |s| ==> r[i] == LowerChar(s[i])
  {
    seq(|s|, i requires 0 <= i < |s| => LowerChar(s[i]))
  }

  lemma LowerConcat(a: string, b: string)
    ensures Lower(a + b) == Lower(a) + Lower(b)
  {}

  // ----- white space -----

  /** The characters with the Unicode White_Space property. */
  predicate IsSpace(c: char) {
    var x := c as int;
    || 0x9 <= x <= 0xD || x == 0x20 || x == 0x85 || x == 0xA0 || x == 0x1680
    || 0x2000 <= x <= 0x200A || x == 0x2028 || x == 0x2029 || x == 0x202F
    || x == 0x205F || x == 0x3000
  }

  predicate AllSpace(s: string) {
    forall i :: 0 <= i < |s| ==> IsSpace(s[i])
  }

  function TrimStart(s: string): string {
    if s != [] && IsSpace(s[0]) then TrimStart(s[1..]) else s
  }

  function TrimEnd(s: string): string {
    if s != [] && IsSpace(s[|s| - 1]) then TrimEnd(s[..|s| - 1]) else s
  }

  function Trim(s: string): string {
    TrimEnd(TrimStart(s))
  }

  lemma {:induction false} TrimEndBlanks(a: string, blanks: string)
    requires AllSpace(blanks)
    requires a == [] || !IsSpace(a[|a| - 1])
    ensures TrimEnd(a + blanks) == a
  {
    if blanks == [] {
      assert a + blanks == a;
    } else {
      var s := a + blanks;
      assert s[..|s| - 1] == a + blanks[..|blanks| - 1];
      TrimEndBlanks(a, blanks[..|blanks| - 1]);
    }
  }

  lemma {:induction false} TrimStartBlanks(blanks: string, a: string)
    requires AllSpace(blanks)
    requires a == [] || !IsSpace(a[0])
    ensures TrimStart(blanks + a) == a
    decreases |blanks|
  {
    if blanks == [] {
      assert blanks + a == a;
    } else {
      assert (blanks + a)[1..] == blanks[1..] + a;
      TrimStartBlanks(blanks[1..], a);
    }
  }

  /** Trimming takes white space off both ends and nothing else. */
  lemma TrimBoth(before: string, a: string, after: string)
    requires AllSpace(before) && AllSpace(after)
    requires a != [] && !IsSpace(a[0]) && !IsSpace(a[|a| - 1])
    ensures Trim(before + (a + after)) == a
  {
    assert (a + after)[0] == a[0];
    TrimStartBlanks(before, a + after);
    TrimEndBlanks(a, after);
  }

  /** Trimming keeps every character that is not white space. */
  lemma {:induction false} TrimStartKeeps(s: string, c: char)
    requires c in s && !IsSpace(c)
    ensures c in TrimStart(s)
  {
    if IsSpace(s[0]) {
      TrimStartKeeps(s[1..], c);
    }
  }

  lemma {:induction false} TrimEndKeeps(s: string, c: char)
    requires c in s && !IsSpace(c)
    ensures c in TrimEnd(s)
  {
    if IsSpace(s[|s| - 1]) {
      TrimEndKeeps(s[..|s| - 1], c);
    }
  }

  // ----- replace and split, left to right and without overlaps -----

  function Replace(s: string, p: string, w: string): string
    requires |p| > 0
    decreases |s|
  {
    if |s| < |p| then s
    else if s[..|p|] == p then w + Replace(s[|p|..], p, w)
    else [s[0]] + Replace(s[1..], p, w)
  }

  function Split(s: string, p: string): (r: seq<string>)
    requires |p| > 0
    ensures |r| > 0
    decreases |s|
  {
    if |s| < |p| then [s]
    else if s[..|p|] == p then [""] + Split(s[|p|..], p)
    else
      var rest := Split(s[1..], p);
      [[s[0]] + rest[0]] + rest[1..]
  }

  /** `p` occurs nowhere in `s` at the first `n` positions. */
  ghost predicate FreeBefore(s: string, p: string, n: nat) {
    forall i :: 0 <= i < n ==> !At(s, p, i)
  }

  lemma FreeShift(s: string, p: string, n: nat)
    requires n > 0 && s != [] && FreeBefore(s, p, n)
    ensures FreeBefore(s[1..], p, n - 1)
  {
    forall i | 0 <= i < n - 1 ensures !At(s[1..], p, i) {
      if At(s[1..], p, i) {
        assert s[1..][i..i + |p|] == s[i + 1..i + 1 + |p|];
        assert At(s, p, i + 1);
      }
    }
  }

  lemma Regroup<T>(x: seq<T>, y: seq<T>, z: seq<T>)
    ensures (x + y) + z == x + (y + z)
  {}

  lemma StartsWith(a: string, b: string, n: nat)
    requires n <= |a|
    ensures a == a[..n] + a[n..] && a + b == a[..n] + (a[n..] + b)
    ensures a != [] ==> a + b != [] && (a + b)[0] == a[0] && (a + b)[1..] == a[1..] + b
  {}

  lemma ReplaceMiss(s: string, p: string, w: string)
    requires |p| > 0 && s != [] && !At(s, p, 0)
    ensures Replace(s, p, w) == [s[0]] + Replace(s[1..], p, w)
  {}

  lemma {:induction false} ReplaceSkip(a: string, b: string, p: string, w: string)
    requires |p| > 0 && FreeBefore(a + b, p, |a|)
    ensures Replace(a + b, p, w) == a + Replace(b, p, w)
    decreases |a|
  {
    if a == [] {
      assert a + b == b;
    } else {
      var s := a + b;
      StartsWith(a, b, 1);
      FreeShift(s, p, |a|);
      assert !At(s, p, 0);
      ReplaceSkip(a[1..], b, p, w);
      ReplaceMiss(s, p, w);
      StartsWith(a, Replace(b, p, w), 1);
    }
  }

  lemma ReplaceHit(b: string, p: string, w: string)
    requires |p| > 0
    ensures Replace(p + b, p, w) == w + Replace(b, p, w)
  {
    assert (p + b)[..|p|] == p && (p + b)[|p|..] == b;
  }

  lemma {:induction false} SplitSkip(a: string, b: string, p: string)
    requires |p| > 0 && FreeBefore(a + b, p, |a|)
    ensures Split(a + b, p) == [a + Split(b, p)[0]] + Split(b, p)[1..]
  {
    if a == [] {
      assert a + b == b;
      assert a + Split(b, p)[0] == Split(b, p)[0];
    } else {
      var s := a + b;
      assert s[1..] == a[1..] + b;
      FreeShift(s, p, |a|);
      SplitSkip(a[1..], b, p);
      assert !At(s, p, 0);
      assert [a[0]] + (a[1..] + Split(b, p)[0]) == a + Split(b, p)[0];
    }
  }

  lemma SplitHit(b: string, p: string)
    requires |p| > 0
    ensures Split(p + b, p) == [""] + Split(b, p)
  {
    assert (p + b)[..|p|] == p && (p + b)[|p|..] == b;
  }

  // ----- replace and split of two texts no occurrence lies across -----

  ghost predicate Apart(a: string, b: string, p: string) {
    forall i :: 0 <= i < |a| && At(a + b, p, i) ==> i + |p| <= |a|
  }

  lemma ApartTail(a: string, b: string, p: string, n: nat)
    requires n <= |a| && Apart(a, b, p)
    ensures Apart(a[n..], b, p)
  {
    assert a + b == a[..n] + (a[n..] + b);
    forall i | 0 <= i < |a[n..]| && At(a[n..] + b, p, i) ensures i + |p| <= |a[n..]| {
      AtSuffix(a[..n], a[n..] + b, p, n + i);
    }
  }

  lemma ApartHead(a: string, b: string, p: string)
    requires a != [] && Apart(a, b, p)
    ensures At(a + b, p, 0) <==> At(a, p, 0)
  {
    if |p| <= |a| {
      AtWithin(a, b, p, 0);
    }
  }

  lemma {:induction false} ReplaceConcat(a: string, b: string, p: string, w: string)
    requires |p| > 0 && Apart(a, b, p)
    ensures Replace(a + b, p, w) == Replace(a, p, w) + Replace(b, p, w)
    decreases |a|
  {
    if a == [] {
      assert a + b == b;
    } else {
      ApartHead(a, b, p);
      if At(a, p, 0) {
        StartsWith(a, b, |p|);
        ApartTail(a, b, p, |p|);
        ReplaceConcat(a[|p|..], b, p, w);
        ReplaceHit(a[|p|..], p, w);
        ReplaceHit(a[|p|..] + b, p, w);
        Regroup(w, Replace(a[|p|..], p, w), Replace(b, p, w));
      } else {
        StartsWith(a, b, 1);
        ApartTail(a, b, p, 1);
        ReplaceConcat(a[1..], b, p, w);
        ReplaceMiss(a, p, w);
        ReplaceMiss(a + b, p, w);
        Regroup([a[0]], Replace(a[1..], p, w), Replace(b, p, w));
      }
    }
  }

  lemma SplitMiss(s: string, p: string)
    requires |p| > 0 && s != [] && !At(s, p, 0)
    ensures Split(s, p) == [[s[0]] + Split(s[1..], p)[0]] + Split(s[1..], p)[1..]
  {
    if |s| < |p| {
      assert Split(s, p) == [s] && Split(s[1..], p) == [s[1..]];
      assert [s[0]] + s[1..] == s;
    } else {
      assert s[..|p|] != p;
    }
  }

  /** The pieces of two texts written one after the other. */
  function Joined(x: seq<string>, y: seq<string>): seq<string>
    requires x != [] && y != []
  {
    x[..|x| - 1] + ([x[|x| - 1] + y[0]] + y[1..])
  }

  lemma JoinedFirst(c: char, x: seq<string>, y: seq<string>)
    requires x != [] && y != []
    ensures Joined([""] + x, y) == [""] + Joined(x, y)
    ensures Joined([[c] + x[0]] + x[1..], y) == [[c] + Joined(x, y)[0]] + Joined(x, y)[1..]
  {
    assert ([""] + x)[..|x|] == [""] + x[..|x| - 1];
    var cx := [[c] + x[0]] + x[1..];
    if |x| == 1 {
      assert [c] + (x[0] + y[0]) == ([c] + x[0]) + y[0];
    } else {
      assert cx[..|x| - 1] == [[c] + x[0]] + x[1..|x| - 1];
      assert x[..|x| - 1] == [x[0]] + x[1..|x| - 1];
    }
  }

  lemma {:induction false} SplitConcat(a: string, b: string, p: string)
    requires |p| > 0 && Apart(a, b, p)
    ensures Split(a + b, p) == Joined(Split(a, p), Split(b, p))
    decreases |a|
  {
    if a == [] {
      assert a + b == b;
      assert "" + Split(b, p)[0] == Split(b, p)[0];
    } else {
      ApartHead(a, b, p);
      if At(a, p, 0) {
        StartsWith(a, b, |p|);
        ApartTail(a, b, p, |p|);
        SplitConcat(a[|p|..], b, p);
        SplitHit(a[|p|..], p);
        SplitHit(a[|p|..] + b, p);
        JoinedFirst(a[0], Split(a[|p|..], p), Split(b, p));
      } else {
        StartsWith(a, b, 1);
        ApartTail(a, b, p, 1);
        SplitConcat(a[1..], b, p);
        SplitMiss(a, p);
        SplitMiss(a + b, p);
        JoinedFirst(a[0], Split(a[1..], p), Split(b, p));
      }
    }
  }

  // ----- what replacing and splitting leave -----

  lemma {:induction false} ReplaceLength(s: string, p: string, w: string)
    requires |w| < |p|
    ensures |Replace(s, p, w)| <= |s|
    ensures (exists i :: 0 <= i < |s| && At(s, p, i)) ==> |Replace(s, p, w)| < |s|
    decreases |s|
  {
    if s == [] {
    } else if At(s, p, 0) {
      ReplaceLength(s[|p|..], p, w);
    } else {
      ReplaceMiss(s, p, w);
      ReplaceLength(s[1..], p, w);
      if i :| 0 <= i < |s| && At(s, p, i) {
        assert s == s[..1] + s[1..];
        AtSuffix(s[..1], s[1..], p, i);
        assert At(s[1..], p, i - 1);
      }
    }
  }

  lemma {:induction false} SplitFirst(s: string, p: string)
    requires |p| > 0
    ensures Split(s, p)[0] <= s
    decreases |s|
  {
    if s != [] && !At(s, p, 0) {
      SplitMiss(s, p);
      SplitFirst(s[1..], p);
    }
  }

  lemma ContainsIn(a: string, b: string, z: string, x: string)
    requires Contains(b, x)
    ensures Contains(a + (b + z), x)
  {
    var i :| 0 <= i <= |b| && At(b, x, i);
    AtWithin(b, z, x, i);
    AtSuffix(a, b + z, x, |a| + i);
    assert At(a + (b + z), x, |a| + i);
  }

  lemma ContainsTail(s: string, n: nat, x: string)
    requires n <= |s| && Contains(s[n..], x)
    ensures Contains(s, x)
  {
    assert s == s[..n] + (s[n..] + "");
    ContainsIn(s[..n], s[n..], "", x);
  }

  lemma WholeIsContained(s: string, x: string)
    requires Contains(s, x)
    ensures |x| <= |s| && (|x| == |s| ==> x == s)
  {
    var i :| 0 <= i <= |s| && At(s, x, i);
    if |x| == |s| {
      assert s[0..|s|] == s;
    }
  }

  lemma PrefixIsContained(s: string, x: string)
    requires x <= s
    ensures Contains(s, x)
  {
    assert At(s, x, 0);
  }

  lemma FreeTail(x: string, p: string)
    requires x != [] && FreeBefore(x, p, |x|)
    ensures FreeBefore(x[1..], p, |x| - 1)
  {
    FreeShift(x, p, |x|);
  }

  lemma NoDashPair(y: string)
    requires FreeBefore(y, "--", |y|)
    ensures |y| >= 2 ==> y[0] != '-' || y[1] != '-'
  {
    if |y| >= 2 {
      assert !At(y, "--", 0);
      assert y[..2] == [y[0], y[1]];
    }
  }

  /** A replacement of a pattern in dashes by "--" makes no new text without "--": what
      stands at the front of the result stood there before ... */
  lemma {:induction false} ReplacedFront(s: string, p: string, y: string)
    requires |p| > 0 && p[0] == '-'
    requires y <= Replace(s, p, "--") && FreeBefore(y, "--", |y|)
    ensures y <= s
    decreases |s|
  {
    if y != [] && s != [] {
      if At(s, p, 0) {
        NoDashPair(y);
        ReplaceAtStart(s, p, "--");
        assert y == [y[0]] && s[0] == p[0] == '-';
      } else {
        ReplaceMiss(s, p, "--");
        FreeTail(y, "--");
        ReplacedFront(s[1..], p, y[1..]);
        assert y == [s[0]] + y[1..];
      }
    }
  }

  lemma ReplaceAtStart(s: string, p: string, w: string)
    requires |p| > 0 && At(s, p, 0)
    ensures Replace(s, p, w) == w + Replace(s[|p|..], p, w)
  {}

  lemma AfterFirstDash(r: string, x: string)
    requires At("--" + r, x, 1) && x != []
    ensures x == ['-'] + x[1..] && x[1..] <= r
  {
    assert x[0] == ("--" + r)[1];
    assert x[1..] == ("--" + r)[2..|x| + 1] == r[..|x| - 1];
  }

  lemma LastDashThen(s: string, p: string, y: string)
    requires |p| > 1 && p[|p| - 1] == '-' && At(s, p, 0) && y <= s[|p|..]
    ensures Contains(s, ['-'] + y)
  {
    var n := |p| - 1;
    AtChar(s, p, 0, n);
    assert s[n..] == [s[n]] + s[|p|..];
    PrefixIsContained(s[n..], ['-'] + y);
    ContainsTail(s, n, ['-'] + y);
  }

  /** The second dash of a replacement is the last one of what it replaced. */
  lemma SecondDash(s: string, p: string, x: string)
    requires |p| > 1 && p[0] == '-' && p[|p| - 1] == '-' && At(s, p, 0)
    requires At("--" + Replace(s[|p|..], p, "--"), x, 1) && x != [] && FreeBefore(x, "--", |x|)
    ensures Contains(s, x)
  {
    AfterFirstDash(Replace(s[|p|..], p, "--"), x);
    FreeTail(x, "--");
    ReplacedFront(s[|p|..], p, x[1..]);
    LastDashThen(s, p, x[1..]);
  }

  /** ... and what stands anywhere in it stood somewhere before. */
  lemma {:induction false} ReplacedPart(s: string, p: string, i: nat, x: string)
    requires |p| > 1 && p[0] == '-' && p[|p| - 1] == '-'
    requires At(Replace(s, p, "--"), x, i) && FreeBefore(x, "--", |x|)
    ensures Contains(s, x)
    decreases |s|
  {
    if x == [] {
      PrefixIsContained(s, x);
    } else if i == 0 {
      assert x <= Replace(s, p, "--");
      ReplacedFront(s, p, x);
      PrefixIsContained(s, x);
    } else if At(s, p, 0) {
      ReplaceAtStart(s, p, "--");
      if i == 1 {
        SecondDash(s, p, x);
      } else {
        AtSuffix("--", Replace(s[|p|..], p, "--"), x, i);
        ReplacedPart(s[|p|..], p, i - 2, x);
        ContainsTail(s, |p|, x);
      }
    } else {
      ReplaceMiss(s, p, "--");
      AtSuffix([s[0]], Replace(s[1..], p, "--"), x, i);
      ReplacedPart(s[1..], p, i - 1, x);
      ContainsTail(s, 1, x);
    }
  }

  /** A piece is a part of the whole. */
  lemma {:induction false} PieceIsContained(s: string, p: string, j: nat)
    requires |p| > 0 && j < |Split(s, p)|
    ensures Contains(s, Split(s, p)[j])
    decreases |s|
  {
    if j == 0 {
      SplitFirst(s, p);
      PrefixIsContained(s, Split(s, p)[0]);
    } else if s == [] {
    } else if At(s, p, 0) {
      PieceIsContained(s[|p|..], p, j - 1);
      ContainsTail(s, |p|, Split(s, p)[j]);
    } else {
      SplitMiss(s, p);
      PieceIsContained(s[1..], p, j);
      ContainsTail(s, 1, Split(s, p)[j]);
    }
  }

  /** No piece holds the separator, and none is longer than the whole. */
  lemma {:induction false} PieceIsFree(s: string, p: string, j: nat)
    requires |p| > 0 && j < |Split(s, p)|
    ensures var x := Split(s, p)[j]; |x| <= |s| && FreeBefore(x, p, |x|)
    decreases |s|
  {
    if s == [] {
    } else if At(s, p, 0) {
      if j > 0 {
        PieceIsFree(s[|p|..], p, j - 1);
      }
    } else {
      SplitMiss(s, p);
      var x := Split(s[1..], p)[j];
      PieceIsFree(s[1..], p, j);
      if j == 0 {
        SplitFirst(s, p);
        FreeInFront(s, Split(s, p)[0], x, p);
      }
    }
  }

  lemma FreeInFront(s: string, y: string, x: string, p: string)
    requires |p| > 0 && s != [] && !At(s, p, 0) && y <= s && y == [s[0]] + x && FreeBefore(x, p, |x|)
    ensures FreeBefore(y, p, |y|)
  {
    assert s == y + s[|y|..];
    forall i | 0 <= i < |y| ensures !At(y, p, i) {
      if i == 0 {
        if |p| <= |y| {
          AtWithin(y, s[|y|..], p, 0);
        }
      } else {
        AtSuffix([s[0]], x, p, i);
      }
    }
  }

  // ----- the separator "--" -----

  /** Length of the run of dashes `s` ends in. */
  function TrailingDashes(s: string): (n: nat)
    ensures n <= |s|
  {
    if s == [] || s[|s| - 1] != '-' then 0 else 1 + TrailingDashes(s[..|s| - 1])
  }

  lemma {:induction false} TrailingDashesTail(s: string)
    requires s != []
    ensures TrailingDashes(s) == if TrailingDashes(s) == |s| then TrailingDashes(s[1..]) + 1 else TrailingDashes(s[1..])
    ensures TrailingDashes(s) == |s| <==> s[0] == '-' && TrailingDashes(s[1..]) == |s| - 1
  {
    if |s| > 1 && s[|s| - 1] == '-' {
      assert s[1..][..|s| - 2] == s[..|s| - 1][1..];
      TrailingDashesTail(s[..|s| - 1]);
    }
  }

  /** Splitting at "--" cuts at a "--" that follows `a` exactly when the dashes `a` ends in
      pair up. */
  lemma {:induction false} SplitAtDashes(a: string, b: string)
    requires TrailingDashes(a) % 2 == 0
    ensures Split(a + ("--" + b), "--") == Split(a, "--") + Split(b, "--")
    decreases |a|
  {
    var t := "--" + b;
    SplitHit(b, "--");
    if a == [] {
      assert a + t == t;
    } else if |a| == 1 {
      assert a[0] != '-';
      assert (a + t)[1..] == t;
      assert [a[0]] + "" == a;
    } else {
      TrailingDashesTail(a);
      TrailingDashesTail(a[1..]);
      StartsWith(a, t, 1);
      StartsWith(a, t, 2);
      assert a[1..][1..] == a[2..];
      assert a[..2] == [a[0], a[1]];
      if a[0] == '-' && a[1] == '-' {
        SplitAtDashes(a[2..], b);
        SplitHit(a[2..] + t, "--");
        SplitHit(a[2..], "--");
      } else {
        AtChar(a, "--", 0, 0);
        AtChar(a, "--", 0, 1);
        AtWithin(a, t, "--", 0);
        SplitAtDashes(a[1..], b);
        SplitMiss(a, "--");
        SplitMiss(a + t, "--");
      }
    }
  }
}
