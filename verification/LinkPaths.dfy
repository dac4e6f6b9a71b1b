/** Paths of archive members and link targets (scripts/extract_source_archive.py). */
module LinkPaths {
  import opened Common

  /** A path by its parts, as the library splits it: an absolute path starts with "/". */
  type Path = seq<string>

  const UP := ".."

  predicate IsAbsolute(p: Path) {
    p != [] && p[0] == "/"
  }

  predicate IsTrivial(part: string) {
    part == "" || part == "."
  }

  predicate IsName(part: string) {
    !IsTrivial(part) && part != UP
  }

  // ----- member names -----

  datatype Stripped = Skipped | Unsafe | Relative(path: Path)

  function StrippedPath(parts: Path, strip: nat): Stripped {
    if |parts| <= strip then Skipped
    else
      var relative := parts[strip..];
      if IsAbsolute(relative) || UP in relative then Unsafe else Relative(relative)
  }

  // ----- link targets -----

  function Join(parent: Path, target: Path): Path {
    if IsAbsolute(target) then target else parent + target
  }

  /** Walking `parts` from the directory `stack`; leaving the top is an error. */
  function Walk(stack: Path, parts: Path): Option<Path>
    decreases |parts|
  {
    if parts == [] then Some(stack)
    else if IsTrivial(parts[0]) then Walk(stack, parts[1..])
    else if parts[0] == UP then
      if stack == [] then None else Walk(stack[..|stack| - 1], parts[1..])
    else Walk(stack + [parts[0]], parts[1..])
  }

  function Normalise(parts: Path): Option<Path> {
    Walk([], parts)
  }

  function LinkTarget(path: Path, linkname: Path, symbolic: bool): Path {
    if symbolic then Join(if path == [] then [] else path[..|path| - 1], linkname) else linkname
  }

  method ResolveLink(path: Path, linkname: Path, symbolic: bool) returns (r: Option<Path>)
    ensures r == Normalise(LinkTarget(path, linkname, symbolic))
  {
    var target := linkname;
    if symbolic {
      target := Join(if path == [] then [] else path[..|path| - 1], linkname);
    }
    var normalized: Path := [];
    for i := 0 to |target|
      invariant Normalise(target) == Walk(normalized, target[i..])
    {
      assert target[i..][1..] == target[i + 1..];
      var part := target[i];
      if part == "" || part == "." {
        continue;
      }
      if part == ".." {
        if normalized == [] {
          return None;
        }
        normalized := normalized[..|normalized| - 1];
      } else {
        normalized := normalized + [part];
      }
    }
    r := Some(normalized);
  }

  // ----- when the walk fails -----

  /** Names minus "..": how deep a list of parts leads. */
  function Depth(parts: Path): int {
    if parts == [] then 0
    else Depth(parts[..|parts| - 1]) + PartDepth(parts[|parts| - 1])
  }

  function PartDepth(part: string): int {
    if IsTrivial(part) then 0 else if part == UP then -1 else 1
  }

  lemma {:induction false} DepthFront(parts: Path)
    requires parts != []
    ensures Depth(parts) == PartDepth(parts[0]) + Depth(parts[1..])
  {
    if |parts| > 1 {
      assert parts[..|parts| - 1][1..] == parts[1..][..|parts| - 2];
      DepthFront(parts[..|parts| - 1]);
    }
  }

  /** Some prefix of `parts` climbs above `room` levels. */
  ghost predicate Escapes(parts: Path, room: nat) {
    exists k :: 0 <= k <= |parts| && room + Depth(parts[..k]) < 0
  }

  lemma EscapesFront(parts: Path, room: nat)
    requires parts != [] && room + PartDepth(parts[0]) >= 0
    ensures Escapes(parts, room) <==> Escapes(parts[1..], room + PartDepth(parts[0]))
  {
    var d := room + PartDepth(parts[0]);
    forall k | 1 <= k <= |parts| ensures Depth(parts[..k]) == PartDepth(parts[0]) + Depth(parts[1..][..k - 1]) {
      DepthFront(parts[..k]);
      assert parts[..k][1..] == parts[1..][..k - 1];
    }
    if Escapes(parts, room) {
      var k :| 0 <= k <= |parts| && room + Depth(parts[..k]) < 0;
      assert k > 0;
      assert d + Depth(parts[1..][..k - 1]) < 0;
    }
    if Escapes(parts[1..], d) {
      var k :| 0 <= k <= |parts[1..]| && d + Depth(parts[1..][..k]) < 0;
      assert room + Depth(parts[..k + 1]) < 0;
    }
  }

  lemma {:induction false} WalkFailsIff(stack: Path, parts: Path)
    ensures Walk(stack, parts).None? <==> Escapes(parts, |stack|)
    decreases |parts|
  {
    if parts == [] {
    } else if IsTrivial(parts[0]) {
      EscapesFront(parts, |stack|);
      WalkFailsIff(stack, parts[1..]);
    } else if parts[0] == UP {
      if stack == [] {
        assert parts[..1] == [UP] && parts[..1][..0] == [];
        assert Depth(parts[..1]) == -1;
      } else {
        EscapesFront(parts, |stack|);
        WalkFailsIff(stack[..|stack| - 1], parts[1..]);
      }
    } else {
      EscapesFront(parts, |stack|);
      WalkFailsIff(stack + [parts[0]], parts[1..]);
    }
  }

  /** A link is refused exactly when some prefix of its parts has more ".." than names. */
  lemma RefusedIff(parts: Path)
    ensures Normalise(parts).None? <==> Escapes(parts, 0)
  {
    WalkFailsIff([], parts);
  }

  // ----- what the walk returns -----

  ghost predicate IsNormal(p: Path) {
    forall i :: 0 <= i < |p| ==> IsName(p[i])
  }

  lemma {:induction false} WalkIsNormal(stack: Path, parts: Path)
    requires IsNormal(stack)
    ensures Walk(stack, parts).Some? ==> IsNormal(Walk(stack, parts).value)
    decreases |parts|
  {
    if parts != [] {
      if IsTrivial(parts[0]) {
        WalkIsNormal(stack, parts[1..]);
      } else if parts[0] == UP {
        if stack != [] { WalkIsNormal(stack[..|stack| - 1], parts[1..]); }
      } else {
        WalkIsNormal(stack + [parts[0]], parts[1..]);
      }
    }
  }

  lemma {:induction false} WalkNames(stack: Path, p: Path)
    requires IsNormal(p)
    ensures Walk(stack, p) == Some(stack + p)
    decreases |p|
  {
    if p == [] {
      assert stack + p == stack;
    } else {
      WalkNames(stack + [p[0]], p[1..]);
      assert stack + [p[0]] + p[1..] == stack + p;
    }
  }

  lemma {:induction false} WalkConcat(stack: Path, a: Path, b: Path)
    ensures Walk(stack, a + b) == match Walk(stack, a) case None => None case Some(s) => Walk(s, b)
    decreases |a|
  {
    if a == [] {
      assert a + b == b;
    } else {
      assert (a + b)[1..] == a[1..] + b;
      if IsTrivial(a[0]) {
        WalkConcat(stack, a[1..], b);
      } else if a[0] == UP {
        if stack != [] { WalkConcat(stack[..|stack| - 1], a[1..], b); }
      } else {
        WalkConcat(stack + [a[0]], a[1..], b);
      }
    }
  }

  /** Normalising a joined path is normalising after normalising its first part. */
  lemma NormaliseInStages(a: Path, b: Path)
    ensures Normalise(a + b) == match Normalise(a) case None => None case Some(x) => Normalise(x + b)
  {
    WalkConcat([], a, b);
    if Normalise(a).Some? {
      var x := Normalise(a).value;
      WalkIsNormal([], a);
      WalkNames([], x);
      assert [] + x == x;
      WalkConcat([], x, b);
    }
  }

  // ----- where a link starts from -----

  /** `k` times "..". */
  function Ups(k: nat): Path {
    seq(k, _ => UP)
  }

  lemma {:induction false} WalkUps(stack: Path, k: nat)
    ensures Walk(stack, Ups(k)) == if k <= |stack| then Some(stack[..|stack| - k]) else None
    decreases k
  {
    if k == 0 {
      assert stack[..|stack|] == stack;
    } else {
      assert Ups(k)[1..] == Ups(k - 1);
      if stack != [] {
        WalkUps(stack[..|stack| - 1], k - 1);
        assert k <= |stack| ==> stack[..|stack| - 1][..|stack| - k] == stack[..|stack| - k];
      }
    }
  }

  lemma WalkUpsThen(stack: Path, k: nat, p: Path)
    requires IsNormal(p)
    ensures Walk(stack, Ups(k) + p) == if k <= |stack| then Some(stack[..|stack| - k] + p) else None
  {
    WalkUps(stack, k);
    WalkConcat(stack, Ups(k), p);
    if k <= |stack| {
      WalkNames(stack[..|stack| - k], p);
    }
  }

  /** Names and nothing else: no empty part, no "." and no "..". */
  ghost predicate Plain(p: Path) {
    forall i :: 0 <= i < |p| ==> p[i] != "" && p[i] != "." && p[i] != ".."
  }

  lemma PlainIsNormal(p: Path)
    ensures Plain(p) <==> IsNormal(p)
  {}

  /** Empty parts and "." do not matter, wherever they stand. */
  lemma TrivialPartsDoNotMatter(a: Path, b: Path, part: string)
    requires part == "" || part == "."
    ensures Normalise(a + ([part] + b)) == Normalise(a + b)
  {
    WalkConcat([], a, [part] + b);
    WalkConcat([], a, b);
    assert ([part] + b)[1..] == b;
  }

  /** A relative symbolic link starts from the directory it lies in: from place `d/a`, a name
      of `k` times ".." followed by `p` leads to `p` below the directory `k` levels above `d`,
      and is refused exactly when there is none. */
  lemma SymbolicLinkLeads(d: Path, a: string, k: nat, p: Path)
    requires Plain(d) && Plain(p) && !IsAbsolute(Ups(k) + p)
    ensures Normalise(LinkTarget(d + [a], Ups(k) + p, true)) == if k <= |d| then Some(d[..|d| - k] + p) else None
  {
    PlainIsNormal(d);
    PlainIsNormal(p);
    assert (d + [a])[..|d|] == d;
    WalkConcat([], d, Ups(k) + p);
    WalkNames([], d);
    assert [] + d == d;
    WalkUpsThen(d, k, p);
  }

  /** A hard link leads to its own parts from the extraction directory, wherever it lies. */
  lemma HardLinkLeads(path: Path, k: nat, p: Path)
    requires Plain(p)
    ensures Normalise(LinkTarget(path, Ups(k) + p, false)) == if k == 0 then Some(p) else None
  {
    PlainIsNormal(p);
    WalkUpsThen([], k, p);
    assert [] + p == p;
  }

  /** An absolute symbolic link ignores the place it lies in. */
  lemma AbsoluteLinkLeads(path: Path, p: Path)
    requires Plain(p)
    ensures Normalise(LinkTarget(path, ["/"] + p, true)) == Some(["/"] + p)
  {
    PlainIsNormal(["/"] + p);
    WalkNames([], ["/"] + p);
    assert [] + (["/"] + p) == ["/"] + p;
  }

  /** A member is kept exactly when something of its name is left behind the stripped parts,
      and that is relative and has no "..". */
  lemma StrippedIff(parts: Path, strip: nat, p: Path)
    ensures StrippedPath(parts, strip) == Relative(p)
       <==> p != [] && p[0] != "/" && UP !in p && |parts| == strip + |p| && parts[strip..] == p
    ensures StrippedPath(parts, strip) == Skipped <==> |parts| <= strip
  {}

  // ----- cancelling in any order -----

  /** One simplification at position `i`: drop a trivial part, or a name with the ".."
      right after it. */
  function Cancel(s: Path, i: nat): Option<Path> {
    if i < |s| && IsTrivial(s[i]) then Some(s[..i] + s[i + 1..])
    else if i + 1 < |s| && IsName(s[i]) && s[i + 1] == UP then Some(s[..i] + s[i + 2..])
    else None
  }

  lemma CancelKeeps(s: Path, i: nat)
    requires Cancel(s, i).Some?
    ensures Normalise(Cancel(s, i).value) == Normalise(s)
  {
    var a := s[..i];
    if IsTrivial(s[i]) {
      var b := s[i + 1..];
      assert s == a + s[i..] && s[i..][1..] == b;
      WalkConcat([], a, s[i..]);
      WalkConcat([], a, b);
    } else {
      var b := s[i + 2..];
      assert s == a + s[i..] && s[i..][1..][1..] == b && s[i..][1..][0] == UP;
      WalkConcat([], a, s[i..]);
      WalkConcat([], a, b);
      if Walk([], a).Some? {
        var st := Walk([], a).value;
        var st1 := st + [s[i]];
        assert st1[..|st1| - 1] == st;
        assert Walk(st, s[i..]) == Walk(st1, s[i..][1..]);
        assert Walk(st1, s[i..][1..]) == Walk(st, b);
      }
    }
  }

  /** `t` is what the simplifications at `positions`, one after the other, make of `s`. */
  ghost predicate Reduces(s: Path, positions: seq<nat>, t: Path)
    decreases |positions|
  {
    if positions == [] then s == t
    else Cancel(s, positions[0]).Some? && Reduces(Cancel(s, positions[0]).value, positions[1..], t)
  }

  lemma {:induction false} ReductionKeeps(s: Path, positions: seq<nat>, t: Path)
    requires Reduces(s, positions, t)
    ensures Normalise(s) == Normalise(t)
    decreases |positions|
  {
    if positions != [] {
      CancelKeeps(s, positions[0]);
      ReductionKeeps(Cancel(s, positions[0]).value, positions[1..], t);
    }
  }

  /** Simplifying in any order to a path without ".." gives what the loop returns. */
  lemma AnyOrderAgrees(s: Path, positions: seq<nat>, t: Path)
    requires Reduces(s, positions, t) && IsNormal(t)
    ensures Normalise(s) == Some(t)
  {
    ReductionKeeps(s, positions, t);
    WalkNames([], t);
    assert [] + t == t;
  }

  /** A list of parts that is not normal and cannot be simplified starts by going up. */
  lemma UpIsNotFirst(s: Path, i: nat)
    requires Normalise(s).Some? && i < |s| && s[i] == UP
    ensures i > 0
  {
    assert s == s[..i] + s[i..];
    WalkConcat([], s[..i], s[i..]);
  }

  lemma FindCancel(s: Path) returns (i: nat)
    requires !IsNormal(s) && Normalise(s).Some?
    ensures Cancel(s, i).Some?
  {
    var j :| 0 <= j < |s| && !IsName(s[j]);
    i := 0;
    while IsName(s[i])
      invariant i <= j
      invariant forall k :: 0 <= k < i ==> IsName(s[k])
      decreases j - i
    {
      i := i + 1;
    }
    if s[i] == UP {
      UpIsNotFirst(s, i);
      i := i - 1;
    }
  }

  /** Whatever the loop returns can be reached by simplifications. */
  lemma {:induction false} LoopIsReduction(s: Path) returns (positions: seq<nat>)
    requires Normalise(s).Some?
    ensures Reduces(s, positions, Normalise(s).value)
    decreases |s|
  {
    if IsNormal(s) {
      WalkNames([], s);
      assert [] + s == s;
      return [];
    }
    var i := FindCancel(s);
    CancelKeeps(s, i);
    var s' := Cancel(s, i).value;
    var rest := LoopIsReduction(s');
    positions := [i] + rest;
    assert positions[1..] == rest;
  }

  ghost predicate ReducesTo(s: Path, t: Path) {
    exists positions :: Reduces(s, positions, t)
  }

  /** The loop's answer is the one normal path reachable by cancelling in any order; it
      refuses exactly when there is none. */
  lemma NormaliseIsTheNormalForm(s: Path, t: Path)
    ensures Normalise(s) == Some(t) <==> IsNormal(t) && ReducesTo(s, t)
  {
    if Normalise(s) == Some(t) {
      WalkIsNormal([], s);
      var positions := LoopIsReduction(s);
      assert Reduces(s, positions, t);
    }
    if IsNormal(t) && ReducesTo(s, t) {
      var positions :| Reduces(s, positions, t);
      AnyOrderAgrees(s, positions, t);
    }
  }

  // ----- staying inside -----

  /** Only the first part of a path can be the root. */
  ghost predicate IsPath(p: Path) {
    forall i :: 1 <= i < |p| ==> p[i] != "/"
  }

  lemma {:induction false} WalkKeepsOut(stack: Path, parts: Path)
    requires "/" !in stack && "/" !in parts
    ensures Walk(stack, parts).Some? ==> "/" !in Walk(stack, parts).value
    decreases |parts|
  {
    if parts != [] {
      assert "/" !in parts[1..];
      if IsTrivial(parts[0]) {
        WalkKeepsOut(stack, parts[1..]);
      } else if parts[0] == UP {
        if stack != [] { WalkKeepsOut(stack[..|stack| - 1], parts[1..]); }
      } else {
        WalkKeepsOut(stack + [parts[0]], parts[1..]);
      }
    }
  }

  /** A relative symbolic link of an accepted member is accepted exactly when no prefix of
      its parts climbs out, and then leads to a plain path below the extraction directory. */
  lemma AcceptedLinkStaysInside(parts: Path, strip: nat, linkname: Path)
    requires IsPath(parts) && IsPath(linkname) && !IsAbsolute(linkname)
    requires StrippedPath(parts, strip).Relative?
    ensures var target := LinkTarget(StrippedPath(parts, strip).path, linkname, true);
            var r := Normalise(target);
            && (r.Some? <==> !Escapes(target, 0))
            && (r.Some? ==> IsNormal(r.value) && !IsAbsolute(r.value))
  {
    var path := StrippedPath(parts, strip).path;
    var target := LinkTarget(path, linkname, true);
    forall i | 0 <= i < |path| ensures path[i] != "/" {
      assert path[i] == parts[strip + i];
    }
    assert "/" !in target;
    RefusedIff(target);
    WalkIsNormal([], target);
    WalkKeepsOut([], target);
  }
}
