/** Turning the symbolic links of an archive into copies of their targets: the multi-pass
    loop of `extract` in scripts/extract_source_archive.py, for links to files. */
module ArchiveLinks {
  import opened Common
  import opened LinkPaths

  type Content = seq<byte>

  /** A link member: where it lies and what it names. */
  datatype Link = Link(path: Path, linkname: Path, symbolic: bool)

  datatype Tree = Tree(files: map<Path, Content>, dirs: set<Path>)

  /** A path relative to the extraction directory `root`; an absolute path must lie in it. */
  function DestinationPath(root: Path, p: Path): Option<Path> {
    if !IsAbsolute(p) then Some(p)
    else if root <= p[1..] then Some(p[1..][|root|..])
    else None
  }

  /** Where a link leads, when that is allowed. */
  function Target(root: Path, l: Link): Option<Path> {
    match Normalise(LinkTarget(l.path, l.linkname, l.symbolic))
    case None => None
    case Some(p) => DestinationPath(root, p)
  }

  function Ancestors(p: Path): set<Path> {
    set k | 0 <= k < |p| :: p[..k]
  }

  ghost predicate Distinct(links: seq<Link>) {
    forall i, j :: 0 <= i < j < |links| ==> links[i].path != links[j].path
  }

  /** Links to files: no two at one place, none over or below a file, none to a directory
      that exists or is made on the way. */
  ghost predicate FileLinks(root: Path, tree: Tree, links: seq<Link>) {
    && Distinct(links)
    && (forall l :: l in links ==> l.path !in tree.files && l.path !in tree.dirs)
    && (forall l, m :: l in links && m in links ==> m.path !in Ancestors(l.path))
    && (forall l, p :: l in links && p in Ancestors(l.path) ==> p !in tree.files)
    && (forall l :: l in links && Target(root, l).Some? ==> Target(root, l).value !in tree.dirs)
    && (forall l, m :: l in links && m in links && Target(root, l).Some? ==>
          Target(root, l).value !in Ancestors(m.path))
  }

  // ----- what the links mean, without any order -----

  ghost predicate AllSafe(root: Path, links: seq<Link>) {
    forall l :: l in links ==> Target(root, l).Some?
  }

  /** The links as a map from place to target. */
  ghost function LinkMap(root: Path, links: seq<Link>): map<Path, Path>
    requires Distinct(links)
  {
    map l | l in links && Target(root, l).Some? :: l.path := Target(root, l).value
  }

  /** The content found by following at most `n` links from `p`. */
  ghost function Follow(files: map<Path, Content>, links: map<Path, Path>, p: Path, n: nat): Option<Content>
    decreases n
  {
    if p in files then Some(files[p])
    else if n > 0 && p in links then Follow(files, links, links[p], n - 1)
    else None
  }

  /** `p` leads to a file: it is in the least set that holds the files and every link whose
      target is in it. */
  ghost predicate Leads(files: map<Path, Content>, links: map<Path, Path>, p: Path) {
    exists n: nat :: Follow(files, links, p, n).Some?
  }

  ghost predicate LeadsTo(files: map<Path, Content>, links: map<Path, Path>, p: Path, c: Content) {
    exists n: nat :: Follow(files, links, p, n) == Some(c)
  }

  lemma {:induction false} FollowUnique(files: map<Path, Content>, links: map<Path, Path>, p: Path, n: nat, m: nat)
    requires Follow(files, links, p, n).Some? && Follow(files, links, p, m).Some?
    ensures Follow(files, links, p, n) == Follow(files, links, p, m)
    decreases n
  {
    if p !in files {
      FollowUnique(files, links, links[p], n - 1, m - 1);
    }
  }

  /** Links that lead to a file form a fixpoint of "the target exists" ... */
  lemma LeadsIsFixpoint(files: map<Path, Content>, links: map<Path, Path>, p: Path)
    ensures Leads(files, links, p) <==> p in files || (p in links && Leads(files, links, links[p]))
  {
    if p in files {
      assert Follow(files, links, p, 0).Some?;
    } else if p in links {
      if Leads(files, links, links[p]) {
        var n: nat :| Follow(files, links, links[p], n).Some?;
        assert Follow(files, links, p, n + 1).Some?;
      }
      if Leads(files, links, p) {
        var n: nat :| Follow(files, links, p, n).Some?;
        assert Follow(files, links, links[p], n - 1).Some?;
      }
    }
  }

  /** ... and the least one. */
  lemma {:induction false} LeadsIsLeast(files: map<Path, Content>, links: map<Path, Path>,
                                        s: set<Path>, p: Path, n: nat)
    requires forall q :: q in files ==> q in s
    requires forall q :: q in links && links[q] in s ==> q in s
    requires Follow(files, links, p, n).Some?
    ensures p in s
    decreases n
  {
    if p !in files {
      LeadsIsLeast(files, links, s, links[p], n - 1);
    }
  }

  // ----- the loop -----

  /** The links whose place is still empty, in order. */
  ghost function Pending(links: seq<Link>, files: map<Path, Content>): seq<Link> {
    if links == [] then []
    else
      var last := links[|links| - 1];
      Pending(links[..|links| - 1], files) + if last.path in files then [] else [last]
  }

  lemma {:induction false} PendingMembers(links: seq<Link>, files: map<Path, Content>)
    ensures forall l :: l in Pending(links, files) <==> l in links && l.path !in files
    ensures |Pending(links, files)| <= |links|
  {
    if links != [] {
      PendingMembers(links[..|links| - 1], files);
    }
  }

  lemma {:induction false} PendingNone(links: seq<Link>, files: map<Path, Content>)
    requires forall l :: l in links ==> l.path !in files
    ensures Pending(links, files) == links
  {
    if links != [] {
      PendingNone(links[..|links| - 1], files);
      assert links == links[..|links| - 1] + [links[|links| - 1]];
    }
  }

  /** Filtering again, after more places have been filled. */
  lemma {:induction false} PendingAgain(links: seq<Link>, files: map<Path, Content>, files': map<Path, Content>)
    requires files.Keys <= files'.Keys
    ensures Pending(Pending(links, files), files') == Pending(links, files')
  {
    if links != [] {
      var last := |links| - 1;
      PendingAgain(links[..last], files, files');
      var p := Pending(links, files);
      var p0 := Pending(links[..last], files);
      if links[last].path !in files {
        assert p[..|p| - 1] == p0;
      } else {
        assert p == p0;
        assert Pending(links, files') == Pending(links[..last], files');
      }
    }
  }

  /** Filling a place that none of `links` has changes nothing for them. */
  lemma {:induction false} PendingElsewhere(links: seq<Link>, files: map<Path, Content>, path: Path, c: Content)
    requires forall l :: l in links ==> l.path != path
    ensures Pending(links, files[path := c]) == Pending(links, files)
  {
    if links != [] {
      assert links[|links| - 1] in links;
      PendingElsewhere(links[..|links| - 1], files, path, c);
    }
  }

  lemma {:induction false} PendingDistinct(links: seq<Link>, files: map<Path, Content>)
    requires Distinct(links)
    ensures Distinct(Pending(links, files))
  {
    if links != [] {
      var init := links[..|links| - 1];
      PendingDistinct(init, files);
      PendingMembers(init, files);
      var p := Pending(init, files);
      forall i | 0 <= i < |p| ensures p[i].path != links[|links| - 1].path {
        assert p[i] in init;
      }
    }
  }

  /** Filling the place of the next link: it is not pending, the others are as before. */
  lemma CopyKeepsPending(links: seq<Link>, i: nat, files: map<Path, Content>, c: Content)
    requires Distinct(links) && i < |links|
    requires forall j :: i <= j < |links| ==> links[j].path !in files
    ensures var files' := files[links[i].path := c];
            && Pending(links[..i + 1], files') == Pending(links[..i], files)
            && forall j :: i + 1 <= j < |links| ==> links[j].path !in files'
  {
    var files' := files[links[i].path := c];
    assert links[..i + 1][..i] == links[..i];
    PendingElsewhere(links[..i], files, links[i].path, c);
    assert Pending(links[..i + 1], files') == Pending(links[..i], files') + [];
  }

  lemma SkipIsPending(links: seq<Link>, i: nat, files: map<Path, Content>)
    requires i < |links| && links[i].path !in files
    ensures Pending(links[..i + 1], files) == Pending(links[..i], files) + [links[i]]
  {
    assert links[..i + 1][..i] == links[..i];
  }

  /** What holds of the files whenever the loop looks at them: they are the original ones
      and copies of what links lead to. */
  ghost predicate Progress(files: map<Path, Content>, links: map<Path, Path>, now: map<Path, Content>) {
    && files.Keys <= now.Keys <= files.Keys + links.Keys
    && forall p :: p in now ==> LeadsTo(files, links, p, now[p])
  }

  lemma CopyProgress(files: map<Path, Content>, links: map<Path, Path>, now: map<Path, Content>, p: Path)
    requires Progress(files, links, now)
    requires p !in files && p in links && links[p] in now
    ensures Progress(files, links, now[p := now[links[p]]])
  {
    var c := now[links[p]];
    var n: nat :| Follow(files, links, links[p], n) == Some(c);
    assert Follow(files, links, p, n + 1) == Some(c);
    assert LeadsTo(files, links, p, c);
  }

  /** When a pass copies nothing, no pending link leads anywhere. */
  lemma {:induction false} Stuck(files: map<Path, Content>, links: map<Path, Path>, now: map<Path, Content>,
                                 p: Path, n: nat)
    requires Progress(files, links, now)
    requires forall q :: q in links && q !in now ==> links[q] !in now
    requires p in links && p !in now
    ensures Follow(files, links, p, n) == None
    decreases n
  {
    if n > 0 && links[p] in links {
      Stuck(files, links, now, links[p], n - 1);
    }
  }

  datatype Outcome =
    | Done(tree: Tree)
    /** A link that leads out of the extraction directory. */
    | UnsafeLink(link: Link)
    /** Links whose targets never appear. */
    | Unresolved(remaining: seq<Link>)

  /** The first link that is not allowed, if any. */
  ghost function FirstUnsafe(root: Path, links: seq<Link>): Option<Link> {
    if links == [] then None
    else if Target(root, links[0]).None? then Some(links[0])
    else FirstUnsafe(root, links[1..])
  }

  lemma {:induction false} FirstUnsafeAt(root: Path, links: seq<Link>, i: nat)
    requires i < |links| && Target(root, links[i]).None?
    requires forall j :: 0 <= j < i ==> Target(root, links[j]).Some?
    ensures FirstUnsafe(root, links) == Some(links[i])
  {
    if i > 0 {
      FirstUnsafeAt(root, links[1..], i - 1);
    }
  }

  lemma {:induction false} FirstUnsafeNone(root: Path, links: seq<Link>)
    requires forall j :: 0 <= j < |links| ==> Target(root, links[j]).Some?
    ensures FirstUnsafe(root, links) == None
  {
    if links != [] {
      FirstUnsafeNone(root, links[1..]);
    }
  }

  lemma {:induction false} FirstUnsafeIff(root: Path, links: seq<Link>)
    ensures FirstUnsafe(root, links).None? <==> AllSafe(root, links)
  {
    if links != [] {
      FirstUnsafeIff(root, links[1..]);
      assert forall l :: l in links <==> l == links[0] || l in links[1..];
    }
  }

  /** The directories that exist or are made for a link. */
  ghost function AllDirs(tree: Tree, links: seq<Link>): set<Path> {
    tree.dirs + set l, k | l in links && 0 <= k < |l.path| :: l.path[..k]
  }

  /** The directories above every link that has been copied are there. */
  ghost predicate Made(links: seq<Link>, now: Tree) {
    forall j :: 0 <= j < |links| && links[j].path in now.files ==> Ancestors(links[j].path) <= now.dirs
  }

  lemma AllMade(tree: Tree, links: seq<Link>, now: Tree)
    requires Made(links, now) && tree.dirs <= now.dirs
    requires forall l :: l in links ==> l.path in now.files
    ensures AllDirs(tree, links) <= now.dirs
  {
    forall d | d in AllDirs(tree, links) ensures d in now.dirs {
      if d !in tree.dirs {
        var l, k :| l in links && 0 <= k < |l.path| && l.path[..k] == d;
        var j :| 0 <= j < |links| && links[j] == l;
        assert d in Ancestors(links[j].path);
      }
    }
  }

  /** What the loop must achieve: it fails on the first link that is not allowed; else on
      exactly the links that lead nowhere, in their order; else every link's place holds
      the content its chain of targets ends in, the directories above the links are made,
      and nothing else changed. */
  ghost predicate Correct(root: Path, tree: Tree, links: seq<Link>, r: Outcome)
    requires Distinct(links)
  {
    if !AllSafe(root, links) then
      r.UnsafeLink? && Some(r.link) == FirstUnsafe(root, links)
    else
      var m := LinkMap(root, links);
      match r
      case UnsafeLink(_) => false
      case Done(now) =>
        && (forall l :: l in links ==> Leads(tree.files, m, l.path))
        && now.files.Keys == tree.files.Keys + m.Keys
        && (forall p :: p in now.files ==> LeadsTo(tree.files, m, p, now.files[p]))
        && now.dirs == AllDirs(tree, links)
      case Unresolved(remaining) =>
        && remaining != []
        && (forall l :: l in remaining <==> l in links && !Leads(tree.files, m, l.path))
        && (exists files :: remaining == Pending(links, files))
  }

  method DestinationOf(root: Path, l: Link) returns (r: Option<Path>)
    ensures r == Target(root, l)
  {
    var resolved := ResolveLink(l.path, l.linkname, l.symbolic);
    if resolved.None? {
      return None;
    }
    r := DestinationPath(root, resolved.value);
  }

  /** `m` knows where `l` leads, and it is to none of `dirs`. */
  ghost predicate ReadyLink(root: Path, m: map<Path, Path>, dirs: set<Path>, l: Link) {
    && Ancestors(l.path) <= dirs
    && (Target(root, l).Some? ==> l.path in m && m[l.path] == Target(root, l).value && m[l.path] !in dirs)
  }

  ghost predicate Ready(root: Path, m: map<Path, Path>, dirs: set<Path>, links: seq<Link>) {
    forall j :: 0 <= j < |links| ==> ReadyLink(root, m, dirs, links[j])
  }

  datatype Visit = Refused | Deferred | Copied

  /** One link: refused, skipped for now, or copied, with the directories above it made. */
  method VisitLink(root: Path, ghost m: map<Path, Path>, ghost dirs: set<Path>, ghost files: map<Path, Content>,
                   start: Tree, l: Link)
    returns (now: Tree, visit: Visit, ghost content: Content)
    requires ReadyLink(root, m, dirs, l) && start.dirs <= dirs && Progress(files, m, start.files)
    requires l.path !in files
    ensures visit == Refused <==> Target(root, l).None?
    ensures visit == Deferred ==> now == start && Target(root, l).value !in start.files
    ensures visit == Copied ==> Target(root, l).value in start.files && content == start.files[Target(root, l).value]
    ensures visit == Copied ==> now == Tree(start.files[l.path := content], start.dirs + Ancestors(l.path))
    ensures visit != Refused ==> now.dirs <= dirs && Progress(files, m, now.files)
  {
    now, content := start, [];
    var target := DestinationOf(root, l);
    if target.None? {
      return now, Refused, content;
    }
    if target.value !in start.files && target.value !in start.dirs {
      return now, Deferred, content;
    }
    content := start.files[target.value];
    CopyProgress(files, m, start.files, l.path);
    now := Tree(start.files[l.path := start.files[target.value]], start.dirs + Ancestors(l.path));
    visit := Copied;
  }

  /** What a pass has done after its first `i` links. */
  ghost predicate PassedTo(root: Path, m: map<Path, Path>, dirs: set<Path>, files: map<Path, Content>,
                           start: Tree, links: seq<Link>, i: nat, now: Tree, remaining: seq<Link>, progressed: bool)
    requires i <= |links|
  {
    && now.dirs <= dirs && Progress(files, m, now.files)
    && start.files.Keys <= now.files.Keys
    && start.dirs <= now.dirs && Made(links, now)
    && (forall j :: i <= j < |links| ==> links[j].path !in now.files)
    && (forall j :: 0 <= j < i ==> Target(root, links[j]).Some?)
    && remaining == Pending(links[..i], now.files)
    && |remaining| <= i && (progressed ==> |remaining| < i)
    && (!progressed ==> now == start && NoTarget(root, start.files, links, i))
  }

  lemma DeferredKeeps(root: Path, m: map<Path, Path>, dirs: set<Path>, files: map<Path, Content>,
                      start: Tree, links: seq<Link>, i: nat, now: Tree, remaining: seq<Link>, progressed: bool)
    requires Distinct(links) && i < |links|
    requires PassedTo(root, m, dirs, files, start, links, i, now, remaining, progressed)
    requires Target(root, links[i]).Some? && Target(root, links[i]).value !in now.files
    ensures PassedTo(root, m, dirs, files, start, links, i + 1, now, remaining + [links[i]], progressed)
  {
    SkipIsPending(links, i, now.files);
  }

  lemma CopiedKeeps(root: Path, m: map<Path, Path>, dirs: set<Path>, files: map<Path, Content>,
                    start: Tree, links: seq<Link>, i: nat, now: Tree, remaining: seq<Link>, progressed: bool,
                    next: Tree, content: Content)
    requires Distinct(links) && i < |links|
    requires PassedTo(root, m, dirs, files, start, links, i, now, remaining, progressed)
    requires Target(root, links[i]).Some?
    requires next == Tree(now.files[links[i].path := content], now.dirs + Ancestors(links[i].path))
    requires next.dirs <= dirs && Progress(files, m, next.files)
    ensures PassedTo(root, m, dirs, files, start, links, i + 1, next, remaining, true)
  {
    CopyKeepsPending(links, i, now.files, content);
    forall j | i + 1 <= j < |links| ensures links[j].path !in next.files {
      assert links[j].path != links[i].path;
    }
  }

  /** One pass over the unresolved links. */
  method Pass(root: Path, ghost m: map<Path, Path>, ghost dirs: set<Path>, ghost files: map<Path, Content>,
              start: Tree, unresolved: seq<Link>)
    returns (now: Tree, remaining: seq<Link>, progressed: bool, unsafe: Option<Link>)
    requires Ready(root, m, dirs, unresolved) && start.dirs <= dirs && Progress(files, m, start.files)
    requires Distinct(unresolved) && forall j :: 0 <= j < |unresolved| ==> unresolved[j].path !in start.files
    ensures unsafe == FirstUnsafe(root, unresolved)
    ensures unsafe.None? ==> now.dirs <= dirs && Progress(files, m, now.files)
    ensures unsafe.None? ==> start.files.Keys <= now.files.Keys && remaining == Pending(unresolved, now.files)
    ensures unsafe.None? ==> start.dirs <= now.dirs && Made(unresolved, now)
    ensures unsafe.None? && progressed ==> |remaining| < |unresolved|
    ensures unsafe.None? && !progressed ==> now == start && NoTarget(root, start.files, unresolved, |unresolved|)
  {
    now, remaining, progressed, unsafe := start, [], false, None;
    for i := 0 to |unresolved|
      invariant PassedTo(root, m, dirs, files, start, unresolved, i, now, remaining, progressed)
    {
      var l := unresolved[i];
      assert l.path !in now.files;
      var next, visit, content := VisitLink(root, m, dirs, files, now, l);
      if visit == Refused {
        FirstUnsafeAt(root, unresolved, i);
        unsafe := Some(l);
        return;
      }
      if visit == Deferred {
        DeferredKeeps(root, m, dirs, files, start, unresolved, i, now, remaining, progressed);
        remaining := remaining + [l];
        continue;
      }
      CopiedKeeps(root, m, dirs, files, start, unresolved, i, now, remaining, progressed, next, content);
      now := next;
      progressed := true;
    }
    assert unresolved[..|unresolved|] == unresolved;
    FirstUnsafeNone(root, unresolved);
  }

  /** The links are allowed and none of their targets is there. */
  ghost predicate NoTarget(root: Path, files: map<Path, Content>, links: seq<Link>, n: nat)
    requires n <= |links|
  {
    forall j :: 0 <= j < n ==> Target(root, links[j]).Some? && Target(root, links[j]).value !in files
  }

  lemma StuckLinks(root: Path, tree: Tree, links: seq<Link>, now: map<Path, Content>)
    requires Distinct(links) && AllSafe(root, links)
    requires Progress(tree.files, LinkMap(root, links), now)
    requires forall l :: l in links && l.path !in now ==> Target(root, l).value !in now
    ensures forall l :: l in links ==> (Leads(tree.files, LinkMap(root, links), l.path) <==> l.path in now)
  {
    var m := LinkMap(root, links);
    forall l | l in links ensures Leads(tree.files, m, l.path) <==> l.path in now {
      assert l.path in m;
      if l.path in now {
        assert LeadsTo(tree.files, m, l.path, now[l.path]);
      } else {
        forall n: nat ensures Follow(tree.files, m, l.path, n) == None {
          Stuck(tree.files, m, now, l.path, n);
        }
      }
    }
  }

  lemma NothingFilled(links: seq<Link>, files: map<Path, Content>)
    requires forall j :: 0 <= j < |links| ==> links[j].path !in files
    ensures Pending(links, files) == links
  {
    PendingNone(links, files);
  }

  lemma PendingFacts(root: Path, m: map<Path, Path>, dirs: set<Path>, links: seq<Link>, files: map<Path, Content>)
    requires Distinct(links) && Ready(root, m, dirs, links)
    ensures var p := Pending(links, files);
            && Distinct(p) && Ready(root, m, dirs, p)
            && forall j :: 0 <= j < |p| ==> p[j].path !in files
  {
    PendingDistinct(links, files);
    PendingMembers(links, files);
    var p := Pending(links, files);
    forall j | 0 <= j < |p| ensures ReadyLink(root, m, dirs, p[j]) && p[j].path !in files {
      assert p[j] in links;
    }
  }

  lemma UnsafeIsCorrect(root: Path, tree: Tree, links: seq<Link>, files: map<Path, Content>,
                        unresolved: seq<Link>, l: Link)
    requires Distinct(links)
    requires unresolved == Pending(links, files) && FirstUnsafe(root, unresolved) == Some(l)
    requires FirstUnsafe(root, links) == None || unresolved == links
    ensures Correct(root, tree, links, UnsafeLink(l))
  {
    PendingMembers(links, files);
    FirstUnsafeIff(root, unresolved);
    FirstUnsafeIff(root, links);
  }

  lemma StuckIsCorrect(root: Path, tree: Tree, links: seq<Link>, now: map<Path, Content>, remaining: seq<Link>)
    requires Distinct(links) && FirstUnsafe(root, links) == None
    requires Progress(tree.files, LinkMap(root, links), now)
    requires remaining == Pending(links, now) && remaining != []
    requires NoTarget(root, now, remaining, |remaining|)
    ensures Correct(root, tree, links, Unresolved(remaining))
  {
    FirstUnsafeIff(root, links);
    PendingMembers(links, now);
    StuckLinks(root, tree, links, now);
  }

  lemma NothingPendingIsCorrect(root: Path, tree: Tree, links: seq<Link>, now: Tree)
    requires Distinct(links) && FirstUnsafe(root, links) == None
    requires Progress(tree.files, LinkMap(root, links), now.files)
    requires Pending(links, now.files) == []
    requires tree.dirs <= now.dirs <= AllDirs(tree, links) && Made(links, now)
    ensures Correct(root, tree, links, Done(now))
  {
    var m := LinkMap(root, links);
    FirstUnsafeIff(root, links);
    PendingMembers(links, now.files);
    forall l | l in links ensures l.path in now.files && Leads(tree.files, m, l.path) {
      assert l !in Pending(links, now.files);
      assert LeadsTo(tree.files, m, l.path, now.files[l.path]);
    }
    forall p | p in m.Keys ensures p in now.files.Keys {
      var l :| l in links && l.path == p;
    }
    AllMade(tree, links, now);
  }

  /** A pass over the links still pending makes directories and removes none. */
  lemma MadeAgain(links: seq<Link>, now: Tree, next: Tree)
    requires Made(links, now) && now.dirs <= next.dirs && Made(Pending(links, now.files), next)
    ensures Made(links, next)
  {
    PendingMembers(links, now.files);
    var p := Pending(links, now.files);
    forall j | 0 <= j < |links| && links[j].path in next.files ensures Ancestors(links[j].path) <= next.dirs {
      if links[j].path !in now.files {
        assert links[j] in p;
        var k :| 0 <= k < |p| && p[k] == links[j];
      }
    }
  }

  lemma StartProgress(files: map<Path, Content>, m: map<Path, Path>)
    ensures Progress(files, m, files)
  {
    forall p | p in files ensures LeadsTo(files, m, p, files[p]) {
      assert Follow(files, m, p, 0) == Some(files[p]);
    }
  }

  lemma FileLinksReady(root: Path, tree: Tree, links: seq<Link>)
    requires FileLinks(root, tree, links)
    ensures Ready(root, LinkMap(root, links), AllDirs(tree, links), links)
  {}

  /** The whole loop.  It ends after at most one pass per link. */
  method MaterialiseLinks(root: Path, tree: Tree, links: seq<Link>) returns (r: Outcome, passes: nat)
    requires FileLinks(root, tree, links)
    ensures Correct(root, tree, links, r)
    ensures passes <= |links|
  {
    ghost var m := LinkMap(root, links);
    ghost var dirs := AllDirs(tree, links);
    var now, unresolved := tree, links;
    passes := 0;
    FileLinksReady(root, tree, links);
    StartProgress(tree.files, m);
    PendingNone(links, tree.files);
    while unresolved != []
      invariant unresolved == Pending(links, now.files) && Distinct(unresolved)
      invariant forall j :: 0 <= j < |unresolved| ==> unresolved[j].path !in now.files
      invariant Ready(root, m, dirs, unresolved) && now.dirs <= dirs && Progress(tree.files, m, now.files)
      invariant tree.dirs <= now.dirs && Made(links, now)
      invariant passes + |unresolved| <= |links|
      invariant passes == 0 ==> unresolved == links
      invariant passes > 0 ==> FirstUnsafe(root, links) == None
      decreases |unresolved|
    {
      var next, remaining, progressed, unsafe := Pass(root, m, dirs, tree.files, now, unresolved);
      passes := passes + 1;
      if unsafe.Some? {
        UnsafeIsCorrect(root, tree, links, now.files, unresolved, unsafe.value);
        return UnsafeLink(unsafe.value), passes;
      }
      if passes == 1 {
        assert FirstUnsafe(root, links) == None;
      }
      if !progressed && remaining != [] {
        StuckIsCorrect(root, tree, links, now.files, unresolved);
        NothingFilled(unresolved, now.files);
        return Unresolved(remaining), passes;
      }
      MadeAgain(links, now, next);
      PendingAgain(links, now.files, next.files);
      PendingFacts(root, m, dirs, unresolved, next.files);
      now, unresolved := next, remaining;
    }
    NothingPendingIsCorrect(root, tree, links, now);
    r := Done(now);
  }

  // ----- links as they are written -----

  lemma LeadsToUnique(files: map<Path, Content>, links: map<Path, Path>, p: Path, c: Content, c': Content)
    requires LeadsTo(files, links, p, c) && LeadsTo(files, links, p, c')
    ensures c == c'
  {
    var n: nat :| Follow(files, links, p, n) == Some(c);
    var k: nat :| Follow(files, links, p, k) == Some(c');
    FollowUnique(files, links, p, n, k);
  }

  /** A target in the extraction directory is allowed and no other: relative ones all are, and
      absolute ones exactly when they lie below `root`. */
  lemma DestinationIff(root: Path, p: Path, q: Path)
    ensures DestinationPath(root, p) == Some(q) <==> if IsAbsolute(p) then p == ["/"] + root + q else p == q
  {
    if IsAbsolute(p) {
      assert p == ["/"] + p[1..];
      if root <= p[1..] {
        assert p[1..] == root + p[1..][|root|..];
      }
      if p == ["/"] + root + q {
        assert p[1..] == root + q;
        assert p[1..][|root|..] == q;
      }
    }
  }

  /** Link `l` at `d/a` names, relative to `d`, the place `at`. */
  ghost predicate Names(l: Link, d: Path, a: string, k: nat, p: Path, at: Path) {
    && Plain(d) && Plain(p) && !IsAbsolute(Ups(k) + p)
    && l == Link(d + [a], Ups(k) + p, true)
    && k <= |d| && at == d[..|d| - k] + p && !IsAbsolute(at)
  }

  lemma NamedTarget(root: Path, l: Link, d: Path, a: string, k: nat, p: Path, at: Path)
    requires Names(l, d, a, k, p, at)
    ensures Target(root, l) == Some(at)
  {
    SymbolicLinkLeads(d, a, k, p);
    DestinationIff(root, at, at);
  }

  /** A link that names a file of the archive is never left over, and when the loop succeeds
      its place holds that file's content. */
  lemma NamedFileIsCopied(root: Path, tree: Tree, links: seq<Link>, r: Outcome,
                          l: Link, d: Path, a: string, k: nat, p: Path, at: Path)
    requires Distinct(links) && Correct(root, tree, links, r)
    requires l in links && l.path !in tree.files
    requires Names(l, d, a, k, p, at) && at in tree.files
    ensures r.Done? ==> l.path in r.tree.files && r.tree.files[l.path] == tree.files[at]
    ensures r.Unresolved? ==> l !in r.remaining
    ensures r.UnsafeLink? ==> r.link != l
  {
    var m := LinkMap(root, links);
    NamedTarget(root, l, d, a, k, p, at);
    assert l.path in m && m[l.path] == at;
    assert Follow(tree.files, m, at, 0) == Some(tree.files[at]);
    assert Follow(tree.files, m, l.path, 1) == Some(tree.files[at]);
    if r.Done? {
      assert LeadsTo(tree.files, m, l.path, tree.files[at]);
      assert l.path in m.Keys;
      LeadsToUnique(tree.files, m, l.path, tree.files[at], r.tree.files[l.path]);
    } else if r.UnsafeLink? {
      FirstUnsafeIs(root, links);
    }
  }

  lemma {:induction false} FirstUnsafeIs(root: Path, links: seq<Link>)
    ensures FirstUnsafe(root, links).Some? ==> Target(root, FirstUnsafe(root, links).value).None?
  {
    if links != [] {
      FirstUnsafeIs(root, links[1..]);
    }
  }

  /** A loop over one link either succeeds or fails on it. */
  lemma OneLink(root: Path, tree: Tree, l: Link, r: Outcome)
    requires Correct(root, tree, [l], r)
    ensures r.Unresolved? ==> l in r.remaining
    ensures r.UnsafeLink? ==> r.link == l
  {
    if r.Unresolved? {
      assert r.remaining[0] in r.remaining;
    }
  }

  lemma SiblingIsNamed(d: Path, a: string, b: string)
    requires Plain(d + [b]) && b != "/" && !IsAbsolute(d)
    ensures Names(Link(d + [a], [b], true), d, a, 0, [b], d + [b])
  {
    assert forall i :: 0 <= i < |d| ==> d[i] == (d + [b])[i];
    assert (d + [b])[|d|] == b;
    assert Ups(0) + [b] == [b] && d[..|d| - 0] == d;
  }

  /** A single link to a file next to it: the loop succeeds, and adds a copy of the file. */
  lemma SiblingIsCopied(root: Path, tree: Tree, d: Path, a: string, b: string, r: Outcome)
    requires Plain(d + [b]) && b != "/" && !IsAbsolute(d)
    requires d + [b] in tree.files && d + [a] !in tree.files
    requires Correct(root, tree, [Link(d + [a], [b], true)], r)
    ensures r.Done? && r.tree.files == tree.files[d + [a] := tree.files[d + [b]]]
  {
    var l := Link(d + [a], [b], true);
    SiblingIsNamed(d, a, b);
    NamedFileIsCopied(root, tree, [l], r, l, d, a, 0, [b], d + [b]);
    OneLink(root, tree, l, r);
    OnlyLinksChange(root, tree, [l], r);
  }

  /** The loop leaves the files of the archive as they are. */
  lemma OnlyLinksChange(root: Path, tree: Tree, links: seq<Link>, r: Outcome)
    requires Distinct(links) && Correct(root, tree, links, r)
    ensures r.Done? ==> forall p :: p in tree.files ==> p in r.tree.files && r.tree.files[p] == tree.files[p]
    ensures r.Done? ==> forall p :: p in r.tree.files && p !in tree.files ==> exists l :: l in links && l.path == p
  {
    if r.Done? {
      var m := LinkMap(root, links);
      forall p | p in tree.files ensures p in r.tree.files && r.tree.files[p] == tree.files[p] {
        assert Follow(tree.files, m, p, 0) == Some(tree.files[p]);
        assert p in tree.files.Keys;
        LeadsToUnique(tree.files, m, p, tree.files[p], r.tree.files[p]);
      }
      forall p | p in r.tree.files && p !in tree.files ensures exists l :: l in links && l.path == p {
        assert p in tree.files.Keys + m.Keys;
      }
    }
  }

  // ----- independence of the order -----

  /** The loop succeeds exactly when every link is allowed and leads to a file. */
  lemma SucceedsIff(root: Path, tree: Tree, links: seq<Link>, r: Outcome)
    requires Distinct(links) && Correct(root, tree, links, r)
    ensures r.UnsafeLink? <==> !AllSafe(root, links)
    ensures r.Done?
       <==> AllSafe(root, links) && forall l :: l in links ==> Leads(tree.files, LinkMap(root, links), l.path)
  {
    if r.Unresolved? {
      assert r.remaining[0] in r.remaining;
    }
  }

  lemma SameDirs(tree: Tree, a: seq<Link>, b: seq<Link>)
    requires forall l :: l in a <==> l in b
    ensures AllDirs(tree, a) == AllDirs(tree, b)
  {}

  lemma SameFiles(root: Path, tree: Tree, a: seq<Link>, b: seq<Link>, r: Tree, s: Tree)
    requires Distinct(a) && Distinct(b) && AllSafe(root, a) && AllSafe(root, b)
    requires LinkMap(root, a) == LinkMap(root, b)
    requires Correct(root, tree, a, Done(r)) && Correct(root, tree, b, Done(s))
    ensures r.files == s.files
  {
    var m := LinkMap(root, a);
    forall p | p in r.files ensures r.files[p] == s.files[p] {
      LeadsToUnique(tree.files, m, p, r.files[p], s.files[p]);
    }
  }

  /** Two lists of the same links, in any order, have outcomes of the same kind: both
      refused, both stuck on the same links, or both done with the same tree. */
  lemma OrderDoesNotMatter(root: Path, tree: Tree, a: seq<Link>, b: seq<Link>, r: Outcome, s: Outcome)
    requires multiset(a) == multiset(b) && Distinct(a) && Distinct(b)
    requires Correct(root, tree, a, r) && Correct(root, tree, b, s)
    ensures r.UnsafeLink? <==> s.UnsafeLink?
    ensures r.Done? <==> s.Done?
    ensures r.Done? ==> r == s
    ensures r.Unresolved? ==> forall l :: l in r.remaining <==> l in s.remaining
  {
    SameMembers(a, b);
    assert LinkMap(root, a) == LinkMap(root, b);
    SucceedsIff(root, tree, a, r);
    SucceedsIff(root, tree, b, s);
    if r.Done? {
      SameFiles(root, tree, a, b, r.tree, s.tree);
      SameDirs(tree, a, b);
    }
  }

  lemma SameMembers(a: seq<Link>, b: seq<Link>)
    requires multiset(a) == multiset(b)
    ensures forall l :: l in a <==> l in b
  {
    forall l ensures l in a <==> l in b {
      assert l in a <==> l in multiset(a);
      assert l in b <==> l in multiset(b);
    }
  }
}
