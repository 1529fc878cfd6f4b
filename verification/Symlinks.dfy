/**
 Symbolic links resolved inside a guest root: `resolve` of `image-runtime.py` and
 the memoizing `install_destination` of `incremental-disk-apps.py`.
 */
module Symlinks {
  import opened Common

  /** What looking up a path in the image gives. */
  datatype Look = NoLink | Link(target: string) | Fail

  const MAX_LINKS := 40

  // ----- Paths

  /** Python's `s.split("/")`. */
  function Split(s: string): (parts: seq<string>)
    ensures |parts| >= 1
  {
    if s == "" then [""]
    else
      var rest := Split(s[1..]);
      if s[0] == '/' then [""] + rest else [[s[0]] + rest[0]] + rest[1..]
  }

  predicate NoSlash(s: string) { '/' !in s }

  ghost predicate AllNoSlash(parts: seq<string>) { forall p :: p in parts ==> NoSlash(p) }

  function Join(parts: seq<string>): string {
    if parts == [] then "" else if |parts| == 1 then parts[0] else parts[0] + "/" + Join(parts[1..])
  }

  /** The absolute path with the given components. */
  function Abs(parts: seq<string>): string { "/" + Join(parts) }

  lemma {:induction false} SplitNoSlash(s: string)
    ensures AllNoSlash(Split(s))
  {
    if s != "" {
      SplitNoSlash(s[1..]);
      var rest := Split(s[1..]);
      assert rest[0] in rest;
      assert forall p :: p in rest[1..] ==> p in rest;
    }
  }

  lemma {:induction false} SplitOne(s: string)
    requires NoSlash(s)
    ensures Split(s) == [s]
  {
    if s != "" {
      assert s[0] in s;
      assert forall c :: c in s[1..] ==> c in s;
      SplitOne(s[1..]);
      assert [s[0]] + s[1..] == s;
    }
  }

  /** Splitting at a known slash. */
  lemma {:induction false} SplitAt(a: string, b: string)
    requires NoSlash(a)
    ensures Split(a + "/" + b) == [a] + Split(b)
  {
    var s := a + "/" + b;
    if a == "" {
      assert s[0] == '/' && s[1..] == b;
    } else {
      assert s[0] == a[0] && a[0] in a && s[1..] == a[1..] + "/" + b;
      assert forall c :: c in a[1..] ==> c in a;
      SplitAt(a[1..], b);
      assert [a[0]] + a[1..] == a;
      assert ([a[1..]] + Split(b))[1..] == Split(b);
    }
  }

  lemma {:induction false} SplitJoin(parts: seq<string>)
    requires parts != [] && AllNoSlash(parts)
    ensures Split(Join(parts)) == parts
    decreases |parts|
  {
    assert parts[0] in parts;
    if |parts| == 1 {
      SplitOne(parts[0]);
    } else {
      assert forall p :: p in parts[1..] ==> p in parts;
      SplitJoin(parts[1..]);
      SplitAt(parts[0], Join(parts[1..]));
      assert [parts[0]] + parts[1..] == parts;
    }
  }

  lemma SplitAbs(parts: seq<string>)
    requires AllNoSlash(parts)
    ensures Split(Abs(parts)) == [""] + if parts == [] then [""] else parts
  {
    SplitAt("", Join(parts));
    assert "" + "/" + Join(parts) == Abs(parts);
    if parts != [] { SplitJoin(parts); }
  }

  /** The components of two paths put together. */
  lemma {:induction false} SplitTwo(a: string, b: string)
    ensures Split(a + "/" + b) == Split(a) + Split(b)
    decreases |a|
  {
    var s := a + "/" + b;
    if a == "" {
      SplitAt("", b);
    } else {
      assert s[0] == a[0] && s[1..] == a[1..] + "/" + b;
      SplitTwo(a[1..], b);
      Glued(a[0], Split(a[1..]), Split(b));
    }
  }

  lemma Glued(c: char, parts: seq<string>, more: seq<string>)
    requires parts != []
    ensures [[c] + (parts + more)[0]] + (parts + more)[1..] == [[c] + parts[0]] + parts[1..] + more
    ensures [""] + (parts + more) == [""] + parts + more
  {
    assert (parts + more)[1..] == parts[1..] + more;
  }

  /** A path with one more component at the end. */
  lemma SplitSnoc(dir: string, leaf: string)
    requires NoSlash(leaf)
    ensures Split(dir + "/" + leaf) == Split(dir) + [leaf]
  {
    SplitTwo(dir, leaf);
    SplitOne(leaf);
  }

  // ----- Resolution

  function Parent(parts: seq<string>): seq<string> { if parts == [] then [] else parts[..|parts| - 1] }

  predicate Skipped(p: string) { p == "" || p == "." }

  predicate Absolute(target: string) { target != "" && target[0] == '/' }

  /** Where a link target starts: at the root, or in the directory of the link. */
  function Start(target: string, parts: seq<string>): seq<string> { if Absolute(target) then [] else parts }

  /** The components still to do, those resolved, and the number of links followed. */
  function Walk(look: string -> Look, pending: seq<string>, parts: seq<string>, links: nat): Result<seq<string>>
    requires links <= MAX_LINKS
    decreases MAX_LINKS - links, |pending|
  {
    if pending == [] then Ok(parts)
    else
      var p, rest := pending[0], pending[1..];
      if Skipped(p) then Walk(look, rest, parts, links)
      else if p == ".." then Walk(look, rest, Parent(parts), links)
      else
        match look(Abs(parts + [p]))
        case Fail => Err
        case NoLink => Walk(look, rest, parts + [p], links)
        case Link(target) =>
          if links == MAX_LINKS then Err
          else
            Walk(look, Split(target) + rest, Start(target, parts), links + 1)
  }

  function Resolve(look: string -> Look, path: string): Result<string> {
    match Walk(look, Split(path), [], 0)
    case Ok(parts) => Ok(Abs(parts))
    case Err => Err
  }

  /** A plain path: no component is special and no prefix is a link. */
  ghost predicate Plain(look: string -> Look, parts: seq<string>) {
    && (forall p :: p in parts ==> NoSlash(p) && !Skipped(p) && p != "..")
    && (forall k :: 0 < k <= |parts| ==> look(Abs(parts[..k])) == NoLink)
  }

  lemma PlainGrows(look: string -> Look, parts: seq<string>, p: string)
    requires Plain(look, parts) && NoSlash(p) && !Skipped(p) && p != ".." && look(Abs(parts + [p])) == NoLink
    ensures Plain(look, parts + [p])
  {
    var all := parts + [p];
    forall k | 0 < k <= |all| ensures look(Abs(all[..k])) == NoLink {
      if k < |all| { assert all[..k] == parts[..k]; } else { assert all[..k] == all; }
    }
  }

  lemma PlainShrinks(look: string -> Look, parts: seq<string>)
    requires Plain(look, parts)
    ensures Plain(look, Parent(parts))
  {
    var up := Parent(parts);
    forall k | 0 < k <= |up| ensures look(Abs(up[..k])) == NoLink {
      assert up[..k] == parts[..k];
    }
  }

  /** Whatever is resolved, the result is a plain path. */
  lemma {:induction false} WalkIsPlain(look: string -> Look, pending: seq<string>, parts: seq<string>, links: nat)
    requires links <= MAX_LINKS && AllNoSlash(pending) && Plain(look, parts)
    ensures var r := Walk(look, pending, parts, links); r.Ok? ==> Plain(look, r.value)
    decreases MAX_LINKS - links, |pending|
  {
    if pending != [] {
      var p, rest := pending[0], pending[1..];
      assert p in pending;
      assert forall q :: q in rest ==> q in pending;
      if Skipped(p) {
        WalkIsPlain(look, rest, parts, links);
      } else if p == ".." {
        PlainShrinks(look, parts);
        WalkIsPlain(look, rest, Parent(parts), links);
      } else {
        match look(Abs(parts + [p]))
        case Fail =>
        case NoLink =>
          PlainGrows(look, parts, p);
          WalkIsPlain(look, rest, parts + [p], links);
        case Link(target) =>
          if links < MAX_LINKS {
            SplitNoSlash(target);
            WalkIsPlain(look, Split(target) + rest, Start(target, parts), links + 1);
          }
      }
    }
  }

  /** A plain path is walked without a detour. */
  lemma {:induction false} WalkPlain(look: string -> Look, parts: seq<string>, k: nat, links: nat)
    requires Plain(look, parts) && k <= |parts| && links <= MAX_LINKS
    ensures Walk(look, parts[k..], parts[..k], links) == Ok(parts)
    ensures LinksAfter(look, parts[k..], parts[..k], links) == links
    decreases |parts| - k
  {
    if k == |parts| {
      assert parts[..k] == parts;
    } else {
      var p := parts[k];
      assert p in parts && parts[k..][1..] == parts[k + 1..] && parts[..k] + [p] == parts[..k + 1];
      assert look(Abs(parts[..k + 1])) == NoLink;
      WalkPlain(look, parts, k + 1, links);
    }
  }

  /**
   A resolved path has no empty, `.` or `..` component and no prefix that is a
   link, and resolving it again changes nothing.
   */
  lemma ResolveIsFinal(look: string -> Look, path: string)
    requires Resolve(look, path).Ok?
    ensures var r := Resolve(look, path).value;
      && Resolve(look, r) == Ok(r)
      && exists parts :: r == Abs(parts) && Plain(look, parts)
  {
    var parts := Walk(look, Split(path), [], 0).value;
    SplitNoSlash(path);
    WalkIsPlain(look, Split(path), [], 0);
    WalkAbs(look, parts);
  }

  /** A plain path leads to itself, without a link. */
  lemma {:induction false} WalkAbs(look: string -> Look, parts: seq<string>)
    requires Plain(look, parts)
    ensures Walk(look, Split(Abs(parts)), [], 0) == Ok(parts) && LinksAfter(look, Split(Abs(parts)), [], 0) == 0
  {
    SplitAbs(parts);
    WalkFromRoot(look, parts, [], if parts == [] then [""] else parts);
  }

  lemma {:induction false} WalkFromRoot(look: string -> Look, parts: seq<string>, none: seq<string>, names: seq<string>)
    requires Plain(look, parts) && none == [] && names == if parts == [] then [""] else parts
    ensures Walk(look, [""] + names, none, 0) == Ok(parts) && LinksAfter(look, [""] + names, none, 0) == 0
  {
    assert ([""] + names)[1..] == names;
    if parts == [] {
      WalkSkipped(look, "", none, 0);
    } else {
      WalkPlain(look, parts, 0, 0);
      assert parts[0..] == parts && parts[..0] == none;
    }
  }

  // ----- What a path leads to

  /** The number of links followed by a walk that succeeds. */
  ghost function LinksAfter(look: string -> Look, pending: seq<string>, parts: seq<string>, links: nat): (n: nat)
    requires links <= MAX_LINKS && Walk(look, pending, parts, links).Ok?
    ensures links <= n <= MAX_LINKS
    decreases MAX_LINKS - links, |pending|
  {
    if pending == [] then links
    else
      var p, rest := pending[0], pending[1..];
      if Skipped(p) then LinksAfter(look, rest, parts, links)
      else if p == ".." then LinksAfter(look, rest, Parent(parts), links)
      else
        match look(Abs(parts + [p]))
        case NoLink => LinksAfter(look, rest, parts + [p], links)
        case Link(target) => LinksAfter(look, Split(target) + rest, Start(target, parts), links + 1)
  }

  /** A walk can be done in two parts. */
  lemma {:induction false} WalkInTwo(look: string -> Look, a: seq<string>, b: seq<string>, parts: seq<string>, links: nat)
    requires links <= MAX_LINKS
    ensures match Walk(look, a, parts, links)
      case Err => Walk(look, a + b, parts, links) == Err
      case Ok(mid) =>
        var n := LinksAfter(look, a, parts, links);
        && Walk(look, a + b, parts, links) == Walk(look, b, mid, n)
        && (Walk(look, b, mid, n).Ok? ==> LinksAfter(look, a + b, parts, links) == LinksAfter(look, b, mid, n))
    decreases MAX_LINKS - links, |a|
  {
    if a == [] {
      assert a + b == b;
    } else {
      var p, rest := a[0], a[1..];
      assert (a + b)[0] == p && (a + b)[1..] == rest + b;
      if Skipped(p) {
        WalkInTwo(look, rest, b, parts, links);
      } else if p == ".." {
        WalkInTwo(look, rest, b, Parent(parts), links);
      } else {
        match look(Abs(parts + [p]))
        case Fail =>
        case NoLink => WalkInTwo(look, rest, b, parts + [p], links);
        case Link(target) =>
          if links < MAX_LINKS {
            assert Split(target) + rest + b == Split(target) + (rest + b);
            WalkInTwo(look, Split(target) + rest, b, Start(target, parts), links + 1);
          }
      }
    }
  }

  /** Links followed before only count against the limit. */
  lemma {:induction false} WalkLater(look: string -> Look, pending: seq<string>, parts: seq<string>, links: nat, more: nat)
    requires links + more <= MAX_LINKS
    ensures var early := Walk(look, pending, parts, links); var late := Walk(look, pending, parts, links + more);
      && (late.Ok? <==> early.Ok? && LinksAfter(look, pending, parts, links) + more <= MAX_LINKS)
      && (late.Ok? ==> late == early
                       && LinksAfter(look, pending, parts, links + more) == LinksAfter(look, pending, parts, links) + more)
    decreases MAX_LINKS - links, |pending|
  {
    if pending != [] {
      var p, rest := pending[0], pending[1..];
      if Skipped(p) {
        WalkLater(look, rest, parts, links, more);
      } else if p == ".." {
        WalkLater(look, rest, Parent(parts), links, more);
      } else {
        match look(Abs(parts + [p]))
        case Fail =>
        case NoLink => WalkLater(look, rest, parts + [p], links, more);
        case Link(target) =>
          if links + more < MAX_LINKS {
            WalkLater(look, Split(target) + rest, Start(target, parts), links + 1, more);
          }
      }
    }
  }

  /** The number of links on a path that resolves. */
  ghost function Links(look: string -> Look, path: string): nat
    requires Resolve(look, path).Ok?
  {
    LinksAfter(look, Split(path), [], 0)
  }

  /** The loop of `resolve`. */
  method ResolvePath(look: string -> Look, path: string) returns (r: Result<string>)
    ensures r == Resolve(look, path)
  {
    var pending, parts, links := Split(path), [], 0;
    while pending != []
      invariant 0 <= links <= MAX_LINKS
      invariant Walk(look, Split(path), [], 0) == Walk(look, pending, parts, links)
      decreases MAX_LINKS - links, |pending|
    {
      var part := pending[0];
      pending := pending[1..];
      if part == "" || part == "." {
        continue;
      }
      if part == ".." {
        if parts != [] {
          parts := parts[..|parts| - 1];
        }
        continue;
      }
      var target := look(Abs(parts + [part]));
      if target.Fail? {
        return Err;
      }
      if target.NoLink? {
        parts := parts + [part];
        continue;
      }
      if links + 1 > MAX_LINKS {
        return Err;
      }
      links := links + 1;
      if target.target != "" && target.target[0] == '/' {
        parts := [];
      }
      pending := Split(target.target) + pending;
    }
    return Ok(Abs(parts));
  }

  // ----- Install destinations

  predicate BadLeaf(leaf: string) { leaf == "" || leaf == "." || leaf == ".." }

  /** The parent resolved, the last component kept as it is. */
  function Destination(look: string -> Look, destination: string): Result<string> {
    var parts := Split(destination);
    var leaf := parts[|parts| - 1];
    if BadLeaf(leaf) then Err
    else match Walk(look, parts[..|parts| - 1], [], 0)
      case Ok(dir) => Ok(Abs(dir + [leaf]))
      case Err => Err
  }

  /** The entry `leaf` of a resolved directory. */
  function Entry(dir: string, leaf: string): string { if dir == "/" then "/" + leaf else dir + "/" + leaf }

  /** A path with its directory part and its name; without a slash the directory part is empty. */
  predicate Cut(path: string, dir: string, leaf: string) {
    NoSlash(leaf) && ((dir == "" && path == leaf) || path == dir + "/" + leaf)
  }

  lemma {:induction false} EveryPathCuts(path: string) returns (dir: string, leaf: string)
    ensures Cut(path, dir, leaf)
  {
    if path == "" {
      return "", "";
    }
    var init, c := path[..|path| - 1], path[|path| - 1];
    assert path == init + [c];
    if c == '/' {
      assert path == init + "/" + "";
      return init, "";
    }
    var l;
    dir, l := EveryPathCuts(init);
    leaf := l + [c];
    assert dir + "/" + l + [c] == dir + "/" + leaf;
  }

  /** An install destination is its name in the resolved directory part, and an error where either is. */
  lemma {:induction false} DestinationIsResolvedParent(look: string -> Look, destination: string, dir: string, leaf: string)
    requires Cut(destination, dir, leaf)
    ensures Destination(look, destination)
      == if BadLeaf(leaf) then Err
         else match Resolve(look, dir) case Err => Err case Ok(r) => Ok(Entry(r, leaf))
  {
    if destination == dir + "/" + leaf {
      InDirectory(look, dir, leaf);
    } else {
      NoDirectory(look, leaf, []);
      RootOfNothing(look, dir, []);
    }
  }

  lemma {:induction false} NoDirectory(look: string -> Look, leaf: string, none: seq<string>)
    requires NoSlash(leaf) && none == []
    ensures Destination(look, leaf) == if BadLeaf(leaf) then Err else Ok("/" + leaf)
  {
    SplitOne(leaf);
    assert [leaf][..0] == none;
    assert none + [leaf] == [leaf];
    WalkNothing(look, none, none, 0);
  }

  lemma {:induction false} RootOfNothing(look: string -> Look, dir: string, none: seq<string>)
    requires dir == "" && none == []
    ensures Resolve(look, dir) == Ok("/")
  {
    assert Split(dir) == [dir];
    WalkSkipped(look, dir, none, 0);
    assert "/" + Join(none) == "/";
  }

  lemma {:induction false} WalkNothing(look: string -> Look, pending: seq<string>, parts: seq<string>, links: nat)
    requires pending == [] && links <= MAX_LINKS
    ensures Walk(look, pending, parts, links) == Ok(parts)
  {
  }

  lemma {:induction false} WalkSkipped(look: string -> Look, p: string, parts: seq<string>, links: nat)
    requires Skipped(p) && links <= MAX_LINKS
    ensures Walk(look, [p], parts, links) == Ok(parts) && LinksAfter(look, [p], parts, links) == links
  {
    assert [p][1..] == [];
    WalkNothing(look, [p][1..], parts, links);
  }

  lemma {:induction false} InDirectory(look: string -> Look, dir: string, leaf: string)
    requires NoSlash(leaf)
    ensures Destination(look, dir + "/" + leaf)
      == if BadLeaf(leaf) then Err
         else match Resolve(look, dir) case Err => Err case Ok(r) => Ok(Entry(r, leaf))
  {
    SplitSnoc(dir, leaf);
    var dirs := Split(dir);
    assert (dirs + [leaf])[..|dirs|] == dirs && (dirs + [leaf])[|dirs|] == leaf;
    SplitNoSlash(dir);
    WalkIsPlain(look, dirs, [], 0);
    if Walk(look, dirs, [], 0).Ok? {
      AbsSnoc(look, Walk(look, dirs, [], 0).value, leaf);
    }
  }

  lemma {:induction false} AbsSnoc(look: string -> Look, parts: seq<string>, leaf: string)
    requires Plain(look, parts)
    ensures Abs(parts + [leaf]) == Entry(Abs(parts), leaf)
  {
    if parts == [] {
      assert parts + [leaf] == [leaf];
    } else {
      JoinSnoc(parts, leaf);
      assert parts[0] in parts;
      JoinLength(parts);
      assert Abs(parts)[1..] == Join(parts);
      assert "/" + (Join(parts) + "/" + leaf) == "/" + Join(parts) + "/" + leaf;
    }
  }

  lemma {:induction false} JoinLength(parts: seq<string>)
    requires parts != []
    ensures |Join(parts)| >= |parts[0]|
  {
  }

  lemma {:induction false} JoinSnoc(parts: seq<string>, leaf: string)
    requires parts != []
    ensures Join(parts + [leaf]) == Join(parts) + "/" + leaf
    decreases |parts|
  {
    var more := parts + [leaf];
    assert more[0] == parts[0] && more[1..] == parts[1..] + [leaf];
    if |parts| == 1 {
      assert more[1..] == [leaf];
    } else {
      JoinSnoc(parts[1..], leaf);
      assert parts[0] + "/" + (Join(parts[1..]) + "/" + leaf) == parts[0] + "/" + Join(parts[1..]) + "/" + leaf;
    }
  }

  // ----- What a path leads to, said of paths

  lemma {:induction false} WalkOfDir(look: string -> Look, dir: string) returns (parts: seq<string>)
    requires Resolve(look, dir).Ok?
    ensures Walk(look, Split(dir), [], 0) == Ok(parts) && Plain(look, parts) && Resolve(look, dir) == Ok(Abs(parts))
  {
    SplitNoSlash(dir);
    WalkIsPlain(look, Split(dir), [], 0);
    parts := Walk(look, Split(dir), [], 0).value;
  }

  /** A path without a leading slash is taken from the root, and the empty path is the root. */
  lemma {:induction false} FromRoot(look: string -> Look, path: string)
    ensures Resolve(look, "/" + path) == Resolve(look, path)
    ensures path == "" ==> Resolve(look, path) == Ok("/")
  {
    SplitAt("", path);
    assert "" + "/" + path == "/" + path;
    assert Split("/" + path)[0] == "" && Split("/" + path)[1..] == Split(path);
    if path == "" {
      RootOfNothing(look, path, []);
    }
  }

  /** Where the directory part does not resolve, nothing below it does. */
  lemma {:induction false} BelowNothing(look: string -> Look, dir: string, below: string)
    requires Resolve(look, dir) == Err
    ensures Resolve(look, dir + "/" + below) == Err
  {
    SplitTwo(dir, below);
    WalkInTwo(look, Split(dir), Split(below), [], 0);
  }

  /** The directory that a resolved path is in; the root is in itself. */
  ghost predicate IsParent(up: string, r: string) {
    if r == "/" then up == "/" else exists name :: NoSlash(name) && !BadLeaf(name) && r == Entry(up, name)
  }

  /** An empty or `.` component stays in the directory, `..` leads to its parent. */
  lemma {:induction false} DotComponents(look: string -> Look, dir: string, r: string, p: string)
    requires Resolve(look, dir) == Ok(r) && BadLeaf(p)
    ensures p != ".." ==> Resolve(look, dir + "/" + p) == Ok(r)
    ensures p == ".." ==> Resolve(look, dir + "/" + p).Ok? && IsParent(Resolve(look, dir + "/" + p).value, r)
  {
    var parts := WalkOfDir(look, dir);
    SplitSnoc(dir, p);
    WalkInTwo(look, Split(dir), [p], [], 0);
    var n := LinksAfter(look, Split(dir), [], 0);
    assert [p][1..] == [];
    if p == ".." {
      assert Walk(look, [p], parts, n) == Ok(Parent(parts));
      ParentPath(look, parts, []);
    } else {
      WalkSkipped(look, p, parts, n);
    }
  }

  lemma {:induction false} ParentPath(look: string -> Look, parts: seq<string>, none: seq<string>)
    requires Plain(look, parts) && none == []
    ensures IsParent(Abs(Parent(parts)), Abs(parts))
  {
    if parts == [] {
      assert parts == none && Parent(parts) == none && Join(none) == "";
    } else {
      var up, name := Parent(parts), parts[|parts| - 1];
      assert name in parts && parts == up + [name];
      PlainShrinks(look, parts);
      AbsSnoc(look, up, name);
      assert NoSlash(name) && !BadLeaf(name) && Abs(parts) == Entry(Abs(up), name);
      assert parts[0] in parts;
      JoinLength(parts);
    }
  }

  /** Where a link in directory `r` points to. */
  function Aim(r: string, target: string): string { if Absolute(target) then target else r + "/" + target }

  /**
   An entry of a directory: an ordinary one stays, one that cannot be looked up is an
   error, and a link leads where its target leads, an absolute one from the root and a
   relative one from the directory, as long as not more than 40 links are followed in all.
   */
  lemma {:induction false} EntryLeads(look: string -> Look, dir: string, r: string, leaf: string)
    requires Resolve(look, dir) == Ok(r) && NoSlash(leaf) && !BadLeaf(leaf)
    ensures Resolve(look, dir + "/" + leaf)
      == match look(Entry(r, leaf))
         case Fail => Err
         case NoLink => Ok(Entry(r, leaf))
         case Link(target) =>
           if Resolve(look, Aim(r, target)).Ok? && Links(look, dir) + 1 + Links(look, Aim(r, target)) <= MAX_LINKS
           then Resolve(look, Aim(r, target))
           else Err
    ensures Resolve(look, dir + "/" + leaf).Ok? ==>
      Links(look, dir + "/" + leaf)
      == match look(Entry(r, leaf))
         case Link(target) => Links(look, dir) + 1 + Links(look, Aim(r, target))
         case _ => Links(look, dir)
  {
    var parts := WalkOfDir(look, dir);
    SplitSnoc(dir, leaf);
    WalkInTwo(look, Split(dir), [leaf], [], 0);
    AbsSnoc(look, parts, leaf);
    EntryWalks(look, parts, leaf, Links(look, dir));
  }

  /** The last component of a walk. */
  lemma {:induction false} EntryWalks(look: string -> Look, parts: seq<string>, leaf: string, n: nat)
    requires Plain(look, parts) && NoSlash(leaf) && !BadLeaf(leaf) && n <= MAX_LINKS
    ensures match look(Abs(parts + [leaf]))
      case Fail => Walk(look, [leaf], parts, n) == Err
      case NoLink => Walk(look, [leaf], parts, n) == Ok(parts + [leaf]) && LinksAfter(look, [leaf], parts, n) == n
      case Link(target) =>
        var aim := Aim(Abs(parts), target);
        && (Walk(look, [leaf], parts, n).Ok? <==> Resolve(look, aim).Ok? && n + 1 + Links(look, aim) <= MAX_LINKS)
        && (Walk(look, [leaf], parts, n).Ok? ==>
             && Ok(Abs(Walk(look, [leaf], parts, n).value)) == Resolve(look, aim)
             && LinksAfter(look, [leaf], parts, n) == n + 1 + Links(look, aim))
  {
    var l := look(Abs(parts + [leaf]));
    assert [leaf][1..] == [];
    if l.Link? {
      assert Split(l.target) + [leaf][1..] == Split(l.target);
      AimWalks(look, parts, l.target);
      if n < MAX_LINKS {
        WalkLater(look, Split(l.target), Start(l.target, parts), 0, n + 1);
      }
    }
  }

  /** Resolving where a link points to is walking its target from where it starts. */
  lemma {:induction false} AimWalks(look: string -> Look, parts: seq<string>, target: string)
    requires Plain(look, parts)
    ensures var aim := Aim(Abs(parts), target); var from := Start(target, parts);
      && Walk(look, Split(aim), [], 0) == Walk(look, Split(target), from, 0)
      && (Resolve(look, aim).Ok? ==> Links(look, aim) == LinksAfter(look, Split(target), from, 0))
  {
    if !Absolute(target) {
      var r := Abs(parts);
      SplitTwo(r, target);
      WalkAbs(look, parts);
      WalkInTwo(look, Split(r), Split(target), [], 0);
    }
  }

  /** Remembers the directories looked up in one image. */
  class Installer {
    const look: string -> Look
    var directories: map<string, Look>

    ghost predicate Valid()
      reads this
    {
      forall path :: path in directories ==> directories[path] == look(path) && directories[path] != Fail
    }

    constructor (look: string -> Look)
      ensures Valid() && this.look == look
    {
      this.look, directories := look, map[];
    }

    /** One lookup, at most once per path; failures are not remembered. */
    method LookUp(path: string) returns (r: Look)
      requires Valid()
      modifies this
      ensures Valid() && r == look(path)
    {
      if path !in directories {
        r := look(path);
        if r == Fail {
          return;
        }
        directories := directories[path := r];
      }
      r := directories[path];
    }

    /** With any memo built up before, the answer is that of a fresh resolution. */
    method InstallDestination(destination: string) returns (r: Result<string>)
      requires Valid()
      modifies this
      ensures Valid() && r == Destination(look, destination)
    {
      var components := Split(destination);
      var leaf := components[|components| - 1];
      components := components[..|components| - 1];
      if leaf == "" || leaf == "." || leaf == ".." {
        return Err;
      }
      var resolved, links := [], 0;
      ghost var all := components;
      while components != []
        invariant Valid() && 0 <= links <= MAX_LINKS
        invariant Walk(look, all, [], 0) == Walk(look, components, resolved, links)
        decreases MAX_LINKS - links, |components|
      {
        var component := components[0];
        components := components[1..];
        if component == "" || component == "." {
          continue;
        }
        if component == ".." {
          if resolved != [] {
            resolved := resolved[..|resolved| - 1];
          }
          continue;
        }
        var target := LookUp(Abs(resolved + [component]));
        if target.Fail? {
          return Err;
        }
        if target.NoLink? {
          resolved := resolved + [component];
          continue;
        }
        if links + 1 > MAX_LINKS {
          return Err;
        }
        links := links + 1;
        if target.target != "" && target.target[0] == '/' {
          resolved := [];
        }
        components := Split(target.target) + components;
      }
      return Ok(Abs(resolved + [leaf]));
    }
  }
}
