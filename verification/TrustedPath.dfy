/**
 * Opening a path component by component without following symbolic links, except for one
 * owned `current -> generation-N` link on the way.
 */
module TrustedPath {
  import opened Wrappers
  import opened Bytes

  datatype Node =
    | Directory(uid: nat, mode: nat, readable: bool, searchable: bool, children: map<Bytes, Node>)
    | Regular(uid: nat, mode: nat, readable: bool, contents: Bytes)
    | Symlink(uid: nat, target: Bytes)
    | Special(uid: nat, mode: nat, readable: bool)

  datatype Errno = NoEntry | NotDirectory | Loop | Access

  datatype Error = InvalidPath | UnsafePath | Io(errno: Errno)

  datatype Result<+T> = Ok(value: T) | Err(error: Error)

  datatype Component = RootDir | CurDir | ParentDir | Normal(name: Bytes)

  /** Where a process stands: the root, its current directory and its user. */
  datatype Process = Process(root: Node, current: Node, uid: nat)

  datatype ExpectedKind = ExpectFile | ExpectDirectory

  datatype ExpectedMode = Private | Exact(mode: nat)

  const CURRENT: Bytes := [99, 117, 114, 114, 101, 110, 116]
  const GENERATION: Bytes := [103, 101, 110, 101, 114, 97, 116, 105, 111, 110, 45]

  predicate ValidGenerationTarget(target: Bytes)
  {
    && |target| > |GENERATION|
    && target[..|GENERATION|] == GENERATION
    && 49 <= target[|GENERATION|] <= 57
    && forall i :: |GENERATION| < i < |target| ==> IsDigit(target[i])
  }

  /** `openat` with `O_NOFOLLOW`; `directory` is `O_DIRECTORY`, `lookup` asks for no read access. */
  function OpenAt(d: Node, name: Bytes, directory: bool, lookup: bool): Result<Node>
  {
    if !d.Directory? then Err(Io(NotDirectory))
    else if !d.searchable then Err(Io(Access))
    else if name !in d.children then Err(Io(NoEntry))
    else
      var child := d.children[name];
      if child.Symlink? then Err(Io(if directory then NotDirectory else Loop))
      else if directory && !child.Directory? then Err(Io(NotDirectory))
      else if !lookup && !child.readable then Err(Io(Access))
      else Ok(child)
  }

  function Verify(n: Node, kind: ExpectedKind, mode: ExpectedMode, uid: nat): Result<Node>
  {
    if kind.ExpectFile? && !n.Regular? then Err(UnsafePath)
    else if kind.ExpectDirectory? && !n.Directory? then Err(UnsafePath)
    else if n.uid != uid then Err(UnsafePath)
    else if mode == Private && n.mode % 64 != 0 then Err(UnsafePath)
    else if mode.Exact? && n.mode != mode.mode then Err(UnsafePath)
    else Ok(n)
  }

  function NormalComponents(path: seq<Component>): Result<seq<Bytes>>
  {
    if path == [] then Ok([])
    else if path[0].ParentDir? then Err(InvalidPath)
    else
      match NormalComponents(path[1..])
      case Err(e) => Err(e)
      case Ok(rest) => Ok(if path[0].Normal? then [path[0].name] + rest else rest)
  }

  function Start(process: Process, path: seq<Component>): Node
  {
    if path != [] && path[0].RootDir? then process.root else process.current
  }

  /** The exception: what the link `current` in `d` leads to. */
  function FollowGeneration(d: Node, uid: nat): Result<Node>
    requires d.Directory? && CURRENT in d.children
  {
    var link := d.children[CURRENT];
    if !link.Symlink? || link.uid != uid then Err(UnsafePath)
    else if !ValidGenerationTarget(link.target) then Err(UnsafePath)
    else
      match OpenAt(d, link.target, true, true)
      case Err(e) => Err(e)
      case Ok(next) => Verify(next, ExpectDirectory, Private, uid)
  }

  /** Opens the rest of a path from `d`; `may` tells whether the exception is still to be had. */
  function Walk(d: Node, names: seq<Bytes>, directory: bool, may: bool, uid: nat): Result<Node>
    decreases |names|
  {
    if names == [] then Ok(d)
    else
      var last := |names| == 1;
      match OpenAt(d, names[0], directory || !last, !last)
      case Ok(next) => Walk(next, names[1..], directory, may, uid)
      case Err(e) =>
        if (e == Io(Loop) || e == Io(NotDirectory)) && may && !last && names[0] == CURRENT && d.Directory? then
          match FollowGeneration(d, uid)
          case Err(e) => Err(e)
          case Ok(next) => Walk(next, names[1..], directory, false, uid)
        else Err(e)
  }

  function Open(process: Process, path: seq<Component>, directory: bool, allowGeneration: bool): Result<Node>
  {
    if path == [] then Err(InvalidPath)
    else
      match NormalComponents(path)
      case Err(e) => Err(e)
      case Ok(names) =>
        var start := Start(process, path);
        if names != [] then Walk(start, names, directory, allowGeneration, process.uid)
        else if start.Symlink? || (directory && !start.Directory?) then Err(Io(NotDirectory))
        else if !start.readable then Err(Io(Access)) else Ok(start)
  }

  // ---- Plain lookup ----

  /** Follows names through real, searchable directories only. */
  function Find(d: Node, names: seq<Bytes>): Option<Node>
    decreases |names|
  {
    if names == [] then Some(d)
    else if d.Directory? && d.searchable && names[0] in d.children then Find(d.children[names[0]], names[1..])
    else None
  }

  predicate Openable(n: Node, directory: bool)
  {
    !n.Symlink? && n.readable && (directory ==> n.Directory?)
  }

  /** The one detour: `names[i]` is an owned `current` link to the owned private directory `names'[i]`. */
  ghost predicate Detour(d: Node, names: seq<Bytes>, i: nat, target: Bytes, uid: nat)
  {
    && i < |names| - 1 && names[i] == CURRENT
    && ValidGenerationTarget(target)
    && Find(d, names[..i]).Some?
    && var parent := Find(d, names[..i]).value;
      && parent.Directory? && CURRENT in parent.children && parent.children[CURRENT] == Symlink(uid, target)
      && target in parent.children
      && var next := parent.children[target]; next.Directory? && next.uid == uid && next.mode % 64 == 0
  }

  ghost predicate ByDetour(d: Node, names: seq<Bytes>, i: nat, target: Bytes, uid: nat, n: Node)
  {
    Detour(d, names, i, target, uid) && Find(d, names[i := target]) == Some(n)
  }

  lemma {:induction false} PlainWalk(d: Node, names: seq<Bytes>, directory: bool, uid: nat, n: Node)
    requires names != []
    ensures Walk(d, names, directory, false, uid) == Ok(n) <==> Find(d, names) == Some(n) && Openable(n, directory)
    decreases |names|
  {
    if |names| > 1 && OpenAt(d, names[0], true, true).Ok? {
      PlainWalk(d.children[names[0]], names[1..], directory, uid, n);
    } else if |names| > 1 && d.Directory? && d.searchable && names[0] in d.children {
      assert !d.children[names[0]].Directory?;
      assert Find(d.children[names[0]], names[1..]) == None;
    } else if |names| == 1 && d.Directory? && names[0] in d.children {
      assert Find(d.children[names[0]], names[1..]) == Some(d.children[names[0]]);
    }
  }

  /** Without the exception an open succeeds exactly where plain lookup leads, to something that may be opened. */
  lemma {:induction false} OpenFollowsNoLink(process: Process, path: seq<Component>, directory: bool, n: Node)
    ensures Open(process, path, directory, false) == Ok(n) <==>
            && path != [] && NormalComponents(path).Ok?
            && Find(Start(process, path), NormalComponents(path).value) == Some(n) && Openable(n, directory)
  {
    if path != [] && NormalComponents(path).Ok? && NormalComponents(path).value != [] {
      PlainWalk(Start(process, path), NormalComponents(path).value, directory, process.uid, n);
    }
  }

  lemma DetourLater(d: Node, names: seq<Bytes>, i: nat, target: Bytes, uid: nat, n: Node)
    requires names != [] && i > 0
    ensures ByDetour(d, names, i, target, uid, n) <==>
            && d.Directory? && d.searchable && names[0] in d.children
            && ByDetour(d.children[names[0]], names[1..], i - 1, target, uid, n)
  {
    if i < |names| - 1 {
      assert names[..i][1..] == names[1..][..i - 1];
      assert names[i := target][1..] == names[1..][i - 1 := target];
    }
  }

  ghost predicate Reaches(d: Node, names: seq<Bytes>, uid: nat, n: Node)
  {
    Find(d, names) == Some(n) || exists i: nat, target :: ByDetour(d, names, i, target, uid, n)
  }

  lemma {:induction false} GenerationWalk(d: Node, names: seq<Bytes>, directory: bool, uid: nat, n: Node)
    requires names != []
    ensures Walk(d, names, directory, true, uid) == Ok(n) <==> Reaches(d, names, uid, n) && Openable(n, directory)
    decreases |names|
  {
    ReachesStep(d, names, uid, n);
    PlainWalk(d, names, directory, uid, n);
    if |names| > 1 && d.Directory? && d.searchable && names[0] in d.children {
      var child := d.children[names[0]];
      if child.Directory? {
        GenerationWalk(child, names[1..], directory, uid, n);
      } else {
        if names[0] == CURRENT && child.Symlink? && child.target in d.children {
          PlainWalk(d.children[child.target], names[1..], directory, uid, n);
        }
      }
    }
  }

  /** What `Reaches` means for the first name of a path. */
  lemma ReachesStep(d: Node, names: seq<Bytes>, uid: nat, n: Node)
    requires names != []
    ensures Reaches(d, names, uid, n) <==>
            || (d.Directory? && d.searchable && names[0] in d.children
                && Reaches(d.children[names[0]], names[1..], uid, n))
            || (d.Directory? && CURRENT in d.children && d.children[CURRENT].Symlink?
                && ByDetour(d, names, 0, d.children[CURRENT].target, uid, n))
  {
    if i: nat, target :| ByDetour(d, names, i, target, uid, n) {
      if i > 0 {
        DetourLater(d, names, i, target, uid, n);
      }
    }
    if d.Directory? && d.searchable && names[0] in d.children && Reaches(d.children[names[0]], names[1..], uid, n) {
      if Find(d.children[names[0]], names[1..]) != Some(n) {
        var i: nat, target :| ByDetour(d.children[names[0]], names[1..], i, target, uid, n);
        DetourLater(d, names, i + 1, target, uid, n);
      }
    }
  }

  /**
   * With the exception, an open succeeds exactly where plain lookup leads either for the
   * path itself or for the path with one non-final `current` replaced by the generation
   * it links to, an owned private directory beside an owned link.
   */
  lemma OpenFollowsOneGeneration(process: Process, path: seq<Component>, directory: bool, n: Node)
    ensures Open(process, path, directory, true) == Ok(n) <==>
            && path != [] && NormalComponents(path).Ok? && Openable(n, directory)
            && Reaches(Start(process, path), NormalComponents(path).value, process.uid, n)
  {
    if path != [] && NormalComponents(path).Ok? {
      if NormalComponents(path).value != [] {
        GenerationWalk(Start(process, path), NormalComponents(path).value, directory, process.uid, n);
      } else {
        assert forall i: nat, target :: !ByDetour(Start(process, path), [], i, target, process.uid, n);
      }
    }
  }

  // ---- Paths as they are written ----

  function Normals(names: seq<Bytes>): (path: seq<Component>)
    ensures |path| == |names|
  {
    seq(|names|, i requires 0 <= i < |names| => Normal(names[i]))
  }

  lemma {:induction false} NormalsRead(names: seq<Bytes>)
    ensures NormalComponents(Normals(names)) == Ok(names)
  {
    if names != [] {
      assert Normals(names)[1..] == Normals(names[1..]);
      NormalsRead(names[1..]);
      assert names == [names[0]] + names[1..];
    }
  }

  /** An absolute path is looked up from the root, wherever the process stands. */
  lemma OpenFromRoot(process: Process, names: seq<Bytes>, directory: bool, n: Node)
    ensures var path := [RootDir] + Normals(names);
            && (Open(process, path, directory, false) == Ok(n) <==>
                  Find(process.root, names) == Some(n) && Openable(n, directory))
            && (Open(process, path, directory, true) == Ok(n) <==>
                  Reaches(process.root, names, process.uid, n) && Openable(n, directory))
  {
    var path := [RootDir] + Normals(names);
    assert path[1..] == Normals(names);
    NormalsRead(names);
    OpenFollowsNoLink(process, path, directory, n);
    OpenFollowsOneGeneration(process, path, directory, n);
  }

  /** A relative path is looked up from the current directory; an empty one opens nothing. */
  lemma OpenFromCurrent(process: Process, names: seq<Bytes>, directory: bool, n: Node)
    ensures var path := Normals(names);
            && (Open(process, path, directory, false) == Ok(n) <==>
                  names != [] && Find(process.current, names) == Some(n) && Openable(n, directory))
            && (Open(process, path, directory, true) == Ok(n) <==>
                  names != [] && Reaches(process.current, names, process.uid, n) && Openable(n, directory))
  {
    NormalsRead(names);
    OpenFollowsNoLink(process, Normals(names), directory, n);
    OpenFollowsOneGeneration(process, Normals(names), directory, n);
  }

  lemma {:induction false} ComponentsSkip(before: seq<Component>, after: seq<Component>)
    ensures NormalComponents(before + [CurDir] + after) == NormalComponents(before + after)
    decreases |before|
  {
    if before == [] {
      assert (before + [CurDir] + after)[1..] == after && before + after == after;
    } else {
      assert (before + [CurDir] + after)[1..] == before[1..] + [CurDir] + after;
      assert (before + after)[1..] == before[1..] + after;
      ComponentsSkip(before[1..], after);
    }
  }

  /** A `.` within a path changes nothing, and neither does one in front of a relative path. */
  lemma CurDirIgnored(process: Process, before: seq<Component>, after: seq<Component>, directory: bool, allow: bool)
    requires before != [] || (after != [] && !after[0].RootDir?)
    ensures Open(process, before + [CurDir] + after, directory, allow) ==
            Open(process, before + after, directory, allow)
  {
    ComponentsSkip(before, after);
    assert before != [] ==> (before + [CurDir] + after)[0] == (before + after)[0];
  }

  /** A path of nothing but `.` or `/` is that directory itself. */
  lemma OpenItself(process: Process, directory: bool, allow: bool, n: Node)
    ensures Open(process, [CurDir], directory, allow) == Ok(n) <==> n == process.current && Openable(n, directory)
    ensures Open(process, [RootDir], directory, allow) == Ok(n) <==> n == process.root && Openable(n, directory)
  {
    assert [CurDir][1..] == [] && [RootDir][1..] == [];
  }

  lemma {:induction false} ComponentsRefuse(path: seq<Component>)
    ensures NormalComponents(path) == Err(InvalidPath) <==> ParentDir in path
    ensures NormalComponents(path).Ok? <==> ParentDir !in path
  {
    if path != [] {
      ComponentsRefuse(path[1..]);
      assert ParentDir in path <==> path[0] == ParentDir || ParentDir in path[1..];
    }
  }

  /** No path with a `..` is opened, nor an empty one. */
  lemma ParentRefused(process: Process, path: seq<Component>, directory: bool, allow: bool)
    requires path == [] || ParentDir in path
    ensures Open(process, path, directory, allow) == Err(InvalidPath)
  {
    ComponentsRefuse(path);
  }

  // ---- Why an open fails ----

  /** What stops plain lookup at `names[i]`. */
  ghost predicate Blocks(d: Node, names: seq<Bytes>, i: nat, directory: bool, e: Errno)
  {
    && i < |names| && Find(d, names[..i]).Some?
    && var parent := Find(d, names[..i]).value;
      if !parent.Directory? then i == 0 && e == NotDirectory
      else if !parent.searchable then e == Access
      else if names[i] !in parent.children then e == NoEntry
      else Unopened(parent.children[names[i]], i < |names| - 1, directory, e)
  }

  /** On the way only a directory will do; at the end a link is a loop, unless a directory is wanted. */
  predicate Unopened(n: Node, onTheWay: bool, directory: bool, e: Errno)
  {
    match e
    case NotDirectory => (onTheWay || directory) && !n.Directory?
    case Loop => !onTheWay && !directory && n.Symlink?
    case Access => !onTheWay && (if directory then n.Directory? else !n.Symlink?) && !n.readable
    case NoEntry => false
  }

  lemma BlocksFirst(d: Node, names: seq<Bytes>, directory: bool, e: Errno)
    requires names != []
    ensures Blocks(d, names, 0, directory, e) <==>
            OpenAt(d, names[0], directory || |names| > 1, |names| > 1) == Err(Io(e))
  {
    assert names[..0] == [];
  }

  lemma FindFirst(d: Node, names: seq<Bytes>)
    requires names != []
    ensures Find(d, names).Some? <==>
            && d.Directory? && d.searchable && names[0] in d.children
            && Find(d.children[names[0]], names[1..]).Some?
    ensures Find(d, names).Some? ==>
            && Find(d, names) == Find(d.children[names[0]], names[1..])
            && (names[1..] != [] || Find(d, names).value.Directory? ==> OpenAt(d, names[0], true, true).Ok?)
  {
  }

  lemma BlocksLater(d: Node, names: seq<Bytes>, i: nat, directory: bool, e: Errno)
    requires names != [] && i > 0
    ensures Blocks(d, names, i, directory, e) <==>
            && OpenAt(d, names[0], true, true).Ok?
            && Blocks(d.children[names[0]], names[1..], i - 1, directory, e)
  {
    if i < |names| {
      assert names[..i][0] == names[0] && names[..i][1..] == names[1..][..i - 1];
      FindFirst(d, names[..i]);
    }
  }

  lemma {:induction false} WalkFailsExactly(d: Node, names: seq<Bytes>, directory: bool, uid: nat, e: Error)
    requires names != []
    ensures Walk(d, names, directory, false, uid) == Err(e) <==>
            e.Io? && exists i: nat :: Blocks(d, names, i, directory, e.errno)
    decreases |names|
  {
    var first := OpenAt(d, names[0], directory || |names| > 1, |names| > 1);
    if e.Io? {
      BlocksFirst(d, names, directory, e.errno);
      if i: nat :| i > 0 && Blocks(d, names, i, directory, e.errno) {
        BlocksLater(d, names, i, directory, e.errno);
      }
    }
    if |names| > 1 && first.Ok? {
      WalkFailsExactly(first.value, names[1..], directory, uid, e);
      if e.Io? && exists j: nat :: Blocks(first.value, names[1..], j, directory, e.errno) {
        var j: nat :| Blocks(first.value, names[1..], j, directory, e.errno);
        BlocksLater(d, names, j + 1, directory, e.errno);
      }
    }
  }

  /**
   * Without the exception: what an open that fails reports, for every path. It is the path
   * itself, the first name in the way, or the starting directory.
   */
  lemma OpenFailsExactly(process: Process, path: seq<Component>, directory: bool, e: Error)
    ensures Open(process, path, directory, false) == Err(e) <==>
            if path == [] || ParentDir in path then e == InvalidPath
            else
              NormalComponents(path).Ok? && e.Io? &&
              var names, start := NormalComponents(path).value, Start(process, path);
              if names != [] then exists i: nat :: Blocks(start, names, i, directory, e.errno)
              else if start.Symlink? || (directory && !start.Directory?) then e.errno == NotDirectory
              else !start.readable && e.errno == Access
  {
    ComponentsRefuse(path);
    if path != [] && ParentDir !in path && NormalComponents(path).value != [] {
      WalkFailsExactly(Start(process, path), NormalComponents(path).value, directory, process.uid, e);
    }
  }

  /** What `current` leads to is not to be trusted. */
  predicate Untrusted(d: Node, link: Node, uid: nat)
    requires d.Directory?
  {
    || !link.Symlink? || link.uid != uid || !ValidGenerationTarget(link.target)
    || (link.target in d.children
        && var next := d.children[link.target]; next.Directory? && (next.uid != uid || next.mode % 64 != 0))
  }

  /** `names[i]` is a `current` on the way that is no directory and not to be trusted. */
  ghost predicate UntrustedAt(d: Node, names: seq<Bytes>, i: nat, uid: nat)
  {
    && i < |names| - 1 && names[i] == CURRENT && Find(d, names[..i]).Some?
    && var parent := Find(d, names[..i]).value;
      && parent.Directory? && parent.searchable && CURRENT in parent.children
      && !parent.children[CURRENT].Directory? && Untrusted(parent, parent.children[CURRENT], uid)
  }

  lemma UntrustedLater(d: Node, names: seq<Bytes>, i: nat, uid: nat)
    requires names != [] && i > 0
    ensures UntrustedAt(d, names, i, uid) <==>
            && d.Directory? && d.searchable && names[0] in d.children
            && UntrustedAt(d.children[names[0]], names[1..], i - 1, uid)
  {
    if i < |names| - 1 {
      assert names[..i][0] == names[0] && names[..i][1..] == names[1..][..i - 1];
    }
  }

  lemma UntrustedBelow(d: Node, names: seq<Bytes>, i: nat, uid: nat)
    requires i > 0 && UntrustedAt(d, names, i, uid)
    ensures OpenAt(d, names[0], true, true).Ok?
  {
    UntrustedLater(d, names, i, uid);
    assert Find(d.children[names[0]], names[1..][..i - 1]).value.Directory?;
  }

  lemma UntrustedFirst(d: Node, names: seq<Bytes>, uid: nat)
    requires |names| > 1 && names[0] == CURRENT
    requires d.Directory? && d.searchable && CURRENT in d.children && !d.children[CURRENT].Directory?
    ensures UntrustedAt(d, names, 0, uid) <==> FollowGeneration(d, uid) == Err(UnsafePath)
    ensures UntrustedAt(d, names, 0, uid) <==> exists i: nat :: UntrustedAt(d, names, i, uid)
  {
    assert names[..0] == [];
    if i: nat :| i > 0 && UntrustedAt(d, names, i, uid) {
      UntrustedLater(d, names, i, uid);
    }
  }

  lemma UntrustedOn(d: Node, names: seq<Bytes>, uid: nat)
    requires names != [] && OpenAt(d, names[0], true, true).Ok?
    ensures (exists i: nat :: UntrustedAt(d, names, i, uid)) <==>
            exists j: nat :: UntrustedAt(d.children[names[0]], names[1..], j, uid)
  {
    assert names[..0] == [];
    assert !UntrustedAt(d, names, 0, uid);
    if i: nat :| UntrustedAt(d, names, i, uid) {
      UntrustedLater(d, names, i, uid);
      assert UntrustedAt(d.children[names[0]], names[1..], i - 1, uid);
    }
    if j: nat :| UntrustedAt(d.children[names[0]], names[1..], j, uid) {
      UntrustedLater(d, names, j + 1, uid);
      assert UntrustedAt(d, names, j + 1, uid);
    }
  }

  lemma UntrustedBlocked(d: Node, names: seq<Bytes>, uid: nat, i: nat)
    requires names != [] && OpenAt(d, names[0], true, true).Err? && UntrustedAt(d, names, i, uid)
    ensures names[0] == CURRENT && d.Directory? && d.searchable && CURRENT in d.children && |names| > 1
  {
    if i > 0 {
      UntrustedBelow(d, names, i, uid);
    } else {
      assert names[..0] == [];
    }
  }

  lemma {:induction false} WalkUnsafeExactly(d: Node, names: seq<Bytes>, directory: bool, uid: nat)
    requires names != []
    ensures Walk(d, names, directory, true, uid) == Err(UnsafePath) <==>
            exists i: nat :: UntrustedAt(d, names, i, uid)
    decreases |names|
  {
    if |names| > 1 {
      var first := OpenAt(d, names[0], true, true);
      if first.Ok? {
        WalkUnsafeExactly(first.value, names[1..], directory, uid);
        UntrustedOn(d, names, uid);
      } else {
        if i: nat :| UntrustedAt(d, names, i, uid) {
          UntrustedBlocked(d, names, uid, i);
        }
        if names[0] == CURRENT && d.Directory? && d.searchable && CURRENT in d.children {
          UntrustedFirst(d, names, uid);
          if FollowGeneration(d, uid).Ok? {
            WalkFailsExactly(FollowGeneration(d, uid).value, names[1..], directory, uid, UnsafePath);
          }
        }
      }
    }
  }

  /** With the exception: an open is unsafe exactly when it comes to a `current` that is not to be trusted. */
  lemma UnsafeExactly(process: Process, path: seq<Component>, directory: bool)
    ensures Open(process, path, directory, true) == Err(UnsafePath) <==>
            && path != [] && NormalComponents(path).Ok?
            && exists i: nat :: UntrustedAt(Start(process, path), NormalComponents(path).value, i, process.uid)
  {
    ComponentsRefuse(path);
    if path != [] && NormalComponents(path).Ok? && NormalComponents(path).value != [] {
      WalkUnsafeExactly(Start(process, path), NormalComponents(path).value, directory, process.uid);
    }
  }

  // ---- Generation names ----

  /** The link may name `generation-1`, `generation-2` and so on, and nothing else. */
  lemma GenerationNames(target: Bytes)
    ensures ValidGenerationTarget(target) <==> exists k: nat :: k > 0 && target == GENERATION + Decimal(k)
    ensures GENERATION == Ascii("generation-") && CURRENT == Ascii("current")
    ensures ValidGenerationTarget(target) ==> SLASH !in target && target != CURRENT
  {
    if ValidGenerationTarget(target) {
      var digits := target[|GENERATION|..];
      DigitsDecimal(digits);
      assert target == GENERATION + digits;
      assert SLASH !in digits;
    }
    if k: nat :| k > 0 && target == GENERATION + Decimal(k) {
      DecimalDigits(k);
      forall i | |GENERATION| < i < |target|
        ensures IsDigit(target[i])
      {
        assert target[i] == Decimal(k)[i - |GENERATION|];
      }
    }
  }

  // ---- The program ----

  method OpenTrusted(process: Process, path: seq<Component>, directory: bool, allowGeneration: bool)
      returns (r: Result<Node>)
    ensures r == Open(process, path, directory, allowGeneration)
  {
    if path == [] {
      return Err(InvalidPath);
    }
    var parsed := NormalComponents(path);
    if parsed.Err? || parsed.value == [] {
      return Open(process, path, directory, allowGeneration);
    }
    var names := parsed.value;
    var d := Start(process, path);
    var followed := false;
    for index := 0 to |names|
      invariant Open(process, path, directory, allowGeneration)
             == Walk(d, names[index..], directory, allowGeneration && !followed, process.uid)
    {
      var last := index + 1 == |names|;
      assert names[index..][1..] == names[index + 1..];
      var attempt := OpenAt(d, names[index], directory || !last, !last);
      if attempt.Ok? {
        d := attempt.value;
      } else if (attempt.error == Io(Loop) || attempt.error == Io(NotDirectory))
             && allowGeneration && !followed && !last && names[index] == CURRENT && d.Directory? {
        var next := FollowGeneration(d, process.uid);
        if next.Err? {
          return next;
        }
        followed := true;
        d := next.value;
      } else {
        return attempt;
      }
    }
    return Ok(d);
  }

  /** Opens a file through the link and checks what it got. */
  method OpenGenerationFile(process: Process, path: seq<Component>, mode: ExpectedMode) returns (r: Result<Node>)
    ensures forall n :: r == Ok(n) <==>
              && n.Regular? && n.readable && n.uid == process.uid
              && (mode == Private ==> n.mode % 64 == 0) && (mode.Exact? ==> n.mode == mode.mode)
              && path != [] && NormalComponents(path).Ok?
              && Reaches(Start(process, path), NormalComponents(path).value, process.uid, n)
    ensures var found := Open(process, path, false, true); r == found || (found.Ok? && r == Err(UnsafePath))
  {
    r := OpenTrusted(process, path, false, true);
    forall n
      ensures r == Ok(n) <==>
              && path != [] && NormalComponents(path).Ok? && Openable(n, false)
              && Reaches(Start(process, path), NormalComponents(path).value, process.uid, n)
    {
      OpenFollowsOneGeneration(process, path, false, n);
    }
    if r.Ok? {
      r := Verify(r.value, ExpectFile, mode, process.uid);
    }
  }
}
