/**
 * The binary fingerprint of a source tree: one record per directory and regular file,
 * in name order, with `.git` directories left out. Two trees that can be fingerprinted
 * have equal streams exactly when what the fingerprint is about, their `View`, is equal.
 */
module SnapshotStream {
  import opened Wrappers
  import opened Bytes

  /** What `fstat` says, and whether the entry can be opened at all. */
  datatype Meta = Meta(mode: nat, uid: nat, opens: bool)

  /**
   * A file tree as the directory reader lists it, `.` and `..` removed. `listingStable`,
   * `stable`: a later `fstat` returns what the first one did.
   */
  datatype Node =
    | Directory(meta: Meta, entries: seq<Entry>, listingStable: bool, stable: bool)
    | Regular(meta: Meta, contents: Bytes, stable: bool)
    | Special(meta: Meta)

  datatype Entry = Entry(name: Bytes, node: Node)

  /** The permission bits and those for set-id and sticky. */
  type Permissions = m: nat | m < 4096

  datatype Record =
    | DirectoryRecord(mode: Permissions, path: Bytes)
    | FileRecord(mode: Permissions, path: Bytes, contents: Bytes)

  datatype Error = OpenFailed | Unowned | NotPlain | Changed | NotOwnedDirectory

  /** What a walk has written when it ends, and the error that ended it early. */
  datatype Emission = Emission(records: seq<Record>, error: Option<Error>)

  const GIT: Bytes := [46, 103, 105, 116]
  const ROOT: Bytes := [46]

  const MODE_BYTES: nat := 4
  const LENGTH_BYTES: nat := 8

  function PermissionBits(mode: nat): Permissions { mode % 4096 }

  function Join(path: Bytes, name: Bytes): Bytes { path + [SLASH] + name }

  function Names(entries: seq<Entry>): (names: seq<Bytes>)
    ensures |names| == |entries|
    ensures forall i :: 0 <= i < |names| ==> names[i] == entries[i].name
  {
    seq(|entries|, i requires 0 <= i < |entries| => entries[i].name)
  }

  function IndexOf(entries: seq<Entry>, name: Bytes): (i: nat)
    requires name in Names(entries)
    ensures i < |entries| && entries[i].name == name
  {
    if entries[0].name == name then 0
    else
      assert Names(entries)[1..] == Names(entries[1..]);
      1 + IndexOf(entries[1..], name)
  }

  /** `openat` by name. */
  function Lookup(d: Node, name: Bytes): (child: Node)
    requires d.Directory? && name in Names(d.entries)
    ensures child < d
  {
    d.entries[IndexOf(d.entries, name)].node
  }

  predicate IsGitDirectory(name: Bytes, child: Node) { name == GIT && child.Directory? }

  /** The names a file system can hold: distinct, not empty, without `/`. */
  predicate WellFormed(t: Node)
  {
    t.Directory? ==>
      && Distinct(Names(t.entries))
      && (forall e :: e in t.entries ==> e.name != [] && SLASH !in e.name && WellFormed(e.node))
  }

  // ---- The walk ----

  function EmitDirectory(d: Node, path: Bytes, uid: nat): Emission
    requires d.Directory?
    decreases d, 1, 0
  {
    if !d.listingStable then Emission([], Some(Changed))
    else
      var names := Sort(Names(d.entries));
      SameMembers(names, Names(d.entries));
      var below := EmitNames(d, names, path, uid);
      var records := [DirectoryRecord(PermissionBits(d.meta.mode), path)] + below.records;
      if below.error.Some? then Emission(records, below.error)
      else Emission(records, if d.stable then None else Some(Changed))
  }

  function EmitNames(d: Node, names: seq<Bytes>, path: Bytes, uid: nat): Emission
    requires d.Directory? && forall n :: n in names ==> n in Names(d.entries)
    decreases d, 0, |names|
  {
    if names == [] then Emission([], None)
    else
      var first := EmitChild(names[0], Lookup(d, names[0]), Join(path, names[0]), uid);
      if first.error.Some? then first
      else
        var rest := EmitNames(d, names[1..], path, uid);
        Emission(first.records + rest.records, rest.error)
  }

  function EmitChild(name: Bytes, child: Node, path: Bytes, uid: nat): Emission
    decreases child, 2, 0
  {
    if !child.meta.opens then Emission([], Some(OpenFailed))
    else if IsGitDirectory(name, child) then Emission([], None)
    else if child.meta.uid != uid then Emission([], Some(Unowned))
    else if child.Directory? then EmitDirectory(child, path, uid)
    else if child.Special? then Emission([], Some(NotPlain))
    else if !child.stable then Emission([], Some(Changed))
    else Emission([FileRecord(PermissionBits(child.meta.mode), path, child.contents)], None)
  }

  function EmitTree(root: Node, uid: nat): Emission
  {
    if !root.meta.opens then Emission([], Some(OpenFailed))
    else if !root.Directory? || root.meta.uid != uid then Emission([], Some(NotOwnedDirectory))
    else EmitDirectory(root, ROOT, uid)
  }

  // ---- When a walk succeeds ----

  predicate Acceptable(name: Bytes, child: Node, uid: nat)
    decreases child, 1
  {
    && child.meta.opens
    && (IsGitDirectory(name, child) ||
        (child.meta.uid == uid && (child.Directory? || child.Regular?) && Settled(child, uid)))
  }

  /** Nothing below changes, is unreadable, is owned by others or is a special file. */
  predicate Settled(t: Node, uid: nat)
    decreases t, 0
  {
    match t
    case Directory(_, entries, listingStable, stable) =>
      listingStable && stable && forall e :: e in entries ==> Acceptable(e.name, e.node, uid)
    case Regular(_, _, stable) => stable
    case Special(_) => false
  }

  /** The one directory left out, and how the paths of the records begin. */
  lemma FixedNames()
    ensures GIT == Ascii(".git") && ROOT == Ascii(".") && [SLASH] == Ascii("/")
  {
  }

  lemma LookupMember(d: Node, e: Entry)
    requires d.Directory? && e in d.entries && Distinct(Names(d.entries))
    ensures e.name in Names(d.entries) && Lookup(d, e.name) == e.node
  {
    var i :| 0 <= i < |d.entries| && d.entries[i] == e;
    assert Names(d.entries)[i] == e.name;
    var j := IndexOf(d.entries, e.name);
    assert Names(d.entries)[j] == Names(d.entries)[i];
  }

  lemma {:induction false} DirectorySucceeds(d: Node, path: Bytes, uid: nat)
    requires d.Directory? && WellFormed(d)
    ensures EmitDirectory(d, path, uid).error.None? <==> Settled(d, uid)
    decreases d, 1, 0
  {
    var names := Sort(Names(d.entries));
    SameMembers(names, Names(d.entries));
    NamesSucceed(d, names, path, uid);
    if forall n :: n in names ==> Acceptable(n, Lookup(d, n), uid) {
      forall e | e in d.entries
        ensures Acceptable(e.name, e.node, uid)
      {
        LookupMember(d, e);
      }
    }
    forall n | n in names && (forall e :: e in d.entries ==> Acceptable(e.name, e.node, uid))
      ensures Acceptable(n, Lookup(d, n), uid)
    {
    }
  }

  lemma {:induction false} NamesSucceed(d: Node, names: seq<Bytes>, path: Bytes, uid: nat)
    requires d.Directory? && WellFormed(d) && forall n :: n in names ==> n in Names(d.entries)
    ensures EmitNames(d, names, path, uid).error.None? <==>
            forall n :: n in names ==> Acceptable(n, Lookup(d, n), uid)
    decreases d, 0, |names|
  {
    if names != [] {
      var child := Lookup(d, names[0]);
      if child.Directory? {
        DirectorySucceeds(child, Join(path, names[0]), uid);
      }
      NamesSucceed(d, names[1..], path, uid);
      assert forall n :: n in names <==> n == names[0] || n in names[1..];
    }
  }

  /** The walk fails exactly on a disturbed, unreadable, foreign or special entry. */
  lemma SnapshotSucceedsExactly(root: Node, uid: nat)
    requires WellFormed(root)
    ensures EmitTree(root, uid).error.None? <==>
            root.meta.opens && root.meta.uid == uid && root.Directory? && Settled(root, uid)
  {
    if root.Directory? {
      DirectorySucceeds(root, ROOT, uid);
    }
  }

  // ---- What the fingerprint is about ----

  datatype View =
    | DirectoryView(permissions: set<nat>, children: map<Bytes, View>)
    | FileView(permissions: set<nat>, contents: Bytes)

  /** The binary digit of weight 2 to the power `k`. */
  predicate Bit(n: nat, k: nat)
  {
    if k == 0 then n % 2 == 1 else Bit(n / 2, k - 1)
  }

  /** Which of the twelve permission bits are set in a raw mode, the file's type being above them. */
  ghost function Bits(mode: nat): set<nat>
  {
    set k: nat | k < 12 && Bit(mode, k)
  }

  /** All but a directory named `.git`. */
  predicate Kept(d: Node, name: Bytes)
    requires d.Directory? && name in Names(d.entries)
  {
    !(name == [46, 103, 105, 116] && Lookup(d, name).Directory?)
  }

  /** No order here: the children are a finite map from names. */
  ghost function ViewOf(t: Node): View
    decreases t, 1
  {
    match t
    case Directory(meta, entries, _, _) => DirectoryView(Bits(meta.mode), ViewNames(t, Names(entries)))
    case Regular(meta, contents, _) => FileView(Bits(meta.mode), contents)
    case Special(meta) => FileView(Bits(meta.mode), [])
  }

  ghost function ViewNames(d: Node, names: seq<Bytes>): map<Bytes, View>
    requires d.Directory? && forall n :: n in names ==> n in Names(d.entries)
    decreases d, 0
  {
    map n | n in names && Kept(d, n) :: ViewOf(Lookup(d, n))
  }

  // ---- Permission bits ----

  function Pow2(width: nat): (p: nat)
    ensures p > 0
  {
    if width == 0 then 1 else 2 * Pow2(width - 1)
  }

  lemma {:induction false} SameDigits(a: nat, b: nat, width: nat)
    requires a < Pow2(width) && b < Pow2(width) && forall k: nat :: k < width ==> Bit(a, k) == Bit(b, k)
    ensures a == b
  {
    if width > 0 {
      assert Bit(a, 0) == Bit(b, 0);
      forall k: nat | k < width - 1
        ensures Bit(a / 2, k) == Bit(b / 2, k)
      {
        assert Bit(a, k + 1) == Bit(b, k + 1);
      }
      SameDigits(a / 2, b / 2, width - 1);
    }
  }

  lemma HalfOfRemainder(n: nat, p: nat)
    requires p > 0
    ensures n % (2 * p) / 2 == n / 2 % p && n % (2 * p) % 2 == n % 2
  {
    var q, r := n / (2 * p), n % (2 * p);
    assert n == 2 * (p * q) + r && n / 2 == p * q + r / 2;
    RemainderOf(n / 2, p, q, r / 2);
  }

  lemma RemainderOf(n: nat, p: nat, q: nat, r: nat)
    requires n == p * q + r && r < p
    ensures n % p == r
  {
    var d: int, e: int := n / p - q, p;
    assert e * d == r - n % p;
    assert d >= 1 ==> e * d >= e;
    assert d <= -1 ==> e * d <= -e;
  }

  lemma {:induction false} LowDigits(n: nat, width: nat, k: nat)
    requires k < width
    ensures Bit(n % Pow2(width), k) == Bit(n, k)
  {
    HalfOfRemainder(n, Pow2(width - 1));
    if k > 0 {
      LowDigits(n / 2, width - 1, k - 1);
    }
  }

  lemma TwelveBits()
    ensures Pow2(12) == 4096
  {
    assert Pow2(4) == 16 && Pow2(8) == 256;
  }

  lemma BitsOfPermissions(mode: nat)
    ensures Bits(PermissionBits(mode)) == Bits(mode)
  {
    TwelveBits();
    forall k: nat | k < 12
      ensures Bit(PermissionBits(mode), k) == Bit(mode, k)
    {
      LowDigits(mode, 12, k);
    }
  }

  lemma BitsInjective(a: Permissions, b: Permissions)
    requires Bits(a) == Bits(b)
    ensures a == b
  {
    TwelveBits();
    forall k: nat | k < 12
      ensures Bit(a, k) == Bit(b, k)
    {
      assert k in Bits(a) <==> k in Bits(b);
    }
    SameDigits(a, b, 12);
  }

  /** The recorded number is the raw mode without the bits of the file's type. */
  lemma PermissionsOfMode(kind: nat, permissions: Permissions)
    ensures PermissionBits(kind * 4096 + permissions) == permissions
  {
  }

  // ---- Ordered trees, between walks and views ----

  datatype Tree = Branch(permissions: Permissions, kids: Kids) | Leaf(permissions: Permissions, contents: Bytes)

  datatype Kids = NoKids | Kid(name: Bytes, tree: Tree, rest: Kids)

  function TreeRecords(t: Tree, path: Bytes): (r: seq<Record>)
    ensures r != [] && r[0].path == path
  {
    match t
    case Branch(permissions, kids) => [DirectoryRecord(permissions, path)] + KidsRecords(kids, path)
    case Leaf(permissions, contents) => [FileRecord(permissions, path, contents)]
  }

  function KidsRecords(kids: Kids, path: Bytes): seq<Record>
  {
    match kids
    case NoKids => []
    case Kid(name, tree, rest) => TreeRecords(tree, Join(path, name)) + KidsRecords(rest, path)
  }

  /** Every name is free of `/`, and the names of each directory ascend. */
  ghost predicate Proper(t: Tree)
  {
    t.Branch? ==> ProperKids(t.kids)
  }

  ghost predicate ProperKids(kids: Kids)
  {
    kids.Kid? ==> SLASH !in kids.name && Proper(kids.tree) && Above(kids.name, kids.rest) && ProperKids(kids.rest)
  }

  ghost predicate Above(name: Bytes, kids: Kids)
  {
    kids.Kid? ==> Less(name, kids.name) && Above(name, kids.rest)
  }

  // ---- Equal records come from equal trees ----

  predicate Under(p: Bytes, path: Bytes)
  {
    |path| < |p| && p[..|path|] == path && p[|path|] == SLASH
  }

  predicate Outside(records: seq<Record>, path: Bytes)
  {
    records != [] ==> !Under(records[0].path, path)
  }

  lemma JoinUnder(path: Bytes, name: Bytes)
    ensures Under(Join(path, name), path)
    ensures Join(path, name)[|path| + 1..] == name
  {
  }

  lemma JoinInjective(path: Bytes, a: Bytes, b: Bytes)
    requires Join(path, a) == Join(path, b)
    ensures a == b
  {
    JoinUnder(path, a);
    JoinUnder(path, b);
  }

  lemma {:induction false} TreeInjective(s: Tree, t: Tree, path: Bytes, x: seq<Record>, y: seq<Record>)
    requires Proper(s) && Proper(t) && Outside(x, path) && Outside(y, path)
    requires TreeRecords(s, path) + x == TreeRecords(t, path) + y
    ensures s == t && x == y
  {
    assert (TreeRecords(s, path) + x)[0] == TreeRecords(s, path)[0];
    assert (TreeRecords(t, path) + y)[0] == TreeRecords(t, path)[0];
    if s.Branch? {
      assert (TreeRecords(s, path) + x)[1..] == KidsRecords(s.kids, path) + x;
      assert (TreeRecords(t, path) + y)[1..] == KidsRecords(t.kids, path) + y;
      KidsInjective(s.kids, t.kids, path, x, y);
    } else {
      assert (TreeRecords(s, path) + x)[1..] == x;
      assert (TreeRecords(t, path) + y)[1..] == y;
    }
  }

  lemma {:induction false} KidsInjective(s: Kids, t: Kids, path: Bytes, x: seq<Record>, y: seq<Record>)
    requires ProperKids(s) && ProperKids(t) && Outside(x, path) && Outside(y, path)
    requires KidsRecords(s, path) + x == KidsRecords(t, path) + y
    ensures s == t && x == y
  {
    if s.NoKids? || t.NoKids? {
      KidsNotEmpty(s, path, x);
      KidsNotEmpty(t, path, y);
    } else {
      KidsNotEmpty(s, path, x);
      KidsNotEmpty(t, path, y);
      JoinInjective(path, s.name, t.name);
      var p := Join(path, s.name);
      var u, v := KidsRecords(s.rest, path) + x, KidsRecords(t.rest, path) + y;
      assert KidsRecords(s, path) + x == TreeRecords(s.tree, p) + u;
      assert KidsRecords(t, path) + y == TreeRecords(t.tree, p) + v;
      TreeInjective(s.tree, t.tree, p, u, v);
      KidsInjective(s.rest, t.rest, path, x, y);
    }
  }

  lemma KidsNotEmpty(kids: Kids, path: Bytes, x: seq<Record>)
    ensures kids.NoKids? ==> KidsRecords(kids, path) + x == x
    ensures kids.Kid? ==> KidsRecords(kids, path) + x != []
    ensures kids.Kid? ==> (KidsRecords(kids, path) + x)[0].path == Join(path, kids.name)
    ensures kids.Kid? ==> Under((KidsRecords(kids, path) + x)[0].path, path)
  {
  }

  // ---- Equal views come from equal trees ----

  ghost function TreeView(t: Tree): View
  {
    match t
    case Branch(permissions, kids) => DirectoryView(Bits(permissions), KidsView(kids))
    case Leaf(permissions, contents) => FileView(Bits(permissions), contents)
  }

  ghost function KidsView(kids: Kids): map<Bytes, View>
  {
    match kids
    case NoKids => map[]
    case Kid(name, tree, rest) => KidsView(rest)[name := TreeView(tree)]
  }

  lemma {:induction false} AboveAll(name: Bytes, kids: Kids)
    requires Above(name, kids)
    ensures forall n :: n in KidsView(kids) ==> Less(name, n)
    ensures name !in KidsView(kids)
  {
    LessIrreflexive(name);
    if kids.Kid? {
      AboveAll(name, kids.rest);
    }
  }

  lemma {:induction false} TreeViewInjective(s: Tree, t: Tree)
    requires Proper(s) && Proper(t) && TreeView(s) == TreeView(t)
    ensures s == t
  {
    BitsInjective(s.permissions, t.permissions);
    if s.Branch? {
      KidsViewInjective(s.kids, t.kids);
    }
  }

  lemma {:induction false} KidsViewInjective(s: Kids, t: Kids)
    requires ProperKids(s) && ProperKids(t) && KidsView(s) == KidsView(t)
    ensures s == t
  {
    assert s.Kid? ==> s.name in KidsView(s);
    assert t.Kid? ==> t.name in KidsView(t);
    if s.Kid? && t.Kid? {
      AboveAll(s.name, s.rest);
      AboveAll(t.name, t.rest);
      if s.name != t.name {
        LessTransitive(s.name, t.name, s.name);
        LessIrreflexive(s.name);
      }
      assert KidsView(s.rest) == KidsView(s) - {s.name};
      assert KidsView(t.rest) == KidsView(t) - {t.name};
      TreeViewInjective(s.tree, t.tree) by {
        assert TreeView(s.tree) == KidsView(s)[s.name];
        assert TreeView(t.tree) == KidsView(t)[t.name];
      }
      KidsViewInjective(s.rest, t.rest);
    }
  }

  // ---- A walk prints the pruned tree ----

  ghost function Prune(d: Node): Tree
    decreases d, 1, 0
  {
    match d
    case Directory(meta, entries, _, _) =>
      SameMembers(Sort(Names(entries)), Names(entries));
      Branch(PermissionBits(meta.mode), PruneNames(d, Sort(Names(entries))))
    case Regular(meta, contents, _) => Leaf(PermissionBits(meta.mode), contents)
    case Special(meta) => Leaf(PermissionBits(meta.mode), [])
  }

  ghost function PruneNames(d: Node, names: seq<Bytes>): Kids
    requires d.Directory? && forall n :: n in names ==> n in Names(d.entries)
    decreases d, 0, |names|
  {
    if names == [] then NoKids
    else if Kept(d, names[0]) then Kid(names[0], Prune(Lookup(d, names[0])), PruneNames(d, names[1..]))
    else PruneNames(d, names[1..])
  }

  lemma {:induction false} DirectoryPrints(d: Node, path: Bytes, uid: nat)
    requires d.Directory? && EmitDirectory(d, path, uid).error.None?
    ensures EmitDirectory(d, path, uid).records == TreeRecords(Prune(d), path)
    decreases d, 1, 0
  {
    var names := Sort(Names(d.entries));
    SameMembers(names, Names(d.entries));
    NamesPrint(d, names, path, uid);
  }

  lemma {:induction false} NamesPrint(d: Node, names: seq<Bytes>, path: Bytes, uid: nat)
    requires d.Directory? && forall n :: n in names ==> n in Names(d.entries)
    requires EmitNames(d, names, path, uid).error.None?
    ensures EmitNames(d, names, path, uid).records == KidsRecords(PruneNames(d, names), path)
    decreases d, 0, |names|
  {
    if names != [] {
      var child := Lookup(d, names[0]);
      NamesPrint(d, names[1..], path, uid);
      if child.Directory? && Kept(d, names[0]) {
        DirectoryPrints(child, Join(path, names[0]), uid);
      }
    }
  }

  lemma SortedView(d: Node)
    requires d.Directory?
    ensures forall n :: n in Sort(Names(d.entries)) <==> n in Names(d.entries)
    ensures ViewNames(d, Sort(Names(d.entries))) == ViewNames(d, Names(d.entries))
  {
    SameMembers(Sort(Names(d.entries)), Names(d.entries));
  }

  lemma {:induction false} PruneProper(d: Node)
    requires WellFormed(d)
    ensures Proper(Prune(d)) && TreeView(Prune(d)) == ViewOf(d)
    decreases d, 1, 0
  {
    BitsOfPermissions(d.meta.mode);
    if d.Directory? {
      SortedView(d);
      SortAscending(Names(d.entries));
      PruneNamesProper(d, Sort(Names(d.entries)));
    }
  }

  lemma {:induction false} PruneNamesProper(d: Node, names: seq<Bytes>)
    requires d.Directory? && WellFormed(d) && Ascending(names)
    requires forall n :: n in names ==> n in Names(d.entries)
    ensures ProperKids(PruneNames(d, names)) && KidsView(PruneNames(d, names)) == ViewNames(d, names)
    decreases d, 0, |names|
  {
    if names != [] {
      PruneNamesProper(d, names[1..]);
      if Kept(d, names[0]) {
        PruneProper(Lookup(d, names[0]));
        PruneAbove(d, names[1..], names[0]);
      }
    }
  }

  lemma {:induction false} PruneAbove(d: Node, names: seq<Bytes>, name: Bytes)
    requires d.Directory? && forall n :: n in names ==> n in Names(d.entries)
    requires forall i :: 0 <= i < |names| ==> Less(name, names[i])
    ensures Above(name, PruneNames(d, names))
    decreases |names|
  {
    if names != [] {
      PruneAbove(d, names[1..], name);
    }
  }

  // ---- Every file is in the stream ----

  /** The regular file below `d` at these names, none of the directories on the way being called `.git`. */
  function FileAt(d: Node, names: seq<Bytes>): (f: Option<Node>)
    requires d.Directory?
    ensures f.Some? ==> f.value.Regular?
    decreases |names|
  {
    if names == [] || names[0] !in Names(d.entries) then None
    else
      var child := Lookup(d, names[0]);
      if |names| == 1 then (if child.Regular? then Some(child) else None)
      else if child.Directory? && names[0] != [46, 103, 105, 116] then FileAt(child, names[1..])
      else None
  }

  /** The names after a path, each behind a slash. */
  function PathText(path: Bytes, names: seq<Bytes>): Bytes
    decreases |names|
  {
    if names == [] then path else PathText(path + [47] + names[0], names[1..])
  }

  lemma {:induction false} NamesInclude(d: Node, names: seq<Bytes>, path: Bytes, uid: nat, name: Bytes)
    requires d.Directory? && (forall n :: n in names ==> n in Names(d.entries)) && name in names
    requires EmitNames(d, names, path, uid).error.None?
    ensures EmitChild(name, Lookup(d, name), Join(path, name), uid).error.None?
    ensures forall r :: r in EmitChild(name, Lookup(d, name), Join(path, name), uid).records ==>
                          r in EmitNames(d, names, path, uid).records
    decreases |names|
  {
    if names[0] != name {
      NamesInclude(d, names[1..], path, uid, name);
    }
  }

  lemma {:induction false} FileBelow(d: Node, path: Bytes, names: seq<Bytes>, uid: nat)
    requires d.Directory? && EmitDirectory(d, path, uid).error.None? && FileAt(d, names).Some?
    ensures var f := FileAt(d, names).value;
            FileRecord(PermissionBits(f.meta.mode), PathText(path, names), f.contents)
            in EmitDirectory(d, path, uid).records
    decreases |names|
  {
    var sorted, name := Sort(Names(d.entries)), names[0];
    SameMembers(sorted, Names(d.entries));
    NamesInclude(d, sorted, path, uid, name);
    if |names| > 1 {
      FileBelow(Lookup(d, name), Join(path, name), names[1..], uid);
    }
  }

  /**
   * A stream begins with the root's own record, called `.`, and holds every file below it
   * that is not in a `.git` directory, under its path from there, with its bits and contents.
   */
  lemma EveryFileIsRecorded(root: Node, uid: nat, names: seq<Bytes>)
    requires EmitTree(root, uid).error.None?
    ensures EmitTree(root, uid).records != []
    ensures EmitTree(root, uid).records[0] == DirectoryRecord(PermissionBits(root.meta.mode), [46])
    ensures FileAt(root, names).Some? ==>
              var f := FileAt(root, names).value;
              FileRecord(PermissionBits(f.meta.mode), PathText([46], names), f.contents) in EmitTree(root, uid).records
  {
    if FileAt(root, names).Some? {
      FileBelow(root, ROOT, names, uid);
    }
  }

  // ---- Records as bytes ----

  /** A length the machine can count. */
  const COUNTABLE: nat := 0x1_0000_0000_0000_0000

  predicate Countable(r: Record)
  {
    |r.path| < COUNTABLE && (r.FileRecord? ==> |r.contents| < COUNTABLE)
  }

  predicate AllCountable(records: seq<Record>)
  {
    forall i :: 0 <= i < |records| ==> Countable(records[i])
  }

  function Encode(r: Record): Bytes
  {
    var contents := if r.FileRecord? then r.contents else [];
    [if r.FileRecord? then 70 else 68]
    + LittleEndian(r.mode, MODE_BYTES)
    + LittleEndian(|r.path|, LENGTH_BYTES)
    + r.path
    + LittleEndian(|contents|, LENGTH_BYTES)
    + contents
  }

  function EncodeAll(records: seq<Record>): Bytes
  {
    if records == [] then [] else Encode(records[0]) + EncodeAll(records[1..])
  }

  /** Reads one record off the front of a stream. */
  function Decode(s: Bytes): Option<(Record, Bytes)>
  {
    if |s| < 13 || (s[0] != 68 && s[0] != 70) then None
    else
      var mode := FromLittleEndian(s[1..5]);
      var length := FromLittleEndian(s[5..13]);
      if mode >= 4096 || |s| < 13 + length + 8 then None
      else
        var path := s[13..13 + length];
        var size := FromLittleEndian(s[13 + length..13 + length + 8]);
        var rest := s[13 + length + 8..];
        if |rest| < size || (s[0] == 68 && size != 0) then None
        else
          var record := if s[0] == 70 then FileRecord(mode, path, rest[..size]) else DirectoryRecord(mode, path);
          Some((record, rest[size..]))
  }

  lemma Fields(kind: Byte, mode: Bytes, length: Bytes, path: Bytes, size: Bytes, contents: Bytes, rest: Bytes)
    requires |mode| == 4 && |length| == |size| == 8
    ensures var s := [kind] + mode + length + path + size + contents + rest;
            && |s| == 21 + |path| + |contents| + |rest|
            && s[0] == kind && s[1..5] == mode && s[5..13] == length
            && s[13..13 + |path|] == path
            && s[13 + |path|..13 + |path| + 8] == size
            && s[13 + |path| + 8..] == contents + rest
            && (contents + rest)[..|contents|] == contents
            && (contents + rest)[|contents|..] == rest
  {
  }

  /** Every record is self-delimiting: what follows it is returned untouched. */
  lemma DecodeEncode(r: Record, rest: Bytes)
    requires Countable(r)
    ensures Decode(Encode(r) + rest) == Some((r, rest))
  {
    var contents := if r.FileRecord? then r.contents else [];
    LittleEndianRoundTrip(r.mode, MODE_BYTES);
    LittleEndianRoundTrip(|r.path|, LENGTH_BYTES);
    LittleEndianRoundTrip(|contents|, LENGTH_BYTES);
    Fields(if r.FileRecord? then 70 else 68,
           LittleEndian(r.mode, MODE_BYTES), LittleEndian(|r.path|, LENGTH_BYTES), r.path,
           LittleEndian(|contents|, LENGTH_BYTES), contents, rest);
  }

  lemma {:induction false} EncodeAllInjective(a: seq<Record>, b: seq<Record>)
    requires AllCountable(a) && AllCountable(b)
    requires EncodeAll(a) == EncodeAll(b)
    ensures a == b
  {
    if a != [] && b != [] {
      DecodeEncode(a[0], EncodeAll(a[1..]));
      DecodeEncode(b[0], EncodeAll(b[1..]));
      EncodeAllInjective(a[1..], b[1..]);
      assert a == [a[0]] + a[1..] && b == [b[0]] + b[1..];
    }
  }

  lemma {:induction false} EncodeAllAppend(a: seq<Record>, b: seq<Record>)
    ensures EncodeAll(a + b) == EncodeAll(a) + EncodeAll(b)
  {
    if a == [] {
      assert a + b == b;
    } else {
      assert (a + b)[1..] == a[1..] + b;
      EncodeAllAppend(a[1..], b);
    }
  }

  /** The bytes `snapshot_tree` leaves on its output. */
  function Stream(root: Node, uid: nat): Bytes
  {
    EncodeAll(EmitTree(root, uid).records)
  }

  /**
   * The fingerprint is faithful: two trees that are snapshotted without error have the
   * same stream exactly when they agree on every name, permission and content outside
   * `.git` directories, whatever order their directories were read in.
   */
  lemma SnapshotFaithful(s: Node, t: Node, uid: nat)
    requires WellFormed(s) && WellFormed(t)
    requires EmitTree(s, uid).error.None? && EmitTree(t, uid).error.None?
    requires AllCountable(EmitTree(s, uid).records) && AllCountable(EmitTree(t, uid).records)
    ensures Stream(s, uid) == Stream(t, uid) <==> ViewOf(s) == ViewOf(t)
  {
    var a, b := EmitTree(s, uid).records, EmitTree(t, uid).records;
    DirectoryPrints(s, ROOT, uid);
    DirectoryPrints(t, ROOT, uid);
    PruneProper(s);
    PruneProper(t);
    if Stream(s, uid) == Stream(t, uid) {
      EncodeAllInjective(a, b);
      assert TreeRecords(Prune(s), ROOT) + [] == TreeRecords(Prune(t), ROOT) + [];
      TreeInjective(Prune(s), Prune(t), ROOT, [], []);
    }
    if ViewOf(s) == ViewOf(t) {
      TreeViewInjective(Prune(s), Prune(t));
    }
  }

  // ---- The program ----

  class Output {
    var bytes: Bytes

    constructor ()
      ensures bytes == []
    {
      bytes := [];
    }

    method WriteAll(b: Bytes)
      modifies this
      ensures bytes == old(bytes) + b
    {
      bytes := bytes + b;
    }
  }

  method WriteSnapshotRecord(output: Output, kind: Byte, mode: Permissions, path: Bytes, contents: Option<Bytes>)
    requires kind == if contents.Some? then 70 else 68
    modifies output
    ensures output.bytes == old(output.bytes) +
      Encode(if contents.Some? then FileRecord(mode, path, contents.value) else DirectoryRecord(mode, path))
  {
    var size := if contents.Some? then |contents.value| else 0;
    output.WriteAll([kind]);
    output.WriteAll(LittleEndian(mode, MODE_BYTES));
    output.WriteAll(LittleEndian(|path|, LENGTH_BYTES));
    output.WriteAll(path);
    output.WriteAll(LittleEndian(size, LENGTH_BYTES));
    if contents.Some? {
      output.WriteAll(contents.value);
    }
    SixFields(old(output.bytes), [kind], LittleEndian(mode, MODE_BYTES), LittleEndian(|path|, LENGTH_BYTES), path,
              LittleEndian(size, LENGTH_BYTES), if contents.Some? then contents.value else []);
  }

  lemma SixFields(s: Bytes, a: Bytes, b: Bytes, c: Bytes, d: Bytes, e: Bytes, f: Bytes)
    ensures s + a + b + c + d + e + f == s + (a + b + c + d + e + f)
    ensures s + a + b + c + d + e + [] == s + a + b + c + d + e
  {
  }

  /** What the loop over the names of `d` still has to do in round `i`. */
  function Remaining(d: Node, names: seq<Bytes>, i: nat, path: Bytes, uid: nat): Emission
    requires d.Directory? && i <= |names| && forall n :: n in names ==> n in Names(d.entries)
  {
    EmitNames(d, names[i..], path, uid)
  }

  /** One round of that loop. */
  lemma RoundWrites(d: Node, names: seq<Bytes>, i: nat, path: Bytes, uid: nat, before: Bytes)
    requires d.Directory? && i < |names| && forall n :: n in names ==> n in Names(d.entries)
    ensures names[i] in Names(d.entries)
    ensures var first := EmitChild(names[i], Lookup(d, names[i]), Join(path, names[i]), uid);
            var here, rest := Remaining(d, names, i, path, uid), Remaining(d, names, i + 1, path, uid);
            if first.error.Some? then here == first
            else
              here.error == rest.error
              && before + EncodeAll(here.records) == before + EncodeAll(first.records) + EncodeAll(rest.records)
  {
    assert names[i] in names;
    var first := EmitChild(names[i], Lookup(d, names[i]), Join(path, names[i]), uid);
    var rest := Remaining(d, names, i + 1, path, uid);
    assert names[i..][1..] == names[i + 1..];
    if first.error.None? {
      assert Remaining(d, names, i, path, uid).records == first.records + rest.records;
      EncodeAllAppend(first.records, rest.records);
      Associative(before, EncodeAll(first.records), EncodeAll(rest.records));
    }
  }

  lemma Associative(a: Bytes, b: Bytes, c: Bytes)
    ensures a + (b + c) == a + b + c
  {
  }

  lemma EncodeOne(r: Record)
    ensures EncodeAll([r]) == Encode(r)
  {
    assert [r][1..] == [];
  }

  lemma DirectoryWrites(d: Node, path: Bytes, uid: nat, before: Bytes)
    requires d.Directory? && d.listingStable
    ensures forall n :: n in Sort(Names(d.entries)) ==> n in Names(d.entries)
    ensures var whole, below := EmitDirectory(d, path, uid), Remaining(d, Sort(Names(d.entries)), 0, path, uid);
            && before + EncodeAll(whole.records)
               == before + Encode(DirectoryRecord(PermissionBits(d.meta.mode), path)) + EncodeAll(below.records)
            && whole.error == if below.error.None? && !d.stable then Some(Changed) else below.error
  {
    var names := Sort(Names(d.entries));
    SameMembers(names, Names(d.entries));
    var whole, below := EmitDirectory(d, path, uid), EmitNames(d, names, path, uid);
    assert names[0..] == names;
    var header := DirectoryRecord(PermissionBits(d.meta.mode), path);
    assert whole.records == [header] + below.records;
    EncodeAllAppend([header], below.records);
    EncodeOne(header);
    Associative(before, Encode(header), EncodeAll(below.records));
  }

  /** Writes the records of `d`, in name order. On an error, what was written stays written. */
  method SnapshotDirectory(d: Node, path: Bytes, uid: nat, output: Output) returns (error: Option<Error>)
    requires d.Directory?
    modifies output
    ensures error == EmitDirectory(d, path, uid).error
    ensures output.bytes == old(output.bytes) + EncodeAll(EmitDirectory(d, path, uid).records)
    decreases d, 1
  {
    if !d.listingStable {
      return Some(Changed);
    }
    DirectoryWrites(d, path, uid, output.bytes);
    WriteSnapshotRecord(output, 68, PermissionBits(d.meta.mode), path, None);
    error := SnapshotNames(d, Sort(Names(d.entries)), path, uid, output);
    if error.None? && !d.stable {
      return Some(Changed);
    }
  }

  /** The loop over the sorted names. */
  method SnapshotNames(d: Node, names: seq<Bytes>, path: Bytes, uid: nat, output: Output) returns (error: Option<Error>)
    requires d.Directory? && forall n :: n in names ==> n in Names(d.entries)
    modifies output
    ensures error == Remaining(d, names, 0, path, uid).error
    ensures output.bytes == old(output.bytes) + EncodeAll(Remaining(d, names, 0, path, uid).records)
    decreases d, 0
  {
    ghost var goal := output.bytes + EncodeAll(Remaining(d, names, 0, path, uid).records);
    for i := 0 to |names|
      invariant Remaining(d, names, i, path, uid).error == Remaining(d, names, 0, path, uid).error
      invariant output.bytes + EncodeAll(Remaining(d, names, i, path, uid).records) == goal
    {
      RoundWrites(d, names, i, path, uid, output.bytes);
      error := SnapshotChild(names[i], Lookup(d, names[i]), Join(path, names[i]), uid, output);
      if error.Some? {
        return;
      }
    }
    assert output.bytes + [] == output.bytes;
    return None;
  }

  /** One round of it. */
  method SnapshotChild(name: Bytes, child: Node, path: Bytes, uid: nat, output: Output) returns (error: Option<Error>)
    modifies output
    ensures error == EmitChild(name, child, path, uid).error
    ensures output.bytes == old(output.bytes) + EncodeAll(EmitChild(name, child, path, uid).records)
    decreases child, 2
  {
    if !child.meta.opens {
      return Some(OpenFailed);
    }
    if IsGitDirectory(name, child) {
      return None;
    }
    if child.meta.uid != uid {
      return Some(Unowned);
    }
    if child.Directory? {
      error := SnapshotDirectory(child, path, uid, output);
    } else if child.Regular? {
      if !child.stable {
        return Some(Changed);
      }
      WriteSnapshotRecord(output, 70, PermissionBits(child.meta.mode), path, Some(child.contents));
      EncodeOne(FileRecord(PermissionBits(child.meta.mode), path, child.contents));
      return None;
    } else {
      return Some(NotPlain);
    }
  }

  method SnapshotTree(root: Node, uid: nat, output: Output) returns (error: Option<Error>)
    modifies output
    ensures error == EmitTree(root, uid).error
    ensures output.bytes == old(output.bytes) + Stream(root, uid)
  {
    if !root.meta.opens {
      return Some(OpenFailed);
    }
    if !root.Directory? || root.meta.uid != uid {
      return Some(NotOwnedDirectory);
    }
    error := SnapshotDirectory(root, ROOT, uid, output);
  }
}
