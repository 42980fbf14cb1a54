/**
 * The order in which a directory reader returns entries, in any directory of a tree, does
 * not reach the snapshot.
 */
module ReaderOrder {
  import opened Bytes
  import opened SnapshotStream

  /** The same tree, the entries of every directory in it listed in any order. */
  ghost predicate Reordered(s: Node, t: Node)
    decreases s
  {
    if s.Directory? && t.Directory? then
      && s.meta == t.meta && s.listingStable == t.listingStable && s.stable == t.stable
      && (forall n :: n in Names(s.entries) <==> n in Names(t.entries))
      && forall n :: n in Names(s.entries) ==> Reordered(Lookup(s, n), Lookup(t, n))
    else s == t
  }

  lemma {:induction false} AscendingUnique(a: seq<Bytes>, b: seq<Bytes>)
    requires Ascending(a) && Ascending(b) && forall n :: n in a <==> n in b
    ensures a == b
  {
    assert a != [] ==> a[0] in a;
    assert b != [] ==> b[0] in b;
    if a != [] && b != [] {
      LessIrreflexive(a[0]);
      if a[0] != b[0] {
        LessTransitive(a[0], b[0], a[0]);
      }
      assert forall n :: n in a <==> n == a[0] || n in a[1..];
      assert forall n :: n in b <==> n == b[0] || n in b[1..];
      AscendingUnique(a[1..], b[1..]);
      assert a == [a[0]] + a[1..] && b == [b[0]] + b[1..];
    }
  }

  lemma SameSorted(s: Node, t: Node)
    requires s.Directory? && t.Directory? && WellFormed(s) && WellFormed(t) && Reordered(s, t)
    ensures Sort(Names(s.entries)) == Sort(Names(t.entries))
    ensures forall n :: n in Sort(Names(s.entries)) <==> n in Names(s.entries)
  {
    var ss, ts := Sort(Names(s.entries)), Sort(Names(t.entries));
    SameMembers(ss, Names(s.entries));
    SameMembers(ts, Names(t.entries));
    SortAscending(Names(s.entries));
    SortAscending(Names(t.entries));
    AscendingUnique(ss, ts);
  }

  lemma {:induction false} ReorderedDirectory(s: Node, t: Node, path: Bytes, uid: nat)
    requires s.Directory? && t.Directory? && WellFormed(s) && WellFormed(t) && Reordered(s, t)
    ensures EmitDirectory(s, path, uid) == EmitDirectory(t, path, uid)
    decreases s, 1, 0
  {
    SameSorted(s, t);
    ReorderedNames(s, t, Sort(Names(s.entries)), path, uid);
  }

  lemma {:induction false} ReorderedNames(s: Node, t: Node, names: seq<Bytes>, path: Bytes, uid: nat)
    requires s.Directory? && t.Directory? && WellFormed(s) && WellFormed(t) && Reordered(s, t)
    requires forall n :: n in names ==> n in Names(s.entries)
    ensures forall n :: n in names ==> n in Names(t.entries)
    ensures EmitNames(s, names, path, uid) == EmitNames(t, names, path, uid)
    decreases s, 0, |names|
  {
    if names != [] {
      var n := names[0];
      ReorderedNames(s, t, names[1..], path, uid);
      ReorderedChild(n, Lookup(s, n), Lookup(t, n), Join(path, n), uid);
    }
  }

  lemma {:induction false} ReorderedChild(name: Bytes, a: Node, b: Node, path: Bytes, uid: nat)
    requires WellFormed(a) && WellFormed(b) && Reordered(a, b)
    ensures EmitChild(name, a, path, uid) == EmitChild(name, b, path, uid)
    decreases a, 2, 0
  {
    if a.Directory? {
      ReorderedDirectory(a, b, path, uid);
    }
  }

  lemma {:induction false} ReorderedView(s: Node, t: Node)
    requires WellFormed(s) && WellFormed(t) && Reordered(s, t)
    ensures ViewOf(s) == ViewOf(t)
    decreases s
  {
    if s.Directory? {
      forall n | n in Names(s.entries)
        ensures ViewOf(Lookup(s, n)) == ViewOf(Lookup(t, n)) && (Kept(s, n) <==> Kept(t, n))
      {
        ReorderedView(Lookup(s, n), Lookup(t, n));
      }
      assert ViewNames(s, Names(s.entries)) == ViewNames(t, Names(t.entries));
    }
  }

  /**
   * The orders in which the directories of a tree are read, at every level, change neither
   * the records nor the error, nor what the fingerprint is about.
   */
  lemma ReaderOrderIrrelevant(s: Node, t: Node, uid: nat)
    requires WellFormed(s) && WellFormed(t) && Reordered(s, t)
    ensures EmitTree(s, uid) == EmitTree(t, uid) && Stream(s, uid) == Stream(t, uid)
    ensures ViewOf(s) == ViewOf(t)
  {
    if s.Directory? {
      ReorderedDirectory(s, t, ROOT, uid);
    }
    ReorderedView(s, t);
  }

  /** Listing a directory's entries in another order, each perhaps reordered below, is such a reordering. */
  lemma PermutedIsReordered(s: Node, t: Node, middle: seq<Entry>)
    requires s.Directory? && t.Directory? && WellFormed(s) && WellFormed(t)
    requires s.meta == t.meta && s.listingStable == t.listingStable && s.stable == t.stable
    requires |middle| == |s.entries| && multiset(middle) == multiset(t.entries)
    requires forall i :: 0 <= i < |middle| ==>
               middle[i].name == s.entries[i].name && Reordered(s.entries[i].node, middle[i].node)
    ensures Reordered(s, t)
  {
    forall n | n in Names(s.entries)
      ensures n in Names(t.entries) && Reordered(Lookup(s, n), Lookup(t, n))
    {
      var i := IndexOf(s.entries, n);
      assert middle[i] in multiset(t.entries);
      LookupMember(t, middle[i]);
    }
    forall n | n in Names(t.entries)
      ensures n in Names(s.entries)
    {
      var e := t.entries[IndexOf(t.entries, n)];
      assert e in multiset(middle);
      var i :| 0 <= i < |middle| && middle[i] == e;
      assert Names(s.entries)[i] == n;
    }
  }
}
