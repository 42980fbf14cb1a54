/**
 * Reading file names that are separated by NUL bytes, chunk by chunk: no chunk boundary
 * may be seen in the names, and only the unfinished name is carried along.
 */
module NullPaths {
  import opened Bytes

  const NUL: Byte := 0

  /** The pieces of `s` between its NULs; always at least one. */
  function Split(s: Bytes): (pieces: seq<Bytes>)
    ensures pieces != []
  {
    if s == [] then [[]]
    else if s[0] == NUL then [[]] + Split(s[1..])
    else
      var rest := Split(s[1..]);
      [[s[0]] + rest[0]] + rest[1..]
  }

  /** The pieces with a NUL between each two. */
  function Join(pieces: seq<Bytes>): Bytes
    requires pieces != []
  {
    if |pieces| == 1 then pieces[0] else pieces[0] + [0] + Join(pieces[1..])
  }

  function Nonempty(pieces: seq<Bytes>): seq<Bytes>
  {
    if pieces == [] then []
    else (if pieces[0] == [] then [] else [pieces[0]]) + Nonempty(pieces[1..])
  }

  predicate Clean(piece: Bytes) { 0 !in piece }

  predicate AllClean(pieces: seq<Bytes>) { forall i :: 0 <= i < |pieces| ==> Clean(pieces[i]) }

  // ---- Splitting ----

  lemma {:induction false} SplitIsClean(s: Bytes)
    ensures AllClean(Split(s))
  {
    if s != [] {
      SplitIsClean(s[1..]);
      assert Clean(Split(s[1..])[0]);
    }
  }

  lemma {:induction false} JoinSplit(s: Bytes)
    ensures Join(Split(s)) == s
  {
    if s != [] {
      JoinSplit(s[1..]);
      var rest := Split(s[1..]);
      assert s == [s[0]] + s[1..];
      if s[0] == NUL {
        assert ([[]] + rest)[1..] == rest;
      } else {
        assert ([[s[0]] + rest[0]] + rest[1..])[1..] == rest[1..];
      }
    }
  }

  lemma SplitCleanHead(b: Byte, rest: Bytes)
    requires b != NUL
    ensures Split([b] + rest) == [[b] + Split(rest)[0]] + Split(rest)[1..]
  {
    assert ([b] + rest)[1..] == rest;
  }

  lemma {:induction false} SplitPrefix(a: Bytes, b: Bytes)
    requires Clean(a)
    ensures Split(a + b) == [a + Split(b)[0]] + Split(b)[1..]
    decreases |a|
  {
    if a == [] {
      assert a + b == b && a + Split(b)[0] == Split(b)[0];
    } else {
      SplitPrefix(a[1..], b);
      assert a + b == [a[0]] + (a[1..] + b);
      SplitCleanHead(a[0], a[1..] + b);
      assert [a[0]] + (a[1..] + Split(b)[0]) == a + Split(b)[0];
    }
  }

  /** Splitting is the only way to read the separators. */
  lemma {:induction false} SplitJoin(pieces: seq<Bytes>)
    requires pieces != [] && AllClean(pieces)
    ensures Split(Join(pieces)) == pieces
  {
    var first := pieces[0];
    assert Clean(first);
    if |pieces| == 1 {
      SplitPrefix(first, []);
      assert first + [] == first;
    } else {
      var rest := pieces[1..];
      SplitJoin(rest);
      assert first + [NUL] + Join(rest) == first + ([NUL] + Join(rest));
      assert ([NUL] + Join(rest))[1..] == Join(rest);
      SplitPrefix(first, [NUL] + Join(rest));
      assert first + [] == first;
    }
  }

  // ---- Reading ----

  /** Each name followed by a NUL, as the filter writes them. */
  function Terminated(names: seq<Bytes>): Bytes
  {
    if names == [] then [] else names[0] + [NUL] + Terminated(names[1..])
  }

  lemma {:induction false} JoinTerminated(front: seq<Bytes>, back: seq<Bytes>)
    requires back != []
    ensures Join(front + back) == Terminated(front) + Join(back)
  {
    if front == [] {
      assert front + back == back;
    } else {
      assert (front + back)[1..] == front[1..] + back;
      JoinTerminated(front[1..], back);
    }
  }

  lemma CleanAppend(front: seq<Bytes>, back: seq<Bytes>)
    ensures AllClean(front + back) <==> AllClean(front) && AllClean(back)
  {
    assert forall i :: 0 <= i < |front| ==> (front + back)[i] == front[i];
    assert forall i :: 0 <= i < |back| ==> (front + back)[|front| + i] == back[i];
  }

  lemma SplitParts(a: Bytes, front: seq<Bytes>, last: Bytes)
    requires Split(a) == front + [last]
    ensures a == Terminated(front) + last && AllClean(front)
  {
    SplitIsClean(a);
    CleanAppend(front, [last]);
    JoinSplit(a);
    JoinTerminated(front, [last]);
  }

  lemma SplitFromParts(front: seq<Bytes>, back: seq<Bytes>)
    requires back != [] && AllClean(front) && AllClean(back)
    ensures Split(Terminated(front) + Join(back)) == front + back
  {
    CleanAppend(front, back);
    JoinTerminated(front, back);
    SplitJoin(front + back);
  }

  lemma SplitAfter(front: seq<Bytes>, rest: Bytes)
    requires AllClean(front)
    ensures Split(Terminated(front) + rest) == front + Split(rest)
  {
    SplitIsClean(rest);
    JoinSplit(rest);
    SplitFromParts(front, Split(rest));
  }

  lemma Regroup(a: Bytes, b: Bytes, c: Bytes)
    ensures a + b + c == a + (b + c)
  {
  }

  /** What follows the last NUL starts the first piece of what is read next. */
  lemma SplitAppend(a: Bytes, b: Bytes, front: seq<Bytes>, last: Bytes)
    requires Split(a) == front + [last]
    ensures Split(a + b) == front + Split(last + b)
  {
    SplitParts(a, front, last);
    SplitAfter(front, last + b);
    Regroup(Terminated(front), last, b);
  }

  lemma {:induction false} NonemptyAppend(a: seq<Bytes>, b: seq<Bytes>)
    ensures Nonempty(a + b) == Nonempty(a) + Nonempty(b)
  {
    if a == [] {
      assert a + b == b;
    } else {
      assert (a + b)[1..] == a[1..] + b;
      NonemptyAppend(a[1..], b);
    }
  }

  function Concat(chunks: seq<Bytes>): Bytes
  {
    if chunks == [] then [] else Concat(chunks[..|chunks| - 1]) + chunks[|chunks| - 1]
  }

  /** After `consumed`: every finished name is out, and `pending` is all that is kept. */
  ghost predicate Carried(consumed: Bytes, pending: Bytes, yielded: seq<Bytes>)
  {
    exists done :: Split(consumed) == done + [pending] && yielded == Nonempty(done)
  }

  lemma CarryOn(consumed: Bytes, pending: Bytes, yielded: seq<Bytes>, chunk: Bytes)
    requires Carried(consumed, pending, yielded)
    ensures var records := Split(pending + chunk);
            Carried(consumed + chunk, records[|records| - 1], yielded + Nonempty(records[..|records| - 1]))
  {
    var done :| Split(consumed) == done + [pending] && yielded == Nonempty(done);
    var records := Split(pending + chunk);
    var finished := records[..|records| - 1];
    SplitAppend(consumed, chunk, done, pending);
    assert records == finished + [records[|records| - 1]];
    assert done + records == (done + finished) + [records[|records| - 1]];
    NonemptyAppend(done, finished);
  }

  lemma CarriedToTheEnd(consumed: Bytes, pending: Bytes, yielded: seq<Bytes>)
    requires Carried(consumed, pending, yielded)
    ensures Nonempty(Split(consumed)) == if pending == [] then yielded else yielded + [pending]
    ensures Clean(pending)
  {
    var done :| Split(consumed) == done + [pending] && yielded == Nonempty(done);
    NonemptyAppend(done, [pending]);
    assert Nonempty([pending]) == (if pending == [] then [] else [pending]) + Nonempty([pending][1..]);
    SplitIsClean(consumed);
    assert Split(consumed)[|done|] == pending;
    assert yielded + [] == yielded;
  }

  /** The names in a stream, however it is cut into chunks: the nonempty pieces of the whole. */
  method ReadNames(chunks: seq<Bytes>) returns (yielded: seq<Bytes>)
    ensures yielded == Nonempty(Split(Concat(chunks)))
  {
    var pending: Bytes := [];
    yielded := [];
    assert [] + [pending] == Split([]) && Nonempty([]) == [];
    for i := 0 to |chunks|
      invariant Carried(Concat(chunks[..i]), pending, yielded)
    {
      assert chunks[..i + 1][..i] == chunks[..i];
      CarryOn(Concat(chunks[..i]), pending, yielded, chunks[i]);
      var records := Split(pending + chunks[i]);
      pending := records[|records| - 1];
      yielded := yielded + Nonempty(records[..|records| - 1]);
    }
    assert chunks[..|chunks|] == chunks;
    CarriedToTheEnd(Concat(chunks), pending, yielded);
    if pending != [] {
      yielded := yielded + [pending];
    }
  }

  // ---- The names that were written ----

  lemma SplitClean(s: Bytes)
    requires Clean(s)
    ensures Split(s) == [s]
  {
    SplitJoin([s]);
  }

  lemma {:induction false} NonemptyAll(names: seq<Bytes>)
    requires forall i :: 0 <= i < |names| ==> names[i] != []
    ensures Nonempty(names) == names
  {
    if names != [] {
      NonemptyAll(names[1..]);
    }
  }

  /** File names written with terminators, the last one perhaps without, are read back as they were. */
  lemma NamesRoundTrip(names: seq<Bytes>, last: Bytes)
    requires AllClean(names) && Clean(last) && forall i :: 0 <= i < |names| ==> names[i] != []
    ensures Nonempty(Split(Terminated(names) + last)) == if last == [] then names else names + [last]
  {
    SplitAfter(names, last);
    SplitClean(last);
    NonemptyAppend(names, [last]);
    NonemptyAll(names);
    assert Nonempty([last]) == (if last == [] then [] else [last]) + Nonempty([last][1..]);
    assert names + [] == names;
  }
}
