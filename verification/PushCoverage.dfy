/**
 * What a push publishes: the pre-push hook inspects every object that the destination
 * does not already hold, over whole histories of pushes, deletions and foreign updates.
 */
module PushCoverage {
  import opened Bytes
  import opened PrivacyScan

  type Refs = map<Bytes, Bytes>

  /** One line of the hook's input. */
  datatype Update = Update(localRef: Bytes, localOid: Bytes, remoteRef: Bytes)

  /** Which objects each object refers to. */
  type Links = map<Bytes, set<Bytes>>

  const HEADS: Bytes := [114, 101, 102, 115, 47, 104, 101, 97, 100, 115, 47]
  const TAGS: Bytes := [114, 101, 102, 115, 47, 116, 97, 103, 115, 47]

  // ---- Reachability ----

  ghost predicate IsPath(links: Links, path: seq<Bytes>)
  {
    path != [] && forall i :: 0 <= i < |path| - 1 ==> path[i] in links && path[i + 1] in links[path[i]]
  }

  ghost predicate Reachable(links: Links, from: set<Bytes>, oid: Bytes)
  {
    exists path :: IsPath(links, path) && path[0] in from && path[|path| - 1] == oid
  }

  // ---- The hook ----

  /** The all-zero id of a deleted ref. */
  predicate IsZero(oid: Bytes) { forall i :: 0 <= i < |oid| ==> oid[i] == 48 }

  function Tips(updates: seq<Update>): seq<Bytes>
  {
    if updates == [] then []
    else (if IsZero(updates[0].localOid) then [] else [updates[0].localOid]) + Tips(updates[1..])
  }

  predicate IsAdvertised(ref: Bytes) { HEADS <= ref || TAGS <= ref }

  /** What the destination advertises now and the local repository holds as a commit or tag. */
  function Exclusions(refs: Refs, local: Store): set<Bytes>
  {
    set ref | ref in refs && IsAdvertised(ref) && refs[ref] in local && local[refs[ref]].kind in {Commit, Tag}
      :: refs[ref]
  }

  /** Only branches and tags are excluded, and only where a commit or an annotated tag is known here. */
  lemma ExcludedExactly(refs: Refs, local: Store, oid: Bytes)
    ensures oid in Exclusions(refs, local) <==>
            && oid in local && (local[oid].kind == Commit || local[oid].kind == Tag)
            && exists name ::
                 ((Ascii("refs/heads/") + name in refs && refs[Ascii("refs/heads/") + name] == oid)
                  || (Ascii("refs/tags/") + name in refs && refs[Ascii("refs/tags/") + name] == oid))
  {
    assert HEADS == Ascii("refs/heads/") && TAGS == Ascii("refs/tags/");
    if oid in Exclusions(refs, local) {
      var ref :| ref in refs && IsAdvertised(ref) && refs[ref] == oid;
      var prefix := if HEADS <= ref then HEADS else TAGS;
      assert ref == prefix + ref[|prefix|..];
    }
  }

  /** What is assumed of `git rev-list --objects`: it leaves out nothing that is not excluded. */
  ghost predicate RevList(links: Links, tips: set<Bytes>, exclusions: set<Bytes>, listed: seq<Bytes>)
  {
    forall oid :: Reachable(links, tips, oid) && !Reachable(links, exclusions, oid) ==> oid in listed
  }

  function AsSet(s: seq<Bytes>): set<Bytes> { set x | x in s }

  ghost predicate Inspected(patterns: seq<Bytes>, local: Store, oid: Bytes, allowContent: bool)
  {
    oid in local && ((allowContent && local[oid].kind == Blob) || !Blocked(local[oid].content, patterns))
  }

  predicate NamePasses(patterns: seq<Bytes>, update: Update)
  {
    !Blocked(update.localRef + [SPACE] + update.remoteRef, patterns)
  }

  ghost predicate NamesPass(patterns: seq<Bytes>, updates: seq<Update>)
  {
    forall i :: 0 <= i < |updates| ==> NamePasses(patterns, updates[i])
  }

  /** The hook permits the push; `listed` is what `rev-list` printed. */
  ghost predicate HookPasses(patterns: seq<Bytes>, local: Store, updates: seq<Update>, listed: seq<Bytes>,
      allowContent: bool)
  {
    && NamesPass(patterns, updates)
    && (Tips(updates) != [] ==>
          forall oid :: oid in Tips(updates) + listed ==> ValidId(oid) && Inspected(patterns, local, oid, allowContent))
  }

  method BeforePush(guard: Guard, local: Store, refs: Refs, updates: seq<Update>,
                    revList: (seq<Bytes>, set<Bytes>) -> seq<Bytes>, allowContent: bool, exitsCleanly: bool)
    returns (r: Result)
    requires guard.Valid()
    ensures r.Ok? <==>
            && HookPasses(guard.patterns, local, updates, revList(Tips(updates), Exclusions(refs, local)), allowContent)
            && (Tips(updates) != [] ==> exitsCleanly)
  {
    var tips;
    r, tips := CheckNames(guard, updates);
    if r.Err? || tips == [] {
      return;
    }
    var listed := revList(tips, Exclusions(refs, local));
    r := guard.Objects(local, tips + listed, allowContent, exitsCleanly);
    PublishableIsInspected(guard, local, tips + listed, allowContent);
  }

  /** The loop over the hook's input. */
  method CheckNames(guard: Guard, updates: seq<Update>) returns (r: Result, tips: seq<Bytes>)
    ensures r.Ok? <==> NamesPass(guard.patterns, updates)
    ensures r.Ok? ==> tips == Tips(updates)
  {
    tips := [];
    r := Ok;
    for i := 0 to |updates|
      invariant r.Ok? && forall j :: 0 <= j < i ==> NamePasses(guard.patterns, updates[j])
      invariant tips + Tips(updates[i..]) == Tips(updates)
    {
      assert updates[i..][1..] == updates[i + 1..];
      r := guard.Inspect(updates[i].localRef + [SPACE] + updates[i].remoteRef);
      if r.Err? {
        assert !NamePasses(guard.patterns, updates[i]);
        return;
      }
      if !IsZero(updates[i].localOid) {
        tips := tips + [updates[i].localOid];
      }
    }
  }

  lemma PublishableIsInspected(guard: Guard, local: Store, ids: seq<Bytes>, allowContent: bool)
    ensures guard.Publishable(local, ids, allowContent) <==>
            forall oid :: oid in ids ==> ValidId(oid) && Inspected(guard.patterns, local, oid, allowContent)
  {
    if guard.Publishable(local, ids, allowContent) {
      forall oid | oid in ids
        ensures ValidId(oid) && Inspected(guard.patterns, local, oid, allowContent)
      {
        var i :| 0 <= i < |ids| && ids[i] == oid;
        assert guard.Passes(local, ids[i], allowContent);
      }
    }
    if forall oid :: oid in ids ==> ValidId(oid) && Inspected(guard.patterns, local, oid, allowContent) {
      forall i | 0 <= i < |ids|
        ensures guard.Passes(local, ids[i], allowContent)
      {
        assert ids[i] in ids;
        assert Inspected(guard.patterns, local, ids[i], allowContent);
      }
    }
  }

  lemma {:induction false} TipsExactly(updates: seq<Update>, oid: Bytes)
    ensures oid in Tips(updates) <==>
            exists i :: 0 <= i < |updates| && updates[i].localOid == oid && exists k :: 0 <= k < |oid| && oid[k] != 48
  {
    if updates != [] {
      var first, rest := updates[0], updates[1..];
      TipsExactly(rest, oid);
      assert forall i :: 0 < i < |updates| ==> updates[i] == rest[i - 1];
      assert oid in Tips(updates) <==> (oid == first.localOid && !IsZero(oid)) || oid in Tips(rest);
      if i :| 0 <= i < |rest| && rest[i].localOid == oid {
        assert updates[i + 1].localOid == oid;
      }
    }
  }

  /** Whatever is pushed, unless its id is all zeros, was inspected itself; so was all that was listed with it. */
  lemma TipIsInspected(
      patterns: seq<Bytes>, local: Store, updates: seq<Update>, listed: seq<Bytes>, allowContent: bool, i: nat, k: nat)
    requires HookPasses(patterns, local, updates, listed, allowContent)
    requires i < |updates| && k < |updates[i].localOid| && updates[i].localOid[k] != 48
    ensures Inspected(patterns, local, updates[i].localOid, allowContent)
    ensures forall oid :: oid in listed ==> Inspected(patterns, local, oid, allowContent)
  {
    TipsExactly(updates, updates[i].localOid);
    assert updates[i].localOid in Tips(updates) + listed;
    assert forall oid :: oid in listed ==> oid in Tips(updates) + listed;
  }

  lemma {:induction false} NoTips(updates: seq<Update>)
    requires forall i :: 0 <= i < |updates| ==> IsNullId(updates[i].localOid)
    ensures Tips(updates) == []
  {
    if updates != [] {
      NoTips(updates[1..]);
    }
  }

  /** A push that only deletes refs needs nothing but names that pass. */
  lemma DeletionsPass(patterns: seq<Bytes>, local: Store, updates: seq<Update>, listed: seq<Bytes>, allowContent: bool)
    requires forall i :: 0 <= i < |updates| ==> IsNullId(updates[i].localOid)
    ensures HookPasses(patterns, local, updates, listed, allowContent) <==> NamesPass(patterns, updates)
  {
    NoTips(updates);
  }

  // ---- Histories ----

  /** All objects there ever are, and the destination's objects before the history. */
  datatype Universe = Universe(objects: Store, links: Links, initial: Refs)

  datatype World = World(
    refs: Refs,
    // What somebody else's updates newly pointed refs at, over the history so far.
    foreign: set<Bytes>,
    // What the hook passed to the inspector, and whether it ever allowed content.
    inspected: set<Bytes>,
    allowed: bool,
    // The updates the hook permitted last.
    permitted: seq<Update>)

  datatype Event =
    | Foreign(refs: Refs)
    | Permit(local: set<Bytes>, updates: seq<Update>, listed: seq<Bytes>, allowContent: bool)
    | Publish(accepted: set<Bytes>)

  function Local(u: Universe, local: set<Bytes>): Store
  {
    map oid | oid in local && oid in u.objects :: u.objects[oid]
  }

  /** Git's null id: 40 or 64 zeros. */
  predicate IsNullId(oid: Bytes)
  {
    (|oid| == 40 || |oid| == 64) && forall i :: 0 <= i < |oid| ==> oid[i] == 48
  }

  /** Git names objects by valid ids. */
  predicate NamesObjects(updates: seq<Update>)
  {
    forall i :: 0 <= i < |updates| ==> ValidId(updates[i].localOid)
  }

  /** The destination takes the permitted updates of the refs in `accepted`. */
  function Accept(refs: Refs, updates: seq<Update>, accepted: set<Bytes>): Refs
    decreases |updates|
  {
    if updates == [] then refs
    else
      var u := updates[0];
      var next := if u.remoteRef !in accepted then refs
                  else if IsNullId(u.localOid) then refs - {u.remoteRef}
                  else refs[u.remoteRef := u.localOid];
      Accept(next, updates[1..], accepted)
  }

  ghost predicate Next(u: Universe, patterns: seq<Bytes>, w: World, event: Event, w': World)
  {
    match event
    case Foreign(refs) => w' == w.(refs := refs, foreign := w.foreign + (refs.Values - w.refs.Values))
    case Permit(local, updates, listed, allowContent) =>
      && NamesObjects(updates) && HookPasses(patterns, Local(u, local), updates, listed, allowContent)
      && RevList(u.links, AsSet(Tips(updates)), Exclusions(w.refs, Local(u, local)), listed)
      && w' == if Tips(updates) == [] then w.(permitted := updates)
               else w.(permitted := updates,
                       inspected := w.inspected + AsSet(Tips(updates) + listed),
                       allowed := w.allowed || allowContent)
    case Publish(accepted) => w' == w.(refs := Accept(w.refs, w.permitted, accepted))
  }

  ghost predicate History(u: Universe, patterns: seq<Bytes>, worlds: seq<World>, events: seq<Event>)
  {
    && |worlds| == |events| + 1
    && worlds[0] == World(u.initial, {}, {}, false, [])
    && forall i :: 0 <= i < |events| ==> Next(u, patterns, worlds[i], events[i], worlds[i + 1])
  }

  /** There before, published by someone else, or shown to the inspector. */
  ghost predicate Covered(u: Universe, w: World, oid: Bytes)
  {
    Reachable(u.links, u.initial.Values, oid) || Reachable(u.links, w.foreign, oid) || oid in w.inspected
  }

  ghost predicate AllCovered(u: Universe, w: World, from: set<Bytes>)
  {
    forall oid :: Reachable(u.links, from, oid) ==> Covered(u, w, oid)
  }

  ghost predicate Clean(u: Universe, patterns: seq<Bytes>, w: World)
  {
    forall oid :: oid in w.inspected ==>
      oid in u.objects && (!Blocked(u.objects[oid].content, patterns) || (w.allowed && u.objects[oid].kind == Blob))
  }

  ghost predicate Invariant(u: Universe, patterns: seq<Bytes>, w: World)
  {
    && AllCovered(u, w, w.refs.Values) && AllCovered(u, w, AsSet(Tips(w.permitted)))
    && NamesObjects(w.permitted) && Clean(u, patterns, w)
  }

  lemma ForeignCovered(u: Universe, w: World, w': World)
    requires w'.foreign >= w.foreign && w'.inspected >= w.inspected
    ensures forall oid :: Covered(u, w, oid) ==> Covered(u, w', oid)
    ensures AllCovered(u, w', w'.foreign)
  {
    forall oid | Covered(u, w, oid)
      ensures Covered(u, w', oid)
    {
      if path :| IsPath(u.links, path) && path[0] in w.foreign && path[|path| - 1] == oid {
        assert path[0] in w'.foreign;
      }
    }
  }

  lemma {:induction false} AcceptValues(refs: Refs, updates: seq<Update>, accepted: set<Bytes>)
    requires NamesObjects(updates)
    ensures Accept(refs, updates, accepted).Values <= refs.Values + AsSet(Tips(updates))
    decreases |updates|
  {
    if updates != [] {
      var u := updates[0];
      var next := if u.remoteRef !in accepted then refs
                  else if IsNullId(u.localOid) then refs - {u.remoteRef}
                  else refs[u.remoteRef := u.localOid];
      AcceptValues(next, updates[1..], accepted);
      assert AsSet(Tips(updates[1..])) <= AsSet(Tips(updates));
      assert !IsNullId(u.localOid) ==> u.localOid in AsSet(Tips(updates));
      assert next.Values <= refs.Values + AsSet(Tips(updates));
    }
  }

  lemma PermitKeeps(u: Universe, patterns: seq<Bytes>, w: World, event: Event, w': World)
    requires event.Permit? && Invariant(u, patterns, w) && Next(u, patterns, w, event, w')
    ensures Invariant(u, patterns, w')
  {
    var tips, store := Tips(event.updates), Local(u, event.local);
    ForeignCovered(u, w, w');
    forall oid | Reachable(u.links, AsSet(tips), oid)
      ensures Covered(u, w', oid)
    {
      if !Reachable(u.links, Exclusions(w.refs, store), oid) {
        assert oid in event.listed;
        assert oid in tips + event.listed;
      }
    }
    forall oid | oid in w'.inspected && oid !in w.inspected
      ensures oid in u.objects &&
              (!Blocked(u.objects[oid].content, patterns) || (w'.allowed && u.objects[oid].kind == Blob))
    {
      assert oid in tips + event.listed;
      assert Inspected(patterns, store, oid, event.allowContent);
    }
  }

  lemma NextKeeps(u: Universe, patterns: seq<Bytes>, w: World, event: Event, w': World)
    requires Invariant(u, patterns, w) && Next(u, patterns, w, event, w')
    ensures Invariant(u, patterns, w')
  {
    match event
    case Permit(_, _, _, _) => PermitKeeps(u, patterns, w, event, w');
    case Foreign(refs) =>
      ForeignCovered(u, w, w');
    case Publish(accepted) =>
      ForeignCovered(u, w, w');
      AcceptValues(w.refs, w.permitted, accepted);
  }

  lemma {:induction false} HistoryKeeps(u: Universe, patterns: seq<Bytes>, worlds: seq<World>, events: seq<Event>,
      k: nat)
    requires History(u, patterns, worlds, events) && k < |worlds|
    ensures Invariant(u, patterns, worlds[k])
  {
    if k > 0 {
      HistoryKeeps(u, patterns, worlds, events, k - 1);
      NextKeeps(u, patterns, worlds[k - 1], events[k - 1], worlds[k]);
    }
  }

  /**
   * After any history, in any interleaving with foreign updates and however many of the
   * permitted updates the destination took: what its refs reach was there at the start,
   * was published by others, or was inspected. What was only inspected holds no blocked
   * address, unless it is a blob and content was allowed at some point.
   */
  lemma PublishedIsInspected(
      u: Universe, patterns: seq<Bytes>, worlds: seq<World>, events: seq<Event>, k: nat, oid: Bytes)
    requires History(u, patterns, worlds, events) && k < |worlds|
    requires Reachable(u.links, worlds[k].refs.Values, oid)
    ensures || Reachable(u.links, u.initial.Values, oid)
            || Reachable(u.links, worlds[k].foreign, oid)
            || (oid in worlds[k].inspected && oid in u.objects
                && (!Blocked(u.objects[oid].content, patterns) || (worlds[k].allowed && u.objects[oid].kind == Blob)))
  {
    HistoryKeeps(u, patterns, worlds, events, k);
    assert Covered(u, worlds[k], oid);
  }
}
