/**
 * Replacing a file through a temporary and a rename. Every system call may fail and the
 * process may stop after any of them; `States` lists what the directory holds at each of
 * those points.
 */
module AtomicWrite {
  import opened Wrappers
  import opened Bytes

  datatype Kind = Regular | Directory | Symlink | Other

  datatype Inode = Inode(kind: Kind, uid: nat, mode: nat, contents: Bytes)

  type Entries = map<Bytes, Inode>

  datatype Error = UnsafePath | Io | NoFreeName

  /** One call: the file to replace, its new mode and bytes, and who asks. */
  datatype Job = Job(leaf: Bytes, mode: nat, contents: Bytes, uid: nat, pid: nat)

  /**
   * What the environment does. `createFails` holds the attempts that fail with something
   * else than `EEXIST`; `createdMode` is the requested mode after the umask; `writes` are
   * the sizes of successive `write` calls, 0 for one that fails, and once they are used up
   * the next call takes all that is left.
   */
  datatype Faults = Faults(
    parentRefused: bool,
    openFails: bool,
    createFails: set<nat>,
    createdMode: nat,
    chmodFails: bool,
    writes: seq<nat>,
    syncFails: bool,
    renameFails: bool,
    syncParentFails: bool,
    unlinkFails: bool)

  const ATTEMPTS: nat := 1000

  /** `.local-control.{pid}.{attempt}` */
  function Candidate(pid: nat, attempt: nat): Bytes
  {
    [46, 108, 111, 99, 97, 108, 45, 99, 111, 110, 116, 114, 111, 108, 46] + Decimal(pid) + [46] + Decimal(attempt)
  }

  function Replacement(job: Job): Inode
  {
    Inode(Regular, job.uid, job.mode, job.contents)
  }

  // ---- The states a call goes through ----

  /** The checks before anything is changed. */
  function Refusal(e: Entries, job: Job, f: Faults): Option<Error>
  {
    if f.parentRefused then Some(UnsafePath)
    else if f.openFails then Some(Io)
    else if job.leaf !in e then None
    else if e[job.leaf].kind == Symlink then Some(Io)
    else if e[job.leaf].kind != Regular || e[job.leaf].uid != job.uid || e[job.leaf].mode != job.mode then
      Some(UnsafePath)
    else None
  }

  datatype Allocation = Allocated(name: Bytes) | Refused(error: Error)

  function Allocate(e: Entries, job: Job, f: Faults, attempt: nat): Allocation
    requires attempt <= ATTEMPTS
    decreases ATTEMPTS - attempt
  {
    if attempt == ATTEMPTS then Refused(NoFreeName)
    else if attempt in f.createFails then Refused(Io)
    else if Candidate(job.pid, attempt) in e then Allocate(e, job, f, attempt + 1)
    else Allocated(Candidate(job.pid, attempt))
  }

  datatype Trace = Trace(states: seq<Entries>, error: Option<Error>)

  function Then(before: Entries, rest: Trace): Trace
  {
    Trace([before] + rest.states, rest.error)
  }

  /** The clean-up after a failure, whose own failure is ignored. */
  function Abandon(e: Entries, name: Bytes, f: Faults): Trace
  {
    Trace([e, if f.unlinkFails then e else e - {name}], Some(Io))
  }

  /** From the moment `done` bytes are in the temporary. */
  function Writing(e: Entries, name: Bytes, job: Job, f: Faults, done: nat, writes: seq<nat>): (t: Trace)
    requires done <= |job.contents| && name in e
    ensures t.states != [] && t.states[0] == e
    decreases |writes|, |job.contents| - done
  {
    if done == |job.contents| then Publishing(e, name, job, f)
    else if writes != [] && writes[0] == 0 then Abandon(e, name, f)
    else
      var next := if writes == [] || done + writes[0] > |job.contents| then |job.contents| else done + writes[0];
      var rest := if writes == [] then [] else writes[1..];
      Then(e, Writing(e[name := e[name].(contents := job.contents[..next])], name, job, f, next, rest))
  }

  function Renamed(e: Entries, name: Bytes, leaf: Bytes): Entries
    requires name in e
  {
    if name == leaf then e else e[leaf := e[name]] - {name}
  }

  function Publishing(e: Entries, name: Bytes, job: Job, f: Faults): Trace
    requires name in e
  {
    if f.syncFails || f.renameFails then Abandon(e, name, f)
    else
      var renamed := Renamed(e, name, job.leaf);
      if f.syncParentFails then Then(e, Abandon(renamed, name, f))
      else Trace([e, renamed], None)
  }

  /** From the moment the temporary exists. */
  function Filling(e: Entries, name: Bytes, job: Job, f: Faults): (t: Trace)
    requires name in e
    ensures t.states != [] && t.states[0] == e
  {
    if f.chmodFails then Abandon(e, name, f)
    else Then(e, Writing(e[name := e[name].(mode := job.mode)], name, job, f, 0, f.writes))
  }

  /** Every state of one call, the first one being the state it starts in. */
  function Run(e: Entries, job: Job, f: Faults): Trace
    ensures Run(e, job, f).states != []
  {
    if Refusal(e, job, f).Some? then Trace([e], Refusal(e, job, f))
    else
      match Allocate(e, job, f, 0)
      case Refused(error) => Trace([e], Some(error))
      case Allocated(name) =>
        Then(e, Filling(e[name := Inode(Regular, job.uid, f.createdMode, [])], name, job, f))
  }

  // ---- Temporary names ----

  /** Every attempt from `from` up to `k` met a name in use. */
  ghost predicate TakenBefore(e: Entries, job: Job, f: Faults, from: nat, k: nat)
  {
    from <= k < ATTEMPTS && forall j :: from <= j < k ==> Candidate(job.pid, j) in e && j !in f.createFails
  }

  /** The first of the thousand names that is free, tried in order, and never one in use. */
  lemma {:induction false} AllocateFirstFree(e: Entries, job: Job, f: Faults, attempt: nat)
    requires attempt <= ATTEMPTS
    ensures match Allocate(e, job, f, attempt)
            case Allocated(name) =>
              name !in e && exists k :: TakenBefore(e, job, f, attempt, k) && name == Candidate(job.pid, k)
            case Refused(NoFreeName) =>
              forall j :: attempt <= j < ATTEMPTS ==> Candidate(job.pid, j) in e
            case Refused(_) =>
              exists k :: TakenBefore(e, job, f, attempt, k) && k in f.createFails
    decreases ATTEMPTS - attempt
  {
    if attempt < ATTEMPTS && attempt !in f.createFails && Candidate(job.pid, attempt) in e {
      AllocateFirstFree(e, job, f, attempt + 1);
    } else if attempt < ATTEMPTS {
      assert TakenBefore(e, job, f, attempt, attempt);
    }
  }

  /** Candidates are told apart from a target by their attempt. */
  predicate IsCandidate(name: Bytes, pid: nat)
  {
    exists k :: 0 <= k < ATTEMPTS && name == Candidate(pid, k)
  }

  /** The temporary a call creates, if it creates one. */
  function Temporary(e: Entries, job: Job, f: Faults): set<Bytes>
  {
    if Refusal(e, job, f).Some? then {}
    else match Allocate(e, job, f, 0) case Allocated(name) => {name} case Refused(_) => {}
  }

  // ---- Safety at every point ----

  /** What a reader may find in `e`: nothing but the target and the temporary differs from `e0`. */
  ghost predicate Safe(e0: Entries, e: Entries, job: Job, temporary: set<Bytes>)
  {
    && (forall n :: n in e0 && n != job.leaf ==> n in e && e[n] == e0[n])
    && (forall n :: n in e ==> n in e0 || n in temporary || n == job.leaf)
    && (job.leaf in e0 ==> job.leaf in e)
    && (job.leaf in e ==> (job.leaf in e0 && e[job.leaf] == e0[job.leaf]) || e[job.leaf] == Replacement(job))
  }

  ghost predicate AllSafe(e0: Entries, states: seq<Entries>, job: Job, temporary: set<Bytes>)
  {
    forall i :: 0 <= i < |states| ==> Safe(e0, states[i], job, temporary)
  }

  /** Only the temporary has been touched. */
  ghost predicate Private(e0: Entries, e: Entries, temporary: Bytes)
  {
    temporary !in e0 && temporary in e && e - {temporary} == e0
  }

  lemma PrivateSafe(e0: Entries, e: Entries, job: Job, temporary: Bytes)
    requires Private(e0, e, temporary) && temporary != job.leaf
    ensures Safe(e0, e, job, {temporary}) && Safe(e0, e - {temporary}, job, {temporary})
  {
    forall n | n in e0
      ensures n in e && e[n] == e0[n]
    {
      assert n in e - {temporary};
    }
    forall n | n in e && n != temporary
      ensures n in e0 && e[n] == e0[n]
    {
      assert n in e - {temporary};
    }
  }

  function Last(t: Trace): Entries
    requires t.states != []
  {
    t.states[|t.states| - 1]
  }

  /** How a call that owns a temporary may go on from here. */
  ghost predicate Finished(e0: Entries, t: Trace, job: Job, temporary: set<Bytes>, f: Faults)
  {
    && t.states != []
    && AllSafe(e0, t.states, job, temporary)
    && (t.error.None? ==> Last(t) == e0[job.leaf := Replacement(job)])
    && (t.error.Some? ==>
          || (f.syncParentFails && Last(t) == e0[job.leaf := Replacement(job)])
          || Last(t) == e0
          || (f.unlinkFails && Last(t) - temporary == e0))
  }

  lemma ThenFinishes(e0: Entries, e: Entries, t: Trace, job: Job, temporary: set<Bytes>, f: Faults)
    requires Safe(e0, e, job, temporary) && Finished(e0, t, job, temporary, f)
    ensures Finished(e0, Then(e, t), job, temporary, f)
  {
  }

  lemma AbandonFinishes(e0: Entries, e: Entries, name: Bytes, job: Job, f: Faults)
    requires Private(e0, e, name) && name != job.leaf
    ensures Finished(e0, Abandon(e, name, f), job, {name}, f)
  {
    PrivateSafe(e0, e, job, name);
  }

  lemma {:induction false} WritingFinishes(
      e0: Entries, e: Entries, name: Bytes, job: Job, f: Faults, done: nat, writes: seq<nat>)
    requires done <= |job.contents| && Private(e0, e, name) && name != job.leaf
    requires e[name] == Inode(Regular, job.uid, job.mode, job.contents[..done])
    ensures Finished(e0, Writing(e, name, job, f, done, writes), job, {name}, f)
    decreases |writes|, |job.contents| - done
  {
    if done == |job.contents| {
      assert job.contents[..done] == job.contents;
      PublishingFinishes(e0, e, name, job, f);
    } else if writes != [] && writes[0] == 0 {
      AbandonFinishes(e0, e, name, job, f);
    } else {
      var next := if writes == [] || done + writes[0] > |job.contents| then |job.contents| else done + writes[0];
      var rest := if writes == [] then [] else writes[1..];
      var after := e[name := e[name].(contents := job.contents[..next])];
      assert after - {name} == e - {name};
      WritingFinishes(e0, after, name, job, f, next, rest);
      PrivateSafe(e0, e, job, name);
      ThenFinishes(e0, e, Writing(after, name, job, f, next, rest), job, {name}, f);
    }
  }

  lemma PublishingFinishes(e0: Entries, e: Entries, name: Bytes, job: Job, f: Faults)
    requires Private(e0, e, name) && name != job.leaf && e[name] == Replacement(job)
    ensures Finished(e0, Publishing(e, name, job, f), job, {name}, f)
  {
    PrivateSafe(e0, e, job, name);
    AbandonFinishes(e0, e, name, job, f);
    var renamed := Renamed(e, name, job.leaf);
    assert renamed == e0[job.leaf := Replacement(job)] by {
      assert e[job.leaf := e[name]] - {name} == (e - {name})[job.leaf := e[name]];
    }
    assert renamed - {name} == renamed;
    assert Safe(e0, renamed, job, {name});
  }

  /**
   * At every point of a call the target is complete, old or new, and no other entry has
   * changed. A successful call changes exactly the target. A failed one changed nothing,
   * unless only flushing the directory failed, after the rename, or removing the
   * temporary failed too.
   */
  lemma ReplaceIsAtomic(e: Entries, job: Job, f: Faults)
    requires job.leaf !in Temporary(e, job, f)
    ensures Finished(e, Run(e, job, f), job, Temporary(e, job, f), f)
  {
    AllocateFirstFree(e, job, f, 0);
    var temporary := Temporary(e, job, f);
    if temporary == {} {
      assert Safe(e, e, job, temporary);
    } else {
      var name := Allocate(e, job, f, 0).name;
      var created := e[name := Inode(Regular, job.uid, f.createdMode, [])];
      assert created - {name} == e;
      PrivateSafe(e, created, job, name);
      if f.chmodFails {
        AbandonFinishes(e, created, name, job, f);
        ThenFinishes(e, e, Abandon(created, name, f), job, {name}, f);
      } else {
        var ready := created[name := created[name].(mode := job.mode)];
        assert ready - {name} == e;
        WritingFinishes(e, ready, name, job, f, 0, f.writes);
        var rest := Writing(ready, name, job, f, 0, f.writes);
        ThenFinishes(e, created, rest, job, {name}, f);
        ThenFinishes(e, e, Then(created, rest), job, {name}, f);
      }
    }
  }

  /** Only the empty file `created`, or its absence. */
  ghost predicate OnlyEmpty(e: Entries, created: Entries, states: seq<Entries>)
  {
    forall i :: 0 <= i < |states| ==> states[i] == e || states[i] == created
  }

  /** With nothing to write, publishing under its own name goes through no other state. */
  lemma EmptyPublishing(e: Entries, created: Entries, job: Job, f: Faults)
    requires job.leaf !in e && job.contents == [] && created == e[job.leaf := Inode(Regular, job.uid, job.mode, [])]
    ensures OnlyEmpty(e, created, Writing(created, job.leaf, job, f, 0, f.writes).states)
  {
    assert created - {job.leaf} == e;
  }

  lemma EmptyFilling(e: Entries, created: Entries, job: Job, f: Faults)
    requires job.leaf !in e && job.contents == [] && created == e[job.leaf := Inode(Regular, job.uid, job.mode, [])]
    ensures OnlyEmpty(e, created, Then(e, Filling(created, job.leaf, job, f)).states)
  {
    assert created - {job.leaf} == e;
    assert created[job.leaf := created[job.leaf].(mode := job.mode)] == created;
    EmptyPublishing(e, created, job, f);
  }

  /**
   * A target that is itself the first free temporary name is written in place: readers
   * are then safe only when there is nothing to write and no mode to correct.
   */
  lemma SelfNamedTargetIsNotAtomic(e: Entries, job: Job, f: Faults)
    requires job.leaf in Temporary(e, job, f)
    ensures AllSafe(e, Run(e, job, f).states, job, {job.leaf}) <==> job.contents == [] && f.createdMode == job.mode
  {
    AllocateFirstFree(e, job, f, 0);
    var created := e[job.leaf := Inode(Regular, job.uid, f.createdMode, [])];
    var states := Run(e, job, f).states;
    assert states == Then(e, Filling(created, job.leaf, job, f)).states;
    assert states[1] == created;
    if job.contents == [] && f.createdMode == job.mode {
      EmptyFilling(e, created, job, f);
      assert Safe(e, created, job, {job.leaf}) && Safe(e, e, job, {job.leaf});
    } else {
      assert !Safe(e, states[1], job, {job.leaf});
    }
  }

  /** The target is replaced atomically under every fault exactly when it is not the temporary. */
  lemma AtomicExactly(e: Entries, job: Job, f: Faults)
    ensures AllSafe(e, Run(e, job, f).states, job, Temporary(e, job, f)) <==>
            job.leaf !in Temporary(e, job, f) || (job.contents == [] && f.createdMode == job.mode)
  {
    if job.leaf in Temporary(e, job, f) {
      SelfNamedTargetIsNotAtomic(e, job, f);
    } else {
      ReplaceIsAtomic(e, job, f);
    }
  }

  /** The target does not exist and is the name the next temporary gets. */
  ghost predicate IsNextTemporary(e: Entries, job: Job)
  {
    job.leaf !in e && exists k :: IsNextAttempt(e, job, k)
  }

  ghost predicate IsNextAttempt(e: Entries, job: Job, k: nat)
  {
    k < ATTEMPTS && job.leaf == Candidate(job.pid, k) && forall j :: 0 <= j < k ==> Candidate(job.pid, j) in e
  }

  lemma {:induction false} AllocatesNext(e: Entries, job: Job, f: Faults, k: nat, attempt: nat)
    requires job.leaf !in e && IsNextAttempt(e, job, k) && attempt <= k && f.createFails == {}
    ensures Allocate(e, job, f, attempt) == Allocated(job.leaf)
    decreases k - attempt
  {
    if attempt < k {
      AllocatesNext(e, job, f, k, attempt + 1);
    }
  }

  /** Nothing fails, and the temporary is created with `mode`. */
  function Faultless(mode: nat): Faults
  {
    Faults(false, false, {}, mode, false, [], false, false, false, false)
  }

  lemma NextIsTemporary(e: Entries, job: Job)
    requires IsNextTemporary(e, job)
    ensures job.leaf in Temporary(e, job, Faultless(job.mode + 1))
  {
    var k: nat :| IsNextAttempt(e, job, k);
    AllocatesNext(e, job, Faultless(job.mode + 1), k, 0);
  }

  lemma TemporaryIsNext(e: Entries, job: Job, f: Faults)
    requires job.leaf in Temporary(e, job, f)
    ensures IsNextTemporary(e, job)
  {
    AllocateFirstFree(e, job, f, 0);
    var k :| TakenBefore(e, job, f, 0, k) && job.leaf == Candidate(job.pid, k);
    assert IsNextAttempt(e, job, k);
  }

  /**
   * The replacement is atomic whatever fails exactly when the target is not a missing file
   * whose name is the next temporary's.
   */
  lemma AtomicUnderAllFaults(e: Entries, job: Job)
    ensures (forall f: Faults :: AllSafe(e, Run(e, job, f).states, job, Temporary(e, job, f))) <==>
            !IsNextTemporary(e, job)
  {
    if IsNextTemporary(e, job) {
      NextIsTemporary(e, job);
      AtomicExactly(e, job, Faultless(job.mode + 1));
    } else {
      forall f: Faults
        ensures AllSafe(e, Run(e, job, f).states, job, Temporary(e, job, f))
      {
        if job.leaf in Temporary(e, job, f) {
          TemporaryIsNext(e, job, f);
        }
        AtomicExactly(e, job, f);
      }
    }
  }

  /** In an empty directory, writing one byte to the first temporary name is seen half done. */
  lemma TornInEmptyDirectory(pid: nat, mode: nat)
    ensures var job := Job(Candidate(pid, 0), mode, [65], 0, pid);
            !AllSafe(map[], Run(map[], job, Faultless(mode)).states, job, Temporary(map[], job, Faultless(mode)))
  {
    var job := Job(Candidate(pid, 0), mode, [65], 0, pid);
    assert IsNextAttempt(map[], job, 0);
    AllocatesNext(map[], job, Faultless(mode), 0, 0);
    AtomicExactly(map[], job, Faultless(mode));
  }

  // ---- When a call succeeds ----

  function Sum(sizes: seq<nat>): nat
  {
    if sizes == [] then 0 else sizes[0] + Sum(sizes[1..])
  }

  /** Some `write` fails while bytes are left. */
  ghost predicate WriteFails(writes: seq<nat>, size: nat)
  {
    exists i :: WriteFailsAt(writes, size, i)
  }

  predicate WriteFailsAt(writes: seq<nat>, size: nat, i: nat)
  {
    i < |writes| && writes[i] == 0 && Sum(writes[..i]) < size
  }

  lemma WriteFailsStep(writes: seq<nat>, size: nat)
    requires writes != [] && size > 0
    ensures WriteFails(writes, size) <==>
              writes[0] == 0 || (writes[0] < size && WriteFails(writes[1..], size - writes[0]))
  {
    if writes[0] == 0 {
      assert writes[..0] == [];
      assert WriteFailsAt(writes, size, 0);
    }
    if i: nat :| WriteFailsAt(writes, size, i) {
      if i > 0 {
        assert writes[..i][1..] == writes[1..][..i - 1];
        assert WriteFailsAt(writes[1..], size - writes[0], i - 1);
      }
    }
    if writes[0] < size && WriteFails(writes[1..], size - writes[0]) {
      var i: nat :| WriteFailsAt(writes[1..], size - writes[0], i);
      assert writes[..i + 1][1..] == writes[1..][..i];
      assert WriteFailsAt(writes, size, i + 1);
    }
  }

  lemma {:induction false} WritingSucceeds(e: Entries, name: Bytes, job: Job, f: Faults, done: nat, writes: seq<nat>)
    requires done <= |job.contents| && name in e
    ensures Writing(e, name, job, f, done, writes).error.None? <==>
            !WriteFails(writes, |job.contents| - done) && !f.syncFails && !f.renameFails && !f.syncParentFails
    ensures Writing(e, name, job, f, done, writes).error in {None, Some(Io)}
    decreases |writes|, |job.contents| - done
  {
    if done == |job.contents| {
      assert !WriteFails(writes, 0);
    } else {
      var next := if writes == [] || done + writes[0] > |job.contents| then |job.contents| else done + writes[0];
      var rest := if writes == [] then [] else writes[1..];
      var after := e[name := e[name].(contents := job.contents[..next])];
      if writes == [] {
        assert !WriteFails(writes, |job.contents| - done) && !WriteFails(rest, 0);
        WritingSucceeds(after, name, job, f, next, rest);
      } else {
        WriteFailsStep(writes, |job.contents| - done);
        if writes[0] != 0 {
          WritingSucceeds(after, name, job, f, next, rest);
          assert !WriteFails(rest, 0);
        }
      }
    }
  }

  /** The target may be replaced: it is missing, or an owned regular file of the mode asked for. */
  predicate Replaceable(e: Entries, job: Job)
  {
    job.leaf in e ==>
      e[job.leaf].kind == Regular && e[job.leaf].uid == job.uid && e[job.leaf].mode == job.mode
  }

  /** The first of the thousand names that is free can be created, the earlier ones being in use. */
  predicate CreatesAt(e: Entries, job: Job, f: Faults, k: nat)
  {
    && k < 1000 && Candidate(job.pid, k) !in e && k !in f.createFails
    && forall j :: 0 <= j < k ==> Candidate(job.pid, j) in e && j !in f.createFails
  }

  lemma {:induction false} AllocatesExactly(e: Entries, job: Job, f: Faults)
    ensures Allocate(e, job, f, 0).Allocated? <==> exists k :: CreatesAt(e, job, f, k)
  {
    AllocateFirstFree(e, job, f, 0);
    if Allocate(e, job, f, 0).Allocated? {
      var k :| TakenBefore(e, job, f, 0, k) && Allocate(e, job, f, 0).name == Candidate(job.pid, k);
      FirstFreeCreates(e, job, f, 0, k);
      assert CreatesAt(e, job, f, k);
    }
    if k: nat :| CreatesAt(e, job, f, k) {
      CreatesFirstFree(e, job, f, 0, k);
    }
  }

  lemma {:induction false} FirstFreeCreates(e: Entries, job: Job, f: Faults, attempt: nat, k: nat)
    requires attempt <= k < ATTEMPTS && TakenBefore(e, job, f, attempt, k) && Candidate(job.pid, k) !in e
    requires Allocate(e, job, f, attempt).Allocated?
    ensures k !in f.createFails
    decreases k - attempt
  {
    if attempt < k {
      FirstFreeCreates(e, job, f, attempt + 1, k);
    }
  }

  lemma {:induction false} CreatesFirstFree(e: Entries, job: Job, f: Faults, attempt: nat, k: nat)
    requires CreatesAt(e, job, f, k) && attempt <= k
    ensures Allocate(e, job, f, attempt) == Allocated(Candidate(job.pid, k))
    decreases k - attempt
  {
    if attempt < k {
      CreatesFirstFree(e, job, f, attempt + 1, k);
    }
  }

  /**
   * A call succeeds exactly when the target may be replaced, one of the thousand names can
   * be created, and no step fails.
   */
  lemma SucceedsExactly(e: Entries, job: Job, f: Faults)
    ensures Run(e, job, f).error.None? <==>
            && !f.parentRefused && !f.openFails && Replaceable(e, job)
            && (exists k :: CreatesAt(e, job, f, k))
            && !f.chmodFails && !WriteFails(f.writes, |job.contents|)
            && !f.syncFails && !f.renameFails && !f.syncParentFails
  {
    AllocatesExactly(e, job, f);
    var a := Allocate(e, job, f, 0);
    if Refusal(e, job, f).None? && a.Allocated? && !f.chmodFails {
      var created := e[a.name := Inode(Regular, job.uid, f.createdMode, [])];
      WritingSucceeds(created[a.name := created[a.name].(mode := job.mode)], a.name, job, f, 0, f.writes);
    }
  }

  /** A call is refused as unsafe for its folder or its target only, and then before anything is changed. */
  lemma UnsafeExactly(e: Entries, job: Job, f: Faults)
    ensures Run(e, job, f).error == Some(UnsafePath) <==>
            || f.parentRefused
            || (!f.openFails && !Replaceable(e, job) && e[job.leaf].kind != Symlink)
    ensures Run(e, job, f).error == Some(UnsafePath) ==> Run(e, job, f).states == [e]
  {
    var a := Allocate(e, job, f, 0);
    AllocateErrors(e, job, f, 0);
    if Refusal(e, job, f).None? && a.Allocated? && !f.chmodFails {
      var created := e[a.name := Inode(Regular, job.uid, f.createdMode, [])];
      WritingSucceeds(created[a.name := created[a.name].(mode := job.mode)], a.name, job, f, 0, f.writes);
    }
  }

  lemma {:induction false} AllocateErrors(e: Entries, job: Job, f: Faults, attempt: nat)
    requires attempt <= ATTEMPTS
    ensures Allocate(e, job, f, attempt).Refused? ==> Allocate(e, job, f, attempt).error in {Io, NoFreeName}
    decreases ATTEMPTS - attempt
  {
    if attempt < ATTEMPTS && attempt !in f.createFails && Candidate(job.pid, attempt) in e {
      AllocateErrors(e, job, f, attempt + 1);
    }
  }

  lemma {:induction false} NoneFree(e: Entries, job: Job, f: Faults, attempt: nat)
    requires attempt <= 1000
    ensures Allocate(e, job, f, attempt) == Refused(NoFreeName) <==>
            forall k :: attempt <= k < 1000 ==> Candidate(job.pid, k) in e && k !in f.createFails
    decreases 1000 - attempt
  {
    if attempt < 1000 && attempt !in f.createFails && Candidate(job.pid, attempt) in e {
      NoneFree(e, job, f, attempt + 1);
    }
  }

  /** No name is left exactly when all thousand are in use; every other failure is one of a system call. */
  lemma NoNameExactly(e: Entries, job: Job, f: Faults)
    ensures Run(e, job, f).error == Some(NoFreeName) <==>
            && !f.parentRefused && !f.openFails && Replaceable(e, job)
            && forall k :: 0 <= k < 1000 ==> Candidate(job.pid, k) in e && k !in f.createFails
  {
    NoneFree(e, job, f, 0);
    UnsafeExactly(e, job, f);
    var a := Allocate(e, job, f, 0);
    if Refusal(e, job, f).None? && a.Allocated? && !f.chmodFails {
      var created := e[a.name := Inode(Regular, job.uid, f.createdMode, [])];
      WritingSucceeds(created[a.name := created[a.name].(mode := job.mode)], a.name, job, f, 0, f.writes);
    }
  }

  predicate Carries(name: Bytes, pid: nat, attempt: nat, a: Bytes, b: Bytes)
  {
    name == Ascii(".local-control.") + a + Ascii(".") + b && ParseDecimal(a) == pid && ParseDecimal(b) == attempt
  }

  /** Temporaries are hidden files that carry the process and the attempt in decimal digits. */
  lemma CandidateIs(pid: nat, attempt: nat)
    ensures exists a, b :: Carries(Candidate(pid, attempt), pid, attempt, a, b)
  {
    DecimalRoundTrip(pid);
    DecimalRoundTrip(attempt);
    assert Carries(Candidate(pid, attempt), pid, attempt, Decimal(pid), Decimal(attempt));
  }

  // ---- Runs with crashes ----

  /** A call that the machine stops after `stop` of its steps, or that ends before. */
  datatype Attempt = Attempt(job: Job, faults: Faults, stop: nat)

  function Stopped(e: Entries, a: Attempt): Entries
  {
    var states := Run(e, a.job, a.faults).states;
    states[if a.stop < |states| then a.stop else |states| - 1]
  }

  function After(e: Entries, attempts: seq<Attempt>): Entries
    decreases |attempts|
  {
    if attempts == [] then e else After(Stopped(e, attempts[0]), attempts[1..])
  }

  ghost predicate IsOneOf(inode: Inode, attempts: seq<Attempt>)
  {
    exists i :: 0 <= i < |attempts| && inode == Replacement(attempts[i].job)
  }

  /** `e` may be found after `attempts` on `leaf`, started in `e0`. */
  ghost predicate Survives(e0: Entries, e: Entries, leaf: Bytes, attempts: seq<Attempt>)
  {
    && (forall n :: n in e0 && n != leaf ==> n in e && e[n] == e0[n])
    && (leaf in e0 ==> leaf in e)
    && (leaf in e && !(leaf in e0 && e[leaf] == e0[leaf]) ==> IsOneOf(e[leaf], attempts))
  }

  /**
   * Over any sequence of calls on one target, each failing or crashing anywhere, the
   * target is at the end what it was at the start or what one of the calls was to write,
   * and every other entry that was there is still there unchanged. A target that does not
   * exist must not have the form of a temporary.
   */
  lemma {:induction false} CrashesNeverTear(e: Entries, attempts: seq<Attempt>, leaf: Bytes)
    requires forall i :: 0 <= i < |attempts| ==>
               attempts[i].job.leaf == leaf && (leaf in e || !IsCandidate(leaf, attempts[i].job.pid))
    ensures Survives(e, After(e, attempts), leaf, attempts)
    decreases |attempts|
  {
    if attempts != [] {
      var middle := Stopped(e, attempts[0]);
      FirstAttempt(e, attempts[0]);
      CrashesNeverTear(middle, attempts[1..], leaf);
      var end := After(e, attempts);
      if leaf in end && IsOneOf(end[leaf], attempts[1..]) {
        var i :| 0 <= i < |attempts[1..]| && end[leaf] == Replacement(attempts[1..][i].job);
        assert end[leaf] == Replacement(attempts[i + 1].job);
      }
    }
  }

  lemma FirstAttempt(e: Entries, first: Attempt)
    requires first.job.leaf in e || !IsCandidate(first.job.leaf, first.job.pid)
    ensures Survives(e, Stopped(e, first), first.job.leaf, [first])
  {
    AllocateFirstFree(e, first.job, first.faults, 0);
    ReplaceIsAtomic(e, first.job, first.faults);
    assert Safe(e, Stopped(e, first), first.job, Temporary(e, first.job, first.faults));
    assert [first][0] == first;
  }

  // ---- The program ----

  class Folder {
    var entries: Entries
    /** Everything a crash could have left, oldest first. */
    ghost var history: seq<Entries>

    constructor (entries: Entries)
      ensures this.entries == entries && history == [entries]
    {
      this.entries := entries;
      history := [entries];
    }

    method Put(name: Bytes, inode: Inode)
      modifies this
      ensures entries == old(entries)[name := inode] && history == old(history) + [entries]
    {
      entries := entries[name := inode];
      history := history + [entries];
    }

    method OpenTemporaryFile(job: Job, f: Faults) returns (r: Allocation)
      modifies this
      ensures r == Allocate(old(entries), job, f, 0)
      ensures r.Allocated? ==> entries == old(entries)[r.name := Inode(Regular, job.uid, f.createdMode, [])]
                               && history == old(history) + [entries]
      ensures r.Refused? ==> entries == old(entries) && history == old(history)
    {
      for attempt := 0 to ATTEMPTS
        invariant entries == old(entries) && history == old(history)
        invariant Allocate(entries, job, f, 0) == Allocate(entries, job, f, attempt)
      {
        var candidate := Candidate(job.pid, attempt);
        if attempt in f.createFails {
          return Refused(Io);
        }
        if candidate !in entries {
          Put(candidate, Inode(Regular, job.uid, f.createdMode, []));
          return Allocated(candidate);
        }
      }
      return Refused(NoFreeName);
    }

    method Unlink(name: Bytes, f: Faults)
      modifies this
      ensures entries == if f.unlinkFails then old(entries) else old(entries) - {name}
      ensures history == old(history) + [entries]
    {
      if !f.unlinkFails {
        entries := entries - {name};
      }
      history := history + [entries];
    }

    /** `whole` is the trace of the call this belongs to, `goal` the history at its end. */
    method WriteAll(name: Bytes, job: Job, f: Faults, ghost whole: Trace, ghost goal: seq<Entries>) returns (ok: bool)
      requires name in entries && ToGo(history, entries, Writing(entries, name, job, f, 0, f.writes), goal, whole)
      modifies this
      ensures name in entries
      ensures ok ==> ToGo(history, entries, Publishing(entries, name, job, f), goal, whole)
      ensures !ok ==> ToGo(history, entries, Abandon(entries, name, f), goal, whole)
    {
      var done, writes := 0, f.writes;
      while done < |job.contents|
        invariant 0 <= done <= |job.contents| && name in entries
        invariant ToGo(history, entries, Writing(entries, name, job, f, done, writes), goal, whole)
        decreases |writes|, |job.contents| - done
      {
        if writes != [] && writes[0] == 0 {
          return false;
        }
        done := if writes == [] || done + writes[0] > |job.contents| then |job.contents| else done + writes[0];
        writes := if writes == [] then [] else writes[1..];
        ghost var before, from := history, entries;
        Put(name, entries[name].(contents := job.contents[..done]));
        Advance(before, from, Writing(entries, name, job, f, done, writes), goal, whole);
      }
      return true;
    }

    /** Fills the temporary and renames it over the target. */
    method Fill(name: Bytes, job: Job, f: Faults, ghost whole: Trace, ghost goal: seq<Entries>) returns (ok: bool)
      requires name in entries && ToGo(history, entries, Filling(entries, name, job, f), goal, whole)
      modifies this
      ensures ok ==> history == goal && entries == Last(whole) && whole.error.None?
      ensures !ok ==> ToGo(history, entries, Abandon(entries, name, f), goal, whole)
    {
      if f.chmodFails {
        return false;
      }
      ghost var before, from := history, entries;
      Put(name, entries[name].(mode := job.mode));
      Advance(before, from, Writing(entries, name, job, f, 0, f.writes), goal, whole);
      ok := WriteAll(name, job, f, whole, goal);
      if !ok || f.syncFails || f.renameFails {
        return false;
      }
      before, from := history, entries;
      entries := Renamed(entries, name, job.leaf);
      history := history + [entries];
      if f.syncParentFails {
        Advance(before, from, Abandon(entries, name, f), goal, whole);
        return false;
      }
    }

    /** Replaces the target; on any failure after the temporary exists, removes it again. */
    method AtomicWrite(job: Job, f: Faults) returns (error: Option<Error>)
      requires history != [] && history[|history| - 1] == entries
      modifies this
      ensures error == Run(old(entries), job, f).error
      ensures entries == Last(Run(old(entries), job, f))
      ensures history == old(history) + Run(old(entries), job, f).states[1..]
    {
      error := Refusal(entries, job, f);
      if error.Some? {
        return;
      }
      ghost var whole := Run(entries, job, f);
      ghost var goal := history + whole.states[1..];
      ghost var before, from := history, entries;
      var allocation := OpenTemporaryFile(job, f);
      if allocation.Refused? {
        return Some(allocation.error);
      }
      Advance(before, from, Filling(entries, allocation.name, job, f), goal, whole);
      var ok := Fill(allocation.name, job, f, whole, goal);
      if !ok {
        Unlink(allocation.name, f);
        return Some(Io);
      }
      return None;
    }
  }

  lemma Advance(history: seq<Entries>, e: Entries, rest: Trace, goal: seq<Entries>, whole: Trace)
    requires rest.states != [] && ToGo(history, e, Then(e, rest), goal, whole)
    ensures ToGo(history + [rest.states[0]], rest.states[0], rest, goal, whole)
  {
    assert rest.states == [rest.states[0]] + rest.states[1..];
    assert Then(e, rest).states[1..] == rest.states;
  }

  /** `t` is what is left of `whole`, `goal` the history at the end. */
  ghost predicate ToGo(history: seq<Entries>, e: Entries, t: Trace, goal: seq<Entries>, whole: Trace)
  {
    && t.states != [] && whole.states != [] && Last(t) == Last(whole)
    && t.states[0] == e && history + t.states[1..] == goal && t.error == whole.error
  }
}
