/**
 * Turning pairing off once on each requested Bluetooth adapter: the client subscribes to
 * new adapters, waits for the acknowledgement, takes a snapshot, and lets one task per
 * adapter wait for it to appear. Messages in flight may arrive in any order, and the
 * service may be restarted: the client goes on listening to the owner it resolved at first.
 */
module PairingProtocol {

  type Path = string

  datatype Request = AddMatch | GetManagedObjects | SetPairable(path: Path)

  datatype Message =
    | MatchAdded
    // `genuine`: from the owner, of the right member and signature, and with an adapter interface.
    | InterfacesAdded(path: Path, genuine: bool)
    | Snapshot(adapters: set<Path>)
    | PairableSet(path: Path)
    | Error

  /** What the client is waiting for. */
  datatype Phase = Matching | Snapshotting | Applying | Failed

  datatype World = World(
    // The adapters on the bus now, and all that ever were.
    present: set<Path>,
    appeared: set<Path>,
    // Whether the bus passes signals on to the client.
    matched: bool,
    // Whether the service is still the one whose owner the client resolved.
    owned: bool,
    // Requests and messages in flight; a signal may be in flight more than once.
    outbox: set<Request>,
    inbox: set<Message>,
    // The client.
    phase: Phase,
    ready: set<Path>,
    waiting: set<Path>,
    writes: seq<Path>)

  datatype Event =
    | Appear(path: Path)
    | Vanish(path: Path)
    // The adapters go with the service; those of the new one are announced by another owner.
    | Restart
    | Noise(path: Path)
    | Serve(request: Request)
    | Refuse(request: Request)
    // `again`: another copy of the signal stays in flight.
    | Deliver(message: Message, again: bool)
    | RunTask(path: Path)

  /** The handler is installed and `AddMatch` sent; some adapters may be there already. */
  function Start(present: set<Path>, requested: set<Path>): World
  {
    World(present, present, false, true, {AddMatch}, {}, Matching, {}, {}, [])
  }

  // ---- Steps ----

  function AddMessage(w: World, m: Message): World { w.(inbox := w.inbox + {m}) }

  function Served(w: World, request: Request): World
  {
    var v := w.(outbox := w.outbox - {request});
    match request
    case AddMatch => AddMessage(v.(matched := true), MatchAdded)
    case GetManagedObjects => AddMessage(v, Snapshot(w.present))
    case SetPairable(path) => AddMessage(v, PairableSet(path))
  }

  /** What the client does with a message. */
  function Handled(w: World, requested: set<Path>, m: Message, again: bool): World
  {
    var v := if again then w else w.(inbox := w.inbox - {m});
    match m
    case InterfacesAdded(path, genuine) => if genuine && path in requested then v.(ready := v.ready + {path}) else v
    case MatchAdded =>
      if w.phase == Matching then v.(phase := Snapshotting, outbox := v.outbox + {GetManagedObjects}) else v
    case Snapshot(adapters) =>
      if w.phase != Snapshotting then v
      else v.(phase := Applying, ready := v.ready + adapters * requested, waiting := requested)
    case PairableSet(_) => v
    case Error => v.(phase := Failed)
  }

  predicate Next(requested: set<Path>, w: World, e: Event, w': World)
  {
    match e
    case Appear(path) =>
      && path !in w.present
      && var v := w.(present := w.present + {path}, appeared := w.appeared + {path});
        w' == if w.matched && w.owned then AddMessage(v, InterfacesAdded(path, true)) else v
    case Vanish(path) => w' == w.(present := w.present - {path})
    case Restart => w' == w.(present := {}, owned := false)
    case Noise(path) => w' == AddMessage(w, InterfacesAdded(path, false))
    // The bus itself answers `AddMatch`.
    case Serve(request) => request in w.outbox && (w.owned || request.AddMatch?) && w' == Served(w, request)
    case Refuse(request) => request in w.outbox && w' == AddMessage(w.(outbox := w.outbox - {request}), Error)
    case Deliver(m, again) =>
      m in w.inbox && w.phase != Failed && (again ==> m.InterfacesAdded?) && w' == Handled(w, requested, m, again)
    case RunTask(path) =>
      && w.phase == Applying && path in w.waiting && path in w.ready
      && w' == w.(waiting := w.waiting - {path}, outbox := w.outbox + {SetPairable(path)}, writes := w.writes + [path])
  }

  ghost predicate Behaviour(requested: set<Path>, worlds: seq<World>, events: seq<Event>)
  {
    && |worlds| == |events| + 1
    && worlds[0] == Start(worlds[0].present, requested)
    && forall i :: 0 <= i < |events| ==> Next(requested, worlds[i], events[i], worlds[i + 1])
  }

  // ---- Invariants ----

  /** A snapshot is on its way that holds `path`. */
  ghost predicate InSnapshot(w: World, path: Path)
  {
    exists s :: path in s && Snapshot(s) in w.inbox
  }

  /** The client heard of `path`, or a message on its way tells it. */
  ghost predicate Heard(w: World, path: Path)
  {
    path in w.ready || InterfacesAdded(path, true) in w.inbox || InSnapshot(w, path)
  }

  /** The client heard of `path`, or it will still hear of it. */
  ghost predicate Noticed(w: World, path: Path)
  {
    Heard(w, path) || (w.owned && (w.phase == Matching || GetManagedObjects in w.outbox))
  }

  /** Nothing has failed, nor is about to. */
  predicate Sound(w: World) { w.phase != Failed && Error !in w.inbox }

  ghost predicate AllNoticed(w: World, requested: set<Path>)
  {
    Sound(w) && w.owned ==> forall path :: path in w.present && path in requested ==> Noticed(w, path)
  }

  /** Nobody hears of an adapter before it appeared. */
  ghost predicate Truthful(w: World, requested: set<Path>)
  {
    && w.present <= w.appeared
    && w.ready <= w.appeared * requested
    && (forall path :: InterfacesAdded(path, true) in w.inbox ==> path in w.appeared)
    && (forall s :: Snapshot(s) in w.inbox ==> s <= w.appeared)
  }

  /** The one subscription: sent, acknowledged, or past. */
  ghost predicate SubscribesOnce(w: World)
  {
    && (AddMatch in w.outbox ==> w.phase in {Matching, Failed} && MatchAdded !in w.inbox)
    && (MatchAdded in w.inbox ==> w.phase in {Matching, Failed} && w.matched)
    && (w.phase == Matching && Sound(w) ==> AddMatch in w.outbox || MatchAdded in w.inbox)
    && (w.phase in {Snapshotting, Applying} ==> w.matched)
  }

  /** The one snapshot: asked for, on its way, or taken in. */
  ghost predicate SnapshotsOnce(w: World)
  {
    && (GetManagedObjects in w.outbox ==> w.phase in {Snapshotting, Failed} && forall s :: Snapshot(s) !in w.inbox)
    && (forall s :: Snapshot(s) in w.inbox ==> w.phase in {Snapshotting, Failed})
    && (forall s, t :: Snapshot(s) in w.inbox && Snapshot(t) in w.inbox ==> s == t)
    && (w.phase == Snapshotting && Sound(w) ==> GetManagedObjects in w.outbox || exists s :: Snapshot(s) in w.inbox)
  }

  predicate Distinct(s: seq<Path>) { forall i, j :: 0 <= i < j < |s| ==> s[i] != s[j] }

  function Written(w: World): set<Path> { set p | p in w.writes }

  ghost predicate WritesOnce(w: World, requested: set<Path>)
  {
    && Distinct(w.writes) && Written(w) <= w.ready && Written(w) !! w.waiting
    && (w.phase == Matching || w.phase == Snapshotting ==> w.writes == [])
    && (w.phase == Applying ==> w.waiting + Written(w) == requested)
  }

  ghost predicate Invariant(w: World, requested: set<Path>)
  {
    && AllNoticed(w, requested) && Truthful(w, requested)
    && SubscribesOnce(w) && SnapshotsOnce(w) && WritesOnce(w, requested)
  }

  lemma NextTruthful(requested: set<Path>, w: World, e: Event, w': World)
    requires Truthful(w, requested) && Next(requested, w, e, w')
    ensures Truthful(w', requested)
  {
  }

  lemma NextSnapshotsOnce(requested: set<Path>, w: World, e: Event, w': World)
    requires SubscribesOnce(w) && SnapshotsOnce(w) && Next(requested, w, e, w')
    ensures SnapshotsOnce(w')
  {
  }

  lemma NextWritesOnce(requested: set<Path>, w: World, e: Event, w': World)
    requires Truthful(w, requested) && SnapshotsOnce(w) && SubscribesOnce(w) && WritesOnce(w, requested)
    requires Next(requested, w, e, w')
    ensures WritesOnce(w', requested)
  {
    if !e.RunTask? {
      assert w'.writes == w.writes && Written(w') == Written(w);
    }
  }

  lemma NextNoticed(requested: set<Path>, w: World, e: Event, w': World)
    requires AllNoticed(w, requested) && SubscribesOnce(w) && SnapshotsOnce(w) && Next(requested, w, e, w')
    ensures AllNoticed(w', requested)
  {
  }

  lemma NextSubscribesOnce(requested: set<Path>, w: World, e: Event, w': World)
    requires SubscribesOnce(w) && Next(requested, w, e, w')
    ensures SubscribesOnce(w')
  {
  }

  lemma NextInvariant(requested: set<Path>, w: World, e: Event, w': World)
    requires Invariant(w, requested) && Next(requested, w, e, w')
    ensures Invariant(w', requested)
  {
    NextTruthful(requested, w, e, w');
    NextSubscribesOnce(requested, w, e, w');
    NextSnapshotsOnce(requested, w, e, w');
    NextWritesOnce(requested, w, e, w');
    NextNoticed(requested, w, e, w');
  }

  lemma StepOf(requested: set<Path>, worlds: seq<World>, events: seq<Event>, i: nat)
    requires Behaviour(requested, worlds, events) && i < |events|
    ensures Next(requested, worlds[i], events[i], worlds[i + 1])
  {
  }

  lemma {:induction false} BehaviourInvariant(requested: set<Path>, worlds: seq<World>, events: seq<Event>, k: nat)
    requires Behaviour(requested, worlds, events) && k < |worlds|
    ensures Invariant(worlds[k], requested)
  {
    if k > 0 {
      BehaviourInvariant(requested, worlds, events, k - 1);
      StepOf(requested, worlds, events, k - 1);
      NextInvariant(requested, worlds[k - 1], events[k - 1], worlds[k]);
    }
  }

  // ---- Main results ----

  /** The service was restarted for the first time just before. */
  predicate LostAt(worlds: seq<World>, j: nat)
  {
    0 < j < |worlds| && worlds[j - 1].owned && !worlds[j].owned
  }

  lemma StepAfterRestart(requested: set<Path>, w: World, e: Event, w': World, path: Path)
    requires Next(requested, w, e, w') && !w.owned && Sound(w') && SnapshotsOnce(w) && path in requested
    ensures !w'.owned && Sound(w) && (Heard(w', path) <==> Heard(w, path))
  {
  }

  /** Once the service was restarted, the client hears of no further adapter. */
  lemma {:induction false} NothingNewAfterRestart(
      requested: set<Path>, worlds: seq<World>, events: seq<Event>, j: nat, k: nat, path: Path)
    requires Behaviour(requested, worlds, events) && j <= k < |worlds| && !worlds[j].owned
    requires Sound(worlds[k]) && path in requested
    ensures !worlds[k].owned && Sound(worlds[j]) && (Heard(worlds[k], path) <==> Heard(worlds[j], path))
    decreases k - j
  {
    if j < k {
      StepOf(requested, worlds, events, j);
      BehaviourInvariant(requested, worlds, events, j);
      StaysLost(requested, worlds[j], events[j], worlds[j + 1]);
      NothingNewAfterRestart(requested, worlds, events, j + 1, k, path);
      StepAfterRestart(requested, worlds[j], events[j], worlds[j + 1], path);
    }
  }

  lemma StaysLost(requested: set<Path>, w: World, e: Event, w': World)
    requires Next(requested, w, e, w') && !w.owned
    ensures !w'.owned
  {
  }

  lemma {:induction false} LostSomewhere(requested: set<Path>, worlds: seq<World>, events: seq<Event>, k: nat)
    returns (j: nat)
    requires Behaviour(requested, worlds, events) && k < |worlds| && !worlds[k].owned
    ensures j <= k && LostAt(worlds, j)
  {
    if worlds[k - 1].owned {
      j := k;
    } else {
      j := LostSomewhere(requested, worlds, events, k - 1);
    }
  }

  /** What the client heard of when the service was restarted. */
  ghost predicate HeardWhenLost(worlds: seq<World>, k: nat, path: Path)
  {
    exists j: nat :: j <= k && LostAt(worlds, j) && Heard(worlds[j], path)
  }

  lemma HeardExactly(requested: set<Path>, worlds: seq<World>, events: seq<Event>, k: nat, path: Path)
    requires Behaviour(requested, worlds, events) && k < |worlds| && Sound(worlds[k]) && !worlds[k].owned
    requires path in requested
    ensures Heard(worlds[k], path) <==> HeardWhenLost(worlds, k, path)
  {
    var j := LostSomewhere(requested, worlds, events, k);
    NothingNewAfterRestart(requested, worlds, events, j, k, path);
    if i: nat :| i <= k && LostAt(worlds, i) && Heard(worlds[i], path) {
      NothingNewAfterRestart(requested, worlds, events, i, k, path);
    }
  }

  /**
   * Under every interleaving, as long as nothing failed, a requested adapter that is there
   * is known to the client, or its notice is still to come, exactly when the service was
   * not restarted or the client had heard of the adapter by then.
   */
  lemma NoAdapterIsMissed(requested: set<Path>, worlds: seq<World>, events: seq<Event>, k: nat, path: Path)
    requires Behaviour(requested, worlds, events) && k < |worlds| && Sound(worlds[k])
    requires path in requested && path in worlds[k].present
    ensures Noticed(worlds[k], path) <==> worlds[k].owned || HeardWhenLost(worlds, k, path)
    ensures worlds[k].phase == Applying && worlds[k].owned ==>
              path in worlds[k].ready || InterfacesAdded(path, true) in worlds[k].inbox
  {
    BehaviourInvariant(requested, worlds, events, k);
    if !worlds[k].owned {
      HeardExactly(requested, worlds, events, k, path);
    }
  }

  const EMPTY: World := World({}, {}, false, true, {AddMatch}, {}, Matching, {}, {}, [])

  /** An adapter that appears after a restart is never written, though nothing fails or is left to do. */
  lemma MissedAfterRestart(path: Path) returns (worlds: seq<World>, events: seq<Event>)
    ensures Behaviour({path}, worlds, events) && |worlds| == 7
    ensures Quiet(worlds[6]) && Sound(worlds[6]) && path in worlds[6].present && worlds[6].writes == []
  {
    events := [Serve(AddMatch), Deliver(MatchAdded, false), Serve(GetManagedObjects), Deliver(Snapshot({}), false),
               Restart, Appear(path)];
    var subscribed := EMPTY.(matched := true, outbox := {}, inbox := {MatchAdded});
    var asked := subscribed.(inbox := {}, phase := Snapshotting, outbox := {GetManagedObjects});
    var answered := asked.(outbox := {}, inbox := {Snapshot({})});
    var applying := answered.(inbox := {}, phase := Applying, waiting := {path});
    var lost := applying.(owned := false);
    var missed := lost.(present := {path}, appeared := {path});
    worlds := [EMPTY, subscribed, asked, answered, applying, lost, missed];
    assert Next({path}, EMPTY, events[0], subscribed);
    assert Next({path}, subscribed, events[1], asked);
    assert Next({path}, asked, events[2], answered);
    assert Next({path}, answered, events[3], applying);
    assert Next({path}, applying, events[4], lost);
    assert Next({path}, lost, events[5], missed);
  }

  /** Each write goes to a requested adapter that appeared before, for the first time. */
  lemma WritesAreTimely(requested: set<Path>, worlds: seq<World>, events: seq<Event>, k: nat)
    requires Behaviour(requested, worlds, events) && k < |events| && events[k].RunTask?
    ensures events[k].path in requested && events[k].path in worlds[k].appeared
    ensures events[k].path !in worlds[k].writes && worlds[k + 1].writes == worlds[k].writes + [events[k].path]
  {
    BehaviourInvariant(requested, worlds, events, k);
    var w := worlds[k];
    assert Next(requested, w, events[k], worlds[k + 1]);
    assert events[k].path !in Written(w);
  }

  lemma {:induction false} WritesComeFromTasks(requested: set<Path>, worlds: seq<World>, events: seq<Event>, k: nat,
      path: Path)
    requires Behaviour(requested, worlds, events) && k < |worlds| && path in worlds[k].writes
    ensures exists j :: 0 <= j < k && events[j] == RunTask(path)
  {
    if k > 0 && path in worlds[k - 1].writes {
      WritesComeFromTasks(requested, worlds, events, k - 1, path);
    } else if k > 0 {
      assert Next(requested, worlds[k - 1], events[k - 1], worlds[k]);
      assert events[k - 1] == RunTask(path);
    }
  }

  /** Nothing in flight and no task that could run. */
  predicate Quiet(w: World)
  {
    w.outbox == {} && w.inbox == {} && w.ready * w.waiting == {}
  }

  /**
   * When everything has settled without a failure, only requested adapters that appeared
   * got their write, each once. If the service was not restarted, all that are there did,
   * and if none went away, those are exactly the requested adapters that appeared.
   * Otherwise exactly those did that the client had heard of when it was restarted.
   */
  lemma QuietMeansDone(requested: set<Path>, worlds: seq<World>, events: seq<Event>, k: nat)
    requires Behaviour(requested, worlds, events) && k < |worlds|
    requires Quiet(worlds[k]) && worlds[k].phase != Failed
    ensures var w := worlds[k];
            && w.phase == Applying && Distinct(w.writes) && Written(w) <= w.appeared * requested
            && (w.owned ==> w.present * requested <= Written(w))
            && (w.owned && w.present == w.appeared ==> Written(w) == w.appeared * requested)
            && (!w.owned ==>
                  forall path :: path in requested ==> (path in Written(w) <==> HeardWhenLost(worlds, k, path)))
  {
    BehaviourInvariant(requested, worlds, events, k);
    var w := worlds[k];
    assert w.phase == Applying;
    forall path | path in requested
      ensures path in Written(w) <==> path in w.ready
    {
      assert path !in w.ready * w.waiting && path in w.waiting + Written(w);
    }
    forall path | path in w.present * requested && w.owned
      ensures path in Written(w)
    {
      assert Noticed(w, path) && path in w.ready;
    }
    if !w.owned {
      forall path | path in requested
        ensures path in w.ready <==> HeardWhenLost(worlds, k, path)
      {
        HeardExactly(requested, worlds, events, k, path);
      }
    }
  }

  // ---- The program ----

  /** The client's side of a connection; what it sends is collected in `sent`. */
  class Client {
    const requested: set<Path>
    var phase: Phase
    var ready: set<Path>
    var waiting: set<Path>
    var writes: seq<Path>
    var sent: set<Request>

    ghost predicate Shows(w: World)
      reads this
    {
      phase == w.phase && ready == w.ready && waiting == w.waiting && writes == w.writes
    }

    constructor (requested: set<Path>)
      ensures this.requested == requested && sent == {AddMatch}
      ensures forall present :: Shows(Start(present, requested))
    {
      this.requested := requested;
      phase, ready, waiting, writes, sent := Matching, {}, {}, [], {AddMatch};
    }

    /** Takes in one message, as the handler and the awaiting code do. */
    method Receive(m: Message, ghost w: World, ghost again: bool)
      requires Shows(w) && m in w.inbox && phase != Failed
      modifies this
      ensures Shows(Handled(w, requested, m, again))
      ensures w.outbox + sent == Handled(w, requested, m, again).outbox + old(sent)
    {
      match m
      case InterfacesAdded(path, genuine) =>
        if genuine && path in requested {
          ready := ready + {path};
        }
      case MatchAdded =>
        if phase == Matching {
          phase := Snapshotting;
          sent := sent + {GetManagedObjects};
        }
      case Snapshot(adapters) =>
        if phase == Snapshotting {
          ready := ready + adapters * requested;
          phase, waiting := Applying, requested;
        }
      case PairableSet(_) =>
      case Error =>
        phase := Failed;
    }

    /** An adapter's task goes on once its event is set. */
    method Apply(path: Path, ghost w: World)
      requires Shows(w) && phase == Applying && path in waiting && path in ready
      modifies this
      ensures exists w' :: Next(requested, w, RunTask(path), w') && Shows(w')
      ensures sent == old(sent) + {SetPairable(path)}
    {
      waiting := waiting - {path};
      sent := sent + {SetPairable(path)};
      writes := writes + [path];
      assert Next(requested, w, RunTask(path),
                  w.(waiting := waiting, outbox := w.outbox + {SetPairable(path)}, writes := writes));
    }
  }
}
