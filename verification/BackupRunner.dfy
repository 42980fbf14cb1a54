/**
 * An application backup: running writers are stopped, the export and the backup run, and
 * every writer that ran at the start is started again, whatever failed on the way, unless a
 * signal arrives between two starts. Two receipts tell the last attempt from the last success.
 */
module BackupRunner {
  import opened Wrappers

  datatype UnitState = Active | Inactive | Unusable

  type States = map<string, UnitState>

  datatype Command = Stop(name: string) | Start(name: string) | Export | Backup | Recover | Restore | Check

  datatype Ran = Ran(command: Command, ok: bool)

  datatype World = World(states: States, log: seq<Ran>)

  /** What a command does, given everything that ran before it: its success and the units after it. */
  type Environment = (seq<Ran>, States, Command) -> (bool, States)

  function StateOf(states: States, name: string): UnitState
  {
    if name in states then states[name] else Unusable
  }

  function Do(env: Environment, w: World, command: Command): (World, bool)
  {
    var (ok, states) := env(w.log, w.states, command);
    (World(states, w.log + [Ran(command, ok)]), ok)
  }

  // ---- A backup ----

  /** The running units among those declared; none when one of them is in no state to decide. */
  function Snapshot(states: States, names: seq<string>): Option<seq<string>>
  {
    if names == [] then Some([])
    else if StateOf(states, names[0]) == Unusable then None
    else
      match Snapshot(states, names[1..])
      case None => None
      case Some(rest) => Some(if StateOf(states, names[0]) == Active then [names[0]] + rest else rest)
  }

  /** Runs commands until one fails. */
  function DoAll(env: Environment, w: World, commands: seq<Command>): (World, bool)
    decreases |commands|
  {
    if commands == [] then (w, true)
    else
      var (next, ok) := Do(env, w, commands[0]);
      if ok then DoAll(env, next, commands[1..]) else (next, false)
  }

  /** Starts every unit, whether or not earlier starts failed. */
  function StartAll(env: Environment, w: World, names: seq<string>): (World, bool)
    decreases |names|
  {
    if names == [] then (w, true)
    else
      var (next, ok) := Do(env, w, Start(names[0]));
      var (last, all) := StartAll(env, next, names[1..]);
      (last, ok && all)
  }

  function Reversed(names: seq<string>): (r: seq<string>)
    ensures |r| == |names|
    ensures forall i :: 0 <= i < |names| ==> r[i] == names[|names| - 1 - i]
  {
    seq(|names|, i requires 0 <= i < |names| => names[|names| - 1 - i])
  }

  function Stops(names: seq<string>): seq<Command>
  {
    seq(|names|, i requires 0 <= i < |names| => Stop(names[i]))
  }

  /**
   * Where a signal first interrupts each part of a backup between two commands: how many
   * commands of the part came before it. One that interrupts a command fails the command.
   */
  datatype Signals = Signals(preflight: bool, work: Option<nat>, starts: Option<nat>)

  /** What a part still runs before its signal. */
  function Upto<T>(all: seq<T>, cut: Option<nat>): seq<T>
  {
    if cut.Some? && cut.value < |all| then all[..cut.value] else all
  }

  /** No signal arrives in a part of `n` commands, not even after the last one. */
  predicate Undisturbed(cut: Option<nat>, n: nat) { cut.Some? ==> cut.value > n }

  function Work(active: seq<string>): seq<Command> { Stops(active) + [Export, Backup] }

  /** The world after a backup, and whether it raised no error. */
  function RunBackup(env: Environment, w: World, names: seq<string>, s: Signals): (World, bool)
  {
    match Snapshot(w.states, names)
    case None => (w, false)
    case Some(active) =>
      if s.preflight then (w, false)
      else
        var (worked, ok) := DoAll(env, w, Upto(Work(active), s.work));
        var (last, resumed) := StartAll(env, worked, Upto(Reversed(active), s.starts));
        (last, ok && resumed && Undisturbed(s.work, |active| + 2) && Undisturbed(s.starts, |active|))
  }

  // ---- What a backup runs ----

  /** `ran` is a run of `commands` up to the first failure. */
  predicate UntilFailure(ran: seq<Ran>, commands: seq<Command>)
  {
    && |ran| <= |commands|
    && (forall i :: 0 <= i < |ran| ==> ran[i].command == commands[i] && (ran[i].ok || i == |ran| - 1))
    && (|ran| < |commands| ==> ran != [] && !ran[|ran| - 1].ok)
  }

  predicate AllOk(ran: seq<Ran>)
  {
    forall i :: 0 <= i < |ran| ==> ran[i].ok
  }

  /** Exactly one start for each name, in this order. */
  predicate Starts(ran: seq<Ran>, names: seq<string>)
  {
    |ran| == |names| && forall i :: 0 <= i < |ran| ==> ran[i].command == Start(names[i])
  }

  lemma {:induction false} DoAllRuns(env: Environment, w: World, commands: seq<Command>)
    ensures var (last, ok) := DoAll(env, w, commands);
            && w.log <= last.log
            && UntilFailure(last.log[|w.log|..], commands)
            && (ok <==> |last.log| == |w.log| + |commands| && AllOk(last.log[|w.log|..]))
    decreases |commands|
  {
    if commands != [] {
      var (next, ok) := Do(env, w, commands[0]);
      if ok {
        DoAllRuns(env, next, commands[1..]);
      }
    }
  }

  lemma {:induction false} StartAllRuns(env: Environment, w: World, names: seq<string>)
    ensures var (last, ok) := StartAll(env, w, names);
            && w.log <= last.log
            && Starts(last.log[|w.log|..], names)
            && (ok <==> AllOk(last.log[|w.log|..]))
    decreases |names|
  {
    if names != [] {
      var (next, ok) := Do(env, w, Start(names[0]));
      StartAllRuns(env, next, names[1..]);
    }
  }

  /** The log of a backup: work up to the first failure or signal, then all starts up to a signal. */
  ghost predicate WorkThenStarts(ran: seq<Ran>, active: seq<string>, s: Signals)
  {
    exists k :: BackupLog(ran, active, s, k)
  }

  predicate BackupLog(ran: seq<Ran>, active: seq<string>, s: Signals, k: nat)
  {
    && k <= |ran| && UntilFailure(ran[..k], Upto(Work(active), s.work))
    && Starts(ran[k..], Upto(Reversed(active), s.starts))
  }

  /**
   * A rejected or interrupted snapshot runs nothing. Otherwise, wherever the work fails or
   * is interrupted, the units that ran at the start get one start attempt each, in reverse
   * order, up to a signal that arrives between the starts; the backup succeeds exactly when
   * the whole work and every start did and no signal arrived.
   */
  lemma BackupRestartsAll(env: Environment, w: World, names: seq<string>, s: Signals)
    ensures var (last, ok) := RunBackup(env, w, names, s);
            match Snapshot(w.states, names)
            case None => last == w && !ok
            case Some(active) =>
              if s.preflight then last == w && !ok
              else
                && w.log <= last.log
                && WorkThenStarts(last.log[|w.log|..], active, s)
                && (ok <==>
                      && |last.log| == |w.log| + 2 * |active| + 2 && AllOk(last.log[|w.log|..])
                      && Undisturbed(s.work, |active| + 2) && Undisturbed(s.starts, |active|))
  {
    if Snapshot(w.states, names).Some? {
      var active := Snapshot(w.states, names).value;
      var work, starts := Upto(Work(active), s.work), Upto(Reversed(active), s.starts);
      var worked := DoAll(env, w, work).0;
      DoAllRuns(env, w, work);
      StartAllRuns(env, worked, starts);
      JoinLogs(w.log, worked.log, StartAll(env, worked, starts).0.log, active, s);
    }
  }

  lemma JoinLogs(start: seq<Ran>, middle: seq<Ran>, end: seq<Ran>, active: seq<string>, s: Signals)
    requires start <= middle <= end
    requires UntilFailure(middle[|start|..], Upto(Work(active), s.work))
    requires Starts(end[|middle|..], Upto(Reversed(active), s.starts))
    ensures start <= end && WorkThenStarts(end[|start|..], active, s)
    ensures AllOk(end[|start|..]) <==> AllOk(middle[|start|..]) && AllOk(end[|middle|..])
  {
    var ran, k := end[|start|..], |middle| - |start|;
    assert ran[..k] == middle[|start|..] && ran[k..] == end[|middle|..];
    assert ran == ran[..k] + ran[k..];
    assert BackupLog(ran, active, s, k);
  }

  /**
   * In whatever a backup runs before its starts, the stops come first, in order; the export
   * follows when all of them succeeded, and the backup right after an export that succeeded.
   */
  lemma WorkIsOrdered(ran: seq<Ran>, active: seq<string>, cut: Option<nat>, i: nat)
    requires UntilFailure(ran, Upto(Work(active), cut)) && i < |ran|
    ensures forall j :: 0 <= j < i ==> ran[j].ok
    ensures i < |active| ==> ran[i].command == Stop(active[i])
    ensures ran[i].command == Export <==> i == |active|
    ensures ran[i].command == Backup <==> i == |active| + 1
    ensures ran[i].command == Backup ==> ran[i - 1] == Ran(Export, true)
  {
    assert ran[i].command == Work(active)[i];
    if i > 0 {
      assert ran[i - 1].command == Work(active)[i - 1] && ran[i - 1].ok;
    }
  }

  /** A signal in any gap fails the backup, the one after the last command of a part included. */
  lemma SignalsFail(env: Environment, w: World, names: seq<string>, s: Signals)
    requires Snapshot(w.states, names).Some?
    ensures var n := |Snapshot(w.states, names).value|;
            || s.preflight || (s.work.Some? && s.work.value <= n + 2) || (s.starts.Some? && s.starts.value <= n)
            ==> !RunBackup(env, w, names, s).1
    ensures var n := |Snapshot(w.states, names).value|;
            && !s.preflight && (s.work.Some? ==> s.work.value > n + 2) && (s.starts.Some? ==> s.starts.value > n)
            ==> RunBackup(env, w, names, s) == RunBackup(env, w, names, Signals(false, None, None))
  {
  }

  /** The log after the work and before the starts. */
  function Worked(env: Environment, w: World, active: seq<string>, s: Signals): World
  {
    DoAll(env, w, Upto(Work(active), s.work)).0
  }

  /**
   * Once the snapshot was taken, every unit that ran gets its start, in reverse order,
   * exactly when no signal arrives before the last of the starts, between two commands.
   */
  lemma AllRestartedExactly(env: Environment, w: World, names: seq<string>, s: Signals)
    requires Snapshot(w.states, names).Some? && !s.preflight
    ensures var active := Snapshot(w.states, names).value;
            var worked, last := Worked(env, w, active, s), RunBackup(env, w, names, s).0;
            && w.log <= worked.log <= last.log
            && (Starts(last.log[|worked.log|..], Reversed(active)) <==> (s.starts.Some? ==> s.starts.value >= |active|))
  {
    var active := Snapshot(w.states, names).value;
    DoAllRuns(env, w, Upto(Work(active), s.work));
    StartAllRuns(env, Worked(env, w, active, s), Upto(Reversed(active), s.starts));
  }

  /** The snapshot fails exactly on a unit whose state is neither active nor inactive. */
  lemma {:induction false} SnapshotExactly(states: States, names: seq<string>)
    ensures Snapshot(states, names).None? <==> exists n :: n in names && (n !in states || states[n] == Unusable)
    ensures Snapshot(states, names).Some? ==>
              forall n :: n in Snapshot(states, names).value <==> n in names && n in states && states[n] == Active
  {
    if names != [] {
      SnapshotExactly(states, names[1..]);
      assert forall n :: n in names <==> n == names[0] || n in names[1..];
    }
  }

  // ---- Writers are running again ----

  /** A start that succeeds leaves its unit running, and no start stops a running unit. */
  ghost predicate StartsWork(env: Environment)
  {
    forall log, states, name ::
      var (ok, after) := env(log, states, Start(name));
      && (ok ==> StateOf(after, name) == Active)
      && forall n :: StateOf(states, n) == Active ==> StateOf(after, n) == Active
  }

  lemma {:induction false} StartAllActivates(env: Environment, w: World, names: seq<string>)
    requires StartsWork(env)
    ensures var (last, ok) := StartAll(env, w, names);
            && (forall n :: StateOf(w.states, n) == Active ==> StateOf(last.states, n) == Active)
            && (ok ==> forall n :: n in names ==> StateOf(last.states, n) == Active)
    decreases |names|
  {
    if names != [] {
      var (next, ok) := Do(env, w, Start(names[0]));
      assert next.states == env(w.log, w.states, Start(names[0])).1;
      StartAllActivates(env, next, names[1..]);
      assert forall n :: n in names <==> n == names[0] || n in names[1..];
    }
  }

  /** After a backup whose starts all were attempted and succeeded, every writer that ran before runs again. */
  lemma WritersRunAgain(env: Environment, w: World, names: seq<string>, s: Signals, n: string)
    requires StartsWork(env) && n in names && StateOf(w.states, n) == Active && Snapshot(w.states, names).Some?
    requires s.starts.Some? ==> s.starts.value >= |Snapshot(w.states, names).value|
    requires var last := RunBackup(env, w, names, s).0;
             forall i :: |w.log| <= i < |last.log| && last.log[i].command.Start? ==> last.log[i].ok
    ensures StateOf(RunBackup(env, w, names, s).0.states, n) == Active
  {
    var active := Snapshot(w.states, names).value;
    SnapshotExactly(w.states, names);
    if !s.preflight {
      var worked := Worked(env, w, active, s);
      var last := RunBackup(env, w, names, s).0;
      DoAllRuns(env, w, Upto(Work(active), s.work));
      StartAllRuns(env, worked, Reversed(active));
      StartAllActivates(env, worked, Reversed(active));
      forall i | 0 <= i < |last.log[|worked.log|..]|
        ensures last.log[|worked.log|..][i].ok
      {
        assert last.log[|worked.log|..][i] == last.log[|worked.log| + i];
      }
      var i :| 0 <= i < |active| && active[i] == n;
      assert Reversed(active)[|active| - 1 - i] == n;
    }
  }

  /** Commands that all do what they are for. */
  function Obedient(log: seq<Ran>, states: States, command: Command): (bool, States)
  {
    match command
    case Stop(name) => (true, states[name := Inactive])
    case Start(name) => (true, states[name := Active])
    case _ => (true, states)
  }

  lemma ObedientStops(w: World, a: string, b: string)
    ensures var last := DoAll(Obedient, w, [Stop(a), Stop(b), Export, Backup]).0;
            last.states == w.states[a := Inactive][b := Inactive]
  {
    var work := [Stop(a), Stop(b), Export, Backup];
    assert work[1..] == [Stop(b), Export, Backup] && work[1..][1..] == [Export, Backup];
    assert work[1..][1..][1..] == [Backup] && work[1..][1..][1..][1..] == [];
    var first := Do(Obedient, w, Stop(a)).0;
    var second := Do(Obedient, first, Stop(b)).0;
    var third := Do(Obedient, second, Export).0;
    assert DoAll(Obedient, w, work) == DoAll(Obedient, first, work[1..]);
    assert DoAll(Obedient, first, work[1..]) == DoAll(Obedient, second, [Export, Backup]);
    assert DoAll(Obedient, second, [Export, Backup]) == DoAll(Obedient, third, [Backup]);
  }

  lemma BothSnapshot(states: States, a: string, b: string)
    requires StateOf(states, a) == StateOf(states, b) == Active
    ensures Snapshot(states, [a, b]) == Some([a, b])
  {
    assert [a, b][1..] == [b] && [b][1..] == [];
    assert [b] + [] == [b] && [a] + [b] == [a, b];
    assert Snapshot(states, [b]) == Some([b]);
  }

  /** Two running writers, and a signal between their two starts: the second stays stopped. */
  lemma InterruptLeavesStopped(w: World, a: string, b: string)
    requires a != b && StateOf(w.states, a) == StateOf(w.states, b) == Active
    ensures StateOf(RunBackup(Obedient, w, [a, b], Signals(false, None, Some(1))).0.states, a) == Inactive
  {
    BothSnapshot(w.states, a, b);
    assert Work([a, b]) == [Stop(a), Stop(b), Export, Backup];
    ObedientStops(w, a, b);
    var stopped := DoAll(Obedient, w, Work([a, b])).0;
    assert Reversed([a, b]) == [b, a] && Upto(Reversed([a, b]), Some(1)) == [b] && [b][1..] == [];
    assert StartAll(Obedient, stopped, [b]).0.states == stopped.states[b := Active];
  }

  // ---- Receipts ----

  datatype Action = BackupAction | Drill

  datatype Result = Success | Failure

  /** Receipts carry when they were completed. */
  datatype Receipt = Receipt(completed: int, result: Result)

  datatype Receipts = Receipts(attempt: map<Action, Receipt>, success: map<Action, Receipt>)

  /** One invocation and what goes wrong around its commands. */
  datatype Request = Request(
    action: Action,
    names: seq<string>,
    signals: Signals,
    // Also a signal before the work is begun.
    lockBusy: bool,
    scratchFails: bool,
    cleanupFails: bool,
    completed: int,
    // Which replacements of receipt files fail: of the two after a success, of the one after a failure.
    attemptFails: bool, successFails: bool, failureFails: bool,
    // A signal once both files of a success are replaced.
    lateSignal: bool)

  /** The two files are replaced one after the other; writing stops at the first that fails. */
  function WriteSuccess(f: Receipts, q: Request): (Receipts, bool)
  {
    var receipt := Receipt(q.completed, Success);
    if q.attemptFails then (f, false)
    else if q.successFails then (f.(attempt := f.attempt[q.action := receipt]), false)
    else (Receipts(f.attempt[q.action := receipt], f.success[q.action := receipt]), true)
  }

  function WriteFailure(f: Receipts, q: Request): Receipts
  {
    if q.failureFails then f else f.(attempt := f.attempt[q.action := Receipt(q.completed, Failure)])
  }

  const DRILL := [Recover, Restore, Check]

  function Phases(env: Environment, w: World, q: Request): (World, bool)
  {
    if q.action == BackupAction then RunBackup(env, w, q.names, q.signals)
    else
      var (last, ok) := DoAll(env, w, Upto(DRILL, q.signals.work));
      (last, ok && Undisturbed(q.signals.work, |DRILL|))
  }

  /** A drill recovers, then restores, then checks, each only after the one before succeeded. */
  lemma DrillIsOrdered(env: Environment, w: World, q: Request, i: nat)
    requires q.action == Drill && |w.log| + i < |Phases(env, w, q).0.log|
    ensures var log := Phases(env, w, q).0.log;
            && i < 3 && log[|w.log| + i].command == (if i == 0 then Recover else if i == 1 then Restore else Check)
            && forall j :: |w.log| <= j < |w.log| + i ==> log[j].ok
  {
    DoAllRuns(env, w, Upto(DRILL, q.signals.work));
    var log := Phases(env, w, q).0.log;
    var ran := log[|w.log|..];
    assert ran[i] == log[|w.log| + i];
    assert forall j :: |w.log| <= j < |log| ==> log[j] == ran[j - |w.log|];
  }

  /** A whole invocation: the world, the receipts and whether it succeeded. */
  function Invoke(env: Environment, w: World, f: Receipts, q: Request): (World, Receipts, bool)
  {
    if q.lockBusy then (w, f, false)
    else
      var (worked, ok) := if q.scratchFails then (w, false) else Phases(env, w, q);
      var (written, done) := if ok && !q.cleanupFails then WriteSuccess(f, q) else (f, false);
      if done && !q.lateSignal then (worked, written, true) else (worked, WriteFailure(written, q), false)
  }

  /** Every command the invocation had to run did, with success, and no signal arrived between them. */
  ghost predicate PhasesSucceeded(env: Environment, w: World, q: Request)
  {
    var last := Phases(env, w, q).0;
    && w.log <= last.log && AllOk(last.log[|w.log|..])
    && if q.action == BackupAction then
         && Snapshot(w.states, q.names).Some? && !q.signals.preflight
         && var n := |Snapshot(w.states, q.names).value|;
           && |last.log| == |w.log| + 2 * n + 2
           && Undisturbed(q.signals.work, n + 2) && Undisturbed(q.signals.starts, n)
       else |last.log| == |w.log| + |DRILL| && Undisturbed(q.signals.work, |DRILL|)
  }

  lemma PhasesExactly(env: Environment, w: World, q: Request)
    ensures Phases(env, w, q).1 <==> PhasesSucceeded(env, w, q)
  {
    if q.action == BackupAction {
      BackupRestartsAll(env, w, q.names, q.signals);
    } else {
      DoAllRuns(env, w, Upto(DRILL, q.signals.work));
    }
  }

  /** Nothing else stands in the way of the success receipt. */
  predicate Unhindered(q: Request)
  {
    !q.lockBusy && !q.scratchFails && !q.cleanupFails && !q.attemptFails && !q.successFails
  }

  /**
   * The success receipt changes exactly when every phase and every restart succeeded and it
   * could be written. The invocation succeeds unless a signal still arrives after that.
   */
  lemma SuccessIsEarned(env: Environment, w: World, f: Receipts, q: Request)
    ensures var (_, g, ok) := Invoke(env, w, f, q);
            var earned := Unhindered(q) && PhasesSucceeded(env, w, q);
            && (ok <==> earned && !q.lateSignal)
            && g.success == (if earned then f.success[q.action := Receipt(q.completed, Success)] else f.success)
            && (!q.lockBusy && !ok && !q.failureFails ==>
                 g.attempt == f.attempt[q.action := Receipt(q.completed, Failure)])
            && (ok ==> g.attempt == f.attempt[q.action := Receipt(q.completed, Success)])
            && (q.lockBusy ==> g == f)
  {
    PhasesExactly(env, w, q);
  }

  /** Any number of invocations, one after the other. */
  function Session(env: Environment, w: World, f: Receipts, requests: seq<Request>): (World, Receipts)
    decreases |requests|
  {
    if requests == [] then (w, f)
    else
      var (next, g, _) := Invoke(env, w, f, requests[0]);
      Session(env, next, g, requests[1..])
  }

  /** The receipt of the last invocation for `action` that did everything and could say so. */
  function LastSuccess(env: Environment, w: World, f: Receipts, requests: seq<Request>, action: Action,
                       was: Option<Receipt>): Option<Receipt>
    decreases |requests|
  {
    if requests == [] then was
    else
      var q := requests[0];
      var (next, g, _) := Invoke(env, w, f, q);
      var earned := q.action == action && Unhindered(q) && Phases(env, w, q).1;
      LastSuccess(env, next, g, requests[1..], action, if earned then Some(Receipt(q.completed, Success)) else was)
  }

  function ReceiptFor(receipts: map<Action, Receipt>, action: Action): Option<Receipt>
  {
    if action in receipts then Some(receipts[action]) else None
  }

  /** Failed runs, before or after, never disturb the record of the last success. */
  lemma {:induction false} SuccessReceiptIsLastSuccess(
      env: Environment, w: World, f: Receipts, requests: seq<Request>, action: Action)
    ensures ReceiptFor(Session(env, w, f, requests).1.success, action)
            == LastSuccess(env, w, f, requests, action, ReceiptFor(f.success, action))
    decreases |requests|
  {
    if requests != [] {
      var q := requests[0];
      PhasesExactly(env, w, q);
      SuccessIsEarned(env, w, f, q);
      var (next, g, _) := Invoke(env, w, f, q);
      SuccessReceiptIsLastSuccess(env, next, g, requests[1..], action);
    }
  }

  // ---- The program ----

  class Runner {
    const env: Environment
    var world: World
    var receipts: Receipts

    constructor (env: Environment, world: World, receipts: Receipts)
      ensures this.env == env && this.world == world && this.receipts == receipts
    {
      this.env := env;
      this.world := world;
      this.receipts := receipts;
    }

    method RunCommand(command: Command) returns (ok: bool)
      modifies this`world
      ensures (world, ok) == Do(env, old(world), command)
    {
      var outcome := env(world.log, world.states, command);
      world := World(outcome.1, world.log + [Ran(command, outcome.0)]);
      return outcome.0;
    }

    /** The preflight over the declared units. */
    method TakeSnapshot(names: seq<string>) returns (active: Option<seq<string>>)
      ensures active == Snapshot(world.states, names)
    {
      var found: seq<string> := [];
      assert names[0..] == names;
      for i := 0 to |names|
        invariant Prepends(found, Snapshot(world.states, names[i..]), Snapshot(world.states, names))
      {
        assert names[i..][1..] == names[i + 1..];
        if StateOf(world.states, names[i]) == Unusable {
          return None;
        }
        if StateOf(world.states, names[i]) == Active {
          found := found + [names[i]];
        }
      }
      assert names[|names|..] == [] && found + [] == found;
      return Some(found);
    }

    /** Runs commands until one fails. */
    method RunAll(commands: seq<Command>) returns (ok: bool)
      modifies this`world
      ensures (world, ok) == DoAll(env, old(world), commands)
    {
      for i := 0 to |commands|
        invariant DoAll(env, world, commands[i..]) == DoAll(env, old(world), commands)
      {
        assert commands[i..][1..] == commands[i + 1..];
        ok := RunCommand(commands[i]);
        if !ok {
          return;
        }
      }
      return true;
    }

    /** Stops the running writers, works, and starts them all again, as far as the signals let it. */
    method BackUp(names: seq<string>, s: Signals) returns (ok: bool)
      modifies this`world
      ensures (world, ok) == RunBackup(env, old(world), names, s)
    {
      var active := TakeSnapshot(names);
      if active.None? || s.preflight {
        return false;
      }
      var worked := RunAll(Upto(Work(active.value), s.work));
      var restart := Upto(Reversed(active.value), s.starts);
      var failed := StartUnits(restart);
      return worked && failed == [] && Undisturbed(s.work, |active.value| + 2) && Undisturbed(s.starts, |active.value|);
    }

    /** Starts every unit, and tells which starts failed. */
    method StartUnits(restart: seq<string>) returns (failed: seq<string>)
      modifies this`world
      ensures (world, failed == []) == StartAll(env, old(world), restart)
    {
      failed := [];
      assert restart[0..] == restart;
      for i := 0 to |restart|
        invariant var (last, all) := StartAll(env, world, restart[i..]);
                  (last, failed == [] && all) == StartAll(env, old(world), restart)
      {
        assert restart[i..][1..] == restart[i + 1..];
        var ok := RunCommand(Start(restart[i]));
        if !ok {
          failed := failed + [restart[i]];
        }
      }
    }

    /** Publishes the last attempt apart from the last success; a file that cannot be replaced ends it. */
    method WriteReceipts(action: Action, result: Result, completed: int, attemptFails: bool, successFails: bool)
      returns (ok: bool)
      modifies this`receipts
      ensures ok <==> !attemptFails && !(result == Success && successFails)
      ensures receipts.attempt ==
              if attemptFails then old(receipts.attempt)
              else old(receipts.attempt)[action := Receipt(completed, result)]
      ensures receipts.success ==
              if ok && result == Success then old(receipts.success)[action := Receipt(completed, result)]
              else old(receipts.success)
    {
      if attemptFails {
        return false;
      }
      receipts := receipts.(attempt := receipts.attempt[action := Receipt(completed, result)]);
      if result == Success {
        if successFails {
          return false;
        }
        receipts := receipts.(success := receipts.success[action := Receipt(completed, result)]);
      }
      return true;
    }

    method Execute(q: Request) returns (ok: bool)
      modifies this
      ensures (world, receipts, ok) == Invoke(env, old(world), old(receipts), q)
    {
      if q.lockBusy {
        return false;
      }
      if q.scratchFails {
        ok := false;
      } else if q.action == BackupAction {
        ok := BackUp(q.names, q.signals);
      } else {
        ok := RunAll(Upto(DRILL, q.signals.work));
        ok := ok && Undisturbed(q.signals.work, |DRILL|);
      }
      if ok && !q.cleanupFails {
        ok := WriteReceipts(q.action, Success, q.completed, q.attemptFails, q.successFails);
        if ok && !q.lateSignal {
          return;
        }
      }
      var _ := WriteReceipts(q.action, Failure, q.completed, q.failureFails, false);
      return false;
    }
  }

  predicate Prepends(a: seq<string>, b: Option<seq<string>>, c: Option<seq<string>>)
  {
    if b.None? then c.None? else c.Some? && c.value == a + b.value
  }
}
