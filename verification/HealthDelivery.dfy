/**
 * Delivering storage warnings: a change of state is acknowledged only after its
 * notification command succeeded, and an acknowledged state is not delivered again.
 */
module HealthDelivery {
  import opened Wrappers

  /** Where notifications go: the desktop, which has a directory of its own, or the configured command, if any. */
  datatype Channel = Desktop | Configured(command: Option<seq<string>>)

  /** The hash of the set of messages and the channel, taken to be injective. */
  datatype Digest = Digest(messages: set<string>, channel: Channel)

  datatype Kind = Test | Warning | Recovery

  datatype Event = Event(kind: Kind, messages: seq<string>)

  /** A readable receipt; `digest` is missing from one that this program did not write. */
  datatype Receipt = Receipt(digest: Option<Digest>, kind: Kind)

  /** What happened, oldest first. */
  datatype Entry = Sent(event: Event, channel: Channel, ok: bool) | Acknowledged(digest: Digest, kind: Kind)

  /** The three files of one delivery directory. */
  datatype Store = Store(delivered: Option<Receipt>, pending: Option<Event>, testPending: Option<Event>)

  datatype World = World(store: Store, log: seq<Entry>)

  /** One call; `ok` is the command's success, `stop` the step after which the process dies. */
  datatype Call = Call(channel: Channel, messages: seq<string>, test: bool, ok: bool, stop: nat)

  function SetOf(messages: seq<string>): set<string> { set m | m in messages }

  function DigestOf(c: Call): Digest { Digest(SetOf(c.messages), c.channel) }

  function EventOf(c: Call): Event
  {
    Event(if c.test then Test else if c.messages != [] then Warning else Recovery, c.messages)
  }

  predicate HasCommand(channel: Channel)
  {
    channel.Desktop? || (channel.command.Some? && channel.command.value != [])
  }

  predicate AlreadyDelivered(s: Store, c: Call)
  {
    s.delivered.Some? && s.delivered.value.digest == Some(DigestOf(c))
  }

  // ---- One call, step by step ----

  function SetPending(s: Store, test: bool, event: Option<Event>): Store
  {
    if test then s.(testPending := event) else s.(pending := event)
  }

  function ReceiptOf(c: Call): Receipt { Receipt(Some(DigestOf(c)), EventOf(c).kind) }

  /** Nothing to do but to forget what was pending. */
  predicate Idle(s: Store, c: Call)
  {
    !c.test && (AlreadyDelivered(s, c) || (c.messages == [] && s.delivered.None?))
  }

  /** How many steps a call takes when it is not stopped. */
  function Length(s: Store, c: Call): nat
  {
    if Idle(s, c) || !HasCommand(c.channel) then 1 else if !c.ok then 2 else if c.test then 3 else 4
  }

  function SentEntry(c: Call): Entry { Sent(EventOf(c), c.channel, c.ok) }

  function AckEntry(c: Call): Entry { Acknowledged(DigestOf(c), EventOf(c).kind) }

  /** The world after `k` steps. */
  function Stage(w: World, c: Call, k: nat): World
  {
    var s := w.store;
    if k == 0 then w
    else if Idle(s, c) then w.(store := s.(pending := None))
    else if k == 1 then w.(store := SetPending(s, c.test, Some(EventOf(c))))
    else if k == 2 then World(SetPending(s, c.test, Some(EventOf(c))), w.log + [SentEntry(c)])
    else if c.test then World(s.(testPending := None), w.log + [SentEntry(c)])
    else
      World(Store(Some(ReceiptOf(c)), if k == 3 then Some(EventOf(c)) else None, s.testPending),
            w.log + [SentEntry(c)] + [AckEntry(c)])
  }

  /** The worlds after each step of a call. */
  function Stages(w: World, c: Call): seq<World>
  {
    seq(Length(w.store, c), k requires 0 <= k => Stage(w, c, k + 1))
  }

  /** A call is stopped before its first step or at one of its stages. */
  lemma StoppedAtStage(w: World, c: Call)
    ensures After(w, c) == if c.stop == 0 then w
                           else Stages(w, c)[if c.stop < Length(w.store, c) then c.stop - 1 else Length(w.store, c) - 1]
  {
  }

  function After(w: World, c: Call): World
  {
    Stage(w, c, if c.stop < Length(w.store, c) then c.stop else Length(w.store, c))
  }

  predicate Completes(w: World, c: Call) { c.stop >= Length(w.store, c) }

  function Run(w: World, calls: seq<Call>): World
    decreases |calls|
  {
    if calls == [] then w else Run(After(w, calls[0]), calls[1..])
  }

  function Exit(w: World, c: Call): nat
  {
    if Idle(w.store, c) then 0
    else if !HasCommand(c.channel) then (if c.test then 1 else 0)
    else if c.ok then 0 else 1
  }

  /**
   * A call that runs to its end returns zero exactly when it had nothing to deliver, when
   * there is no command and it was no test, or when the command it ran succeeded.
   */
  lemma ExitExactly(w: World, c: Call)
    requires Completes(w, c)
    ensures var sent := After(w, c).log[|w.log|..];
            Exit(w, c) == 0 <==>
            if sent == [] then !c.test else sent[0] == Sent(EventOf(c), c.channel, true)
    ensures Exit(w, c) <= 1
  {
  }

  // ---- The log ----

  function Acks(log: seq<Entry>): seq<Entry>
  {
    if log == [] then []
    else
      var last := log[|log| - 1];
      Acks(log[..|log| - 1]) + if last.Acknowledged? then [last] else []
  }

  lemma AcksGrow(log: seq<Entry>, e: Entry)
    ensures Acks(log + [e]) == Acks(log) + if e.Acknowledged? then [e] else []
  {
    assert (log + [e])[..|log|] == log;
  }

  /** Every acknowledgement comes right after the successful command it stands for. */
  ghost predicate EarnedAcks(log: seq<Entry>)
  {
    forall i :: 0 <= i < |log| && log[i].Acknowledged? ==>
      && i > 0 && log[i - 1].Sent? && log[i - 1].ok && log[i - 1].event.kind == log[i].kind != Test
      && log[i].digest == Digest(SetOf(log[i - 1].event.messages), log[i - 1].channel)
  }

  /** An acknowledged state differs from the one acknowledged before it. */
  ghost predicate NoRepeats(acks: seq<Entry>)
  {
    forall i :: 0 < i < |acks| ==> acks[i] != acks[i - 1]
  }

  ghost predicate AllAcks(acks: seq<Entry>)
  {
    forall i :: 0 <= i < |acks| ==>
      acks[i].Acknowledged? && (acks[i].kind == if acks[i].digest.messages == {} then Recovery else Warning)
  }

  /** The receipt on disk is the last acknowledgement. */
  ghost predicate Consistent(w: World)
  {
    var acks := Acks(w.log);
    && EarnedAcks(w.log) && AllAcks(acks) && NoRepeats(acks)
    && (acks != [] ==> w.store.delivered == Some(Receipt(Some(acks[|acks| - 1].digest), acks[|acks| - 1].kind)))
  }

  /** `c` is acknowledged, its command having succeeded for a state that was not yet. */
  predicate Acknowledging(w: World, c: Call, w': World)
  {
    && !c.test && c.ok && !Idle(w.store, c)
    && w'.log == w.log + [SentEntry(c)] + [AckEntry(c)]
    && w'.store.delivered == Some(ReceiptOf(c))
  }

  /** What a call, or a part of one, may have done to the log and the receipt. */
  predicate Effect(w: World, c: Call, w': World)
  {
    || (w'.log == w.log && w'.store.delivered == w.store.delivered)
    || (w'.log == w.log + [SentEntry(c)] && w'.store.delivered == w.store.delivered)
    || Acknowledging(w, c, w')
  }

  lemma AfterEffect(w: World, c: Call)
    ensures Effect(w, c, After(w, c))
  {
  }

  lemma SentKeeps(w: World, c: Call, w': World)
    requires Consistent(w) && w'.log == w.log + [SentEntry(c)] && w'.store.delivered == w.store.delivered
    ensures Acks(w'.log) == Acks(w.log) && Consistent(w')
  {
    AcksGrow(w.log, SentEntry(c));
  }

  lemma AckKeeps(w: World, c: Call, w': World)
    requires Consistent(w) && Acknowledging(w, c, w')
    ensures Acks(w'.log) == Acks(w.log) + [AckEntry(c)] && Consistent(w')
    ensures Acks(w.log) != [] ==> Acks(w.log)[|Acks(w.log)| - 1].digest != DigestOf(c)
  {
    AcksGrow(w.log, SentEntry(c));
    AcksGrow(w.log + [SentEntry(c)], AckEntry(c));
    EmptySet(c.messages);
    AckListGrows(Acks(w.log), AckEntry(c));
  }

  lemma AckListGrows(acks: seq<Entry>, ack: Entry)
    requires AllAcks(acks) && NoRepeats(acks) && ack.Acknowledged?
    requires ack.kind == if ack.digest.messages == {} then Recovery else Warning
    requires acks != [] ==> acks[|acks| - 1].digest != ack.digest
    ensures AllAcks(acks + [ack]) && NoRepeats(acks + [ack])
  {
  }

  lemma EffectKeepsConsistent(w: World, c: Call, w': World)
    requires Consistent(w) && Effect(w, c, w')
    ensures Consistent(w')
  {
    if Acknowledging(w, c, w') {
      AckKeeps(w, c, w');
    } else if w'.log != w.log {
      SentKeeps(w, c, w');
    }
  }

  lemma EmptySet(messages: seq<string>)
    ensures SetOf(messages) == {} <==> messages == []
  {
    if messages != [] {
      assert messages[0] in SetOf(messages);
    }
  }

  /**
   * Over every run, calls stopped anywhere and commands failing at will: nothing is
   * acknowledged without a successful command for it, and no state on a channel is
   * acknowledged twice in a row.
   */
  lemma {:induction false} RunsStayConsistent(w: World, calls: seq<Call>)
    requires Consistent(w)
    ensures Consistent(Run(w, calls))
    decreases |calls|
  {
    if calls != [] {
      var c := calls[0];
      AfterEffect(w, c);
      EffectKeepsConsistent(w, c, After(w, c));
      RunsStayConsistent(After(w, c), calls[1..]);
    }
  }

  // ---- One channel ----

  const FRESH: World := World(Store(None, None, None), [])

  /** Warnings and recoveries alternate sensibly: a recovery only right after a warning. */
  ghost predicate RecoveriesFollowWarnings(acks: seq<Entry>)
  {
    forall i :: 0 <= i < |acks| && acks[i].Acknowledged? && acks[i].kind == Recovery ==>
      i > 0 && acks[i - 1].Acknowledged? && acks[i - 1].kind == Warning
  }

  ghost predicate OnChannel(w: World, channel: Channel)
  {
    var acks := Acks(w.log);
    && Consistent(w) && (acks == [] ==> w.store.delivered.None?)
    && forall i :: 0 <= i < |acks| ==> acks[i].Acknowledged? && acks[i].digest.channel == channel
  }

  lemma EffectKeepsChannel(w: World, c: Call, w': World)
    requires OnChannel(w, c.channel) && Effect(w, c, w')
    ensures OnChannel(w', c.channel)
    ensures RecoveriesFollowWarnings(Acks(w.log)) ==> RecoveriesFollowWarnings(Acks(w'.log))
  {
    if Acknowledging(w, c, w') {
      AckKeeps(w, c, w');
      EmptySet(c.messages);
    } else if w'.log != w.log {
      SentKeeps(w, c, w');
    }
  }

  /** On one channel, from nothing, an acknowledged recovery always follows an acknowledged warning. */
  lemma {:induction false} RecoveryFollowsWarning(w: World, calls: seq<Call>, channel: Channel)
    requires OnChannel(w, channel) && RecoveriesFollowWarnings(Acks(w.log))
    requires forall i :: 0 <= i < |calls| ==> calls[i].channel == channel
    ensures OnChannel(Run(w, calls), channel) && RecoveriesFollowWarnings(Acks(Run(w, calls).log))
    decreases |calls|
  {
    if calls != [] {
      var c := calls[0];
      AfterEffect(w, c);
      EffectKeepsChannel(w, c, After(w, c));
      RecoveryFollowsWarning(After(w, c), calls[1..], channel);
    }
  }

  // ---- Any channels ----

  /** The receipt on disk, if there is one, is this program's own. */
  ghost predicate OwnReceipt(w: World)
  {
    Consistent(w) && (Acks(w.log) == [] ==> w.store.delivered.None?)
  }

  /** The receipt is that of a recovery on another channel, and a healthy state is now delivered. */
  predicate Relapses(s: Store, c: Call)
  {
    && s.delivered.Some? && s.delivered.value.kind == Recovery
    && s.delivered.value.digest.Some? && s.delivered.value.digest.value.channel != c.channel
    && !c.test && c.messages == [] && HasCommand(c.channel) && c.ok && c.stop >= 3
  }

  lemma OneMoreFollows(acks: seq<Entry>, ack: Entry)
    requires ack.Acknowledged? && RecoveriesFollowWarnings(acks)
    ensures RecoveriesFollowWarnings(acks + [ack]) <==>
            (ack.kind == Recovery ==> acks != [] && acks[|acks| - 1].Acknowledged? && acks[|acks| - 1].kind == Warning)
  {
    var longer := acks + [ack];
    assert longer[|acks|] == ack;
    assert forall i :: 0 <= i < |acks| ==> longer[i] == acks[i];
  }

  lemma EffectOwns(w: World, c: Call, w': World)
    requires OwnReceipt(w) && Effect(w, c, w')
    ensures OwnReceipt(w')
    ensures Acks(w'.log) == Acks(w.log) + if Acknowledging(w, c, w') then [AckEntry(c)] else []
  {
    EffectKeepsConsistent(w, c, w');
    if Acknowledging(w, c, w') {
      AckKeeps(w, c, w');
    } else if w'.log != w.log {
      SentKeeps(w, c, w');
    }
  }

  /** What a call must be to be acknowledged. */
  lemma AcknowledgingExactly(w: World, c: Call)
    ensures Acknowledging(w, c, After(w, c)) <==>
            !c.test && !Idle(w.store, c) && HasCommand(c.channel) && c.ok && c.stop >= 3
  {
  }

  /** One call breaks the rule exactly when it announces, on another channel, a recovery that was announced. */
  lemma ChannelChangeRepeatsRecovery(w: World, c: Call)
    requires OwnReceipt(w) && RecoveriesFollowWarnings(Acks(w.log))
    ensures RecoveriesFollowWarnings(Acks(After(w, c).log)) <==> !Relapses(w.store, c)
    ensures Relapses(w.store, c) ==> Acks(After(w, c).log) == Acks(w.log) + [AckEntry(c)]
  {
    AfterEffect(w, c);
    EffectOwns(w, c, After(w, c));
    AcknowledgingExactly(w, c);
    EmptySet(c.messages);
    if Acknowledging(w, c, After(w, c)) {
      OneMoreFollows(Acks(w.log), AckEntry(c));
    }
  }

  lemma BrokenStays(acks: seq<Entry>, more: seq<Entry>)
    requires RecoveriesFollowWarnings(acks + more)
    ensures RecoveriesFollowWarnings(acks)
  {
    assert forall i :: 0 <= i < |acks| ==> (acks + more)[i] == acks[i];
  }

  lemma StepExactly(w: World, c: Call)
    requires OwnReceipt(w)
    ensures OwnReceipt(After(w, c))
    ensures RecoveriesFollowWarnings(Acks(After(w, c).log)) <==>
            RecoveriesFollowWarnings(Acks(w.log)) && !Relapses(w.store, c)
  {
    AfterEffect(w, c);
    EffectOwns(w, c, After(w, c));
    if RecoveriesFollowWarnings(Acks(w.log)) {
      ChannelChangeRepeatsRecovery(w, c);
    } else if RecoveriesFollowWarnings(Acks(After(w, c).log)) {
      BrokenStays(Acks(w.log), if Acknowledging(w, c, After(w, c)) then [AckEntry(c)] else []);
    }
  }

  /** The call at `i` relapses. */
  predicate RelapsesAt(w: World, calls: seq<Call>, i: nat)
    requires i < |calls|
  {
    Relapses(Run(w, calls[..i]).store, calls[i])
  }

  lemma {:induction false} RunExactly(w: World, calls: seq<Call>)
    requires OwnReceipt(w)
    ensures OwnReceipt(Run(w, calls))
    ensures RecoveriesFollowWarnings(Acks(Run(w, calls).log)) <==>
            RecoveriesFollowWarnings(Acks(w.log)) && forall i :: 0 <= i < |calls| ==> !RelapsesAt(w, calls, i)
    decreases |calls|
  {
    if calls != [] {
      var c, rest := calls[0], calls[1..];
      StepExactly(w, c);
      RunExactly(After(w, c), rest);
      LaterRelapses(w, calls);
    }
  }

  lemma LaterRelapses(w: World, calls: seq<Call>)
    requires calls != []
    ensures (forall i :: 0 <= i < |calls| ==> !RelapsesAt(w, calls, i)) <==>
            !Relapses(w.store, calls[0]) && forall i :: 0 <= i < |calls[1..]| ==>
              !RelapsesAt(After(w, calls[0]), calls[1..], i)
  {
    var rest := calls[1..];
    assert calls[..0] == [];
    assert RelapsesAt(w, calls, 0) <==> Relapses(w.store, calls[0]);
    forall i | 0 <= i < |rest|
      ensures RelapsesAt(After(w, calls[0]), rest, i) <==> RelapsesAt(w, calls, i + 1)
    {
      assert calls[..i + 1][1..] == rest[..i];
    }
    assert forall i :: 0 < i < |calls| ==> (RelapsesAt(w, calls, i) <==> RelapsesAt(After(w, calls[0]), rest, i - 1));
  }

  /**
   * From a fresh directory, on any channels, every acknowledged recovery follows an
   * acknowledged warning exactly when no call delivers a healthy state while the receipt
   * on disk is that of a recovery on another channel.
   */
  lemma RecoveryFollowsWarningExactly(calls: seq<Call>)
    ensures RecoveriesFollowWarnings(Acks(Run(FRESH, calls).log)) <==>
            forall i :: 0 <= i < |calls| ==> !RelapsesAt(FRESH, calls, i)
  {
    RunExactly(FRESH, calls);
  }

  /** A warning and its recovery by one command, then the same healthy state after another was configured. */
  const MOVED: seq<Call> := [
    Call(Configured(Some(["mail"])), ["full"], false, true, 4),
    Call(Configured(Some(["mail"])), [], false, true, 4),
    Call(Configured(Some(["page"])), [], false, true, 4)]

  lemma MovedRelapses()
    ensures !RecoveriesFollowWarnings(Acks(Run(FRESH, MOVED).log))
  {
    var first, second := After(FRESH, MOVED[0]), After(After(FRESH, MOVED[0]), MOVED[1]);
    assert first.store.delivered == Some(ReceiptOf(MOVED[0])) && !AlreadyDelivered(first.store, MOVED[1]) by {
      EmptySet(MOVED[0].messages);
      EmptySet(MOVED[1].messages);
    }
    assert second.store.delivered == Some(ReceiptOf(MOVED[1]));
    assert MOVED[..2] == [MOVED[0], MOVED[1]] && [MOVED[0], MOVED[1]][1..] == [MOVED[1]] && [MOVED[1]][1..] == [];
    assert Run(FRESH, MOVED[..2]) == Run(first, [MOVED[1]]) == Run(second, []) == second;
    assert RelapsesAt(FRESH, MOVED, 2);
    RecoveryFollowsWarningExactly(MOVED);
  }

  // ---- Single calls ----

  /** After a finished call that was no test, the current warning is acknowledged or pending. */
  lemma WarningIsKnown(w: World, c: Call)
    requires !c.test && c.messages != [] && Completes(w, c)
    ensures var after := After(w, c).store;
            (AlreadyDelivered(after, c) && after.pending.None?) || after.pending == Some(EventOf(c))
  {
  }

  /** A test changes neither record, whatever happens to it. */
  lemma TestsLeaveRecords(w: World, c: Call)
    requires c.test
    ensures After(w, c).store.delivered == w.store.delivered && After(w, c).store.pending == w.store.pending
    ensures Acks(After(w, c).log) == Acks(w.log)
  {
    AcksGrow(w.log, Sent(EventOf(c), c.channel, c.ok));
  }

  /** What is acknowledged is not sent again, in whatever order and however often its messages come. */
  lemma SameMessagesStaySilent(w: World, c: Call, again: Call)
    requires !c.test && !again.test && c.channel == again.channel && SetOf(c.messages) == SetOf(again.messages)
    requires AlreadyDelivered(After(w, c).store, c)
    ensures After(After(w, c), again).log == After(w, c).log
    ensures AlreadyDelivered(After(After(w, c), again).store, again)
  {
  }

  // ---- When every command succeeds ----

  /** The changes of a sequence of states, the healthy start left out. */
  function Changes(states: seq<set<string>>, last: set<string>): seq<set<string>>
  {
    if states == [] then []
    else if states[0] == last then Changes(states[1..], last)
    else [states[0]] + Changes(states[1..], states[0])
  }

  function States(calls: seq<Call>): seq<set<string>>
  {
    if calls == [] then []
    else (if calls[0].test then [] else [SetOf(calls[0].messages)]) + States(calls[1..])
  }

  function AckedStates(acks: seq<Entry>): seq<set<string>>
  {
    if acks == [] then []
    else AckedStates(acks[..|acks| - 1]) +
         if acks[|acks| - 1].Acknowledged? then [acks[|acks| - 1].digest.messages] else []
  }

  predicate Reliable(calls: seq<Call>, channel: Channel)
  {
    forall i :: 0 <= i < |calls| ==> calls[i].channel == channel && calls[i].ok && calls[i].stop >= 4
  }

  /** The state last acknowledged; a healthy one before the first. */
  function Current(s: Store): set<string>
  {
    if s.delivered.Some? && s.delivered.value.digest.Some? then s.delivered.value.digest.value.messages else {}
  }

  /** Whether `c` brings a state other than the one acknowledged last. */
  predicate IsNews(s: Store, c: Call)
  {
    !c.test && SetOf(c.messages) != Current(s)
  }

  /** What a call that runs to its end with a working command does. */
  predicate Outcome(w: World, c: Call, after: World)
  {
    if c.test then after.log == w.log + [SentEntry(c)] && after.store.delivered == w.store.delivered
    else if Idle(w.store, c) then after.log == w.log && after.store.delivered == w.store.delivered
    else Acknowledging(w, c, after)
  }

  lemma ReliableCall(w: World, c: Call, after: World)
    requires OnChannel(w, c.channel) && Outcome(w, c, after)
    ensures OnChannel(after, c.channel)
    ensures Current(after.store) == if IsNews(w.store, c) then SetOf(c.messages) else Current(w.store)
  {
    NewsExactly(w, c);
    EffectKeepsChannel(w, c, after);
  }

  lemma ReliableAck(w: World, c: Call, after: World)
    requires OnChannel(w, c.channel) && Outcome(w, c, after)
    ensures AckedStates(Acks(after.log))
            == AckedStates(Acks(w.log)) + if IsNews(w.store, c) then [SetOf(c.messages)] else []
  {
    NewsExactly(w, c);
    if Acknowledging(w, c, after) {
      AckKeeps(w, c, after);
    } else if after.log != w.log {
      SentKeeps(w, c, after);
    }
  }

  /** On one channel, what was delivered already is what is no news. */
  lemma NewsExactly(w: World, c: Call)
    requires OnChannel(w, c.channel)
    ensures IsNews(w.store, c) <==> !c.test && !Idle(w.store, c)
  {
    EmptySet(c.messages);
  }

  /** When commands succeed, exactly the changes of state are acknowledged, in order. */
  lemma {:induction false} ChangesAreAcknowledged(w: World, calls: seq<Call>, channel: Channel)
    requires OnChannel(w, channel) && HasCommand(channel) && Reliable(calls, channel)
    ensures AckedStates(Acks(Run(w, calls).log)) == AckedStates(Acks(w.log)) + Changes(States(calls), Current(w.store))
    decreases |calls|
  {
    if calls != [] {
      var c := calls[0];
      var after := After(w, c);
      ReliableCall(w, c, after);
      ReliableAck(w, c, after);
      ChangesAreAcknowledged(after, calls[1..], channel);
      ChangesStep(calls, w.store);
      Splice(AckedStates(Acks(w.log)), if IsNews(w.store, c) then [SetOf(c.messages)] else [],
             Changes(States(calls[1..]), Current(after.store)));
    }
  }

  lemma Splice(a: seq<set<string>>, b: seq<set<string>>, c: seq<set<string>>)
    ensures a + b + c == a + (b + c)
    ensures [] + c == c
  {
  }

  lemma ChangesStep(calls: seq<Call>, s: Store)
    requires calls != []
    ensures var state := SetOf(calls[0].messages);
            Changes(States(calls), Current(s))
            == if IsNews(s, calls[0]) then [state] + Changes(States(calls[1..]), state)
               else Changes(States(calls[1..]), Current(s))
  {
    if !calls[0].test {
      assert States(calls)[1..] == States(calls[1..]);
    } else {
      assert States(calls) == States(calls[1..]);
    }
  }

  /** From a fresh directory. */
  lemma FreshChangesAreAcknowledged(calls: seq<Call>, channel: Channel)
    requires HasCommand(channel) && Reliable(calls, channel)
    ensures AckedStates(Acks(Run(FRESH, calls).log)) == Changes(States(calls), {})
  {
    ChangesAreAcknowledged(FRESH, calls, channel);
  }

  // ---- The program ----

  /** The directory under its lock. */
  class Delivery {
    var delivered: Option<Receipt>
    var pending: Option<Event>
    var testPending: Option<Event>
    ghost var log: seq<Entry>
    /** Everything a kill could have left, oldest first. */
    ghost var history: seq<World>

    ghost function State(): World
      reads this
    {
      World(Store(delivered, pending, testPending), log)
    }

    constructor ()
      ensures State() == FRESH && history == [FRESH]
    {
      delivered, pending, testPending, log := None, None, None, [];
      history := [FRESH];
    }

    method Remember(test: bool, event: Option<Event>)
      modifies this
      ensures State() == old(State()).(store := SetPending(old(State()).store, test, event))
      ensures history == old(history) + [State()]
    {
      if test {
        testPending := event;
      } else {
        pending := event;
      }
      history := history + [State()];
    }

    /** Tells whether the command succeeded. */
    method RunCommand(event: Event, channel: Channel, ok: bool) returns (success: bool)
      modifies this
      ensures success == ok && State() == old(State()).(log := old(log) + [Sent(event, channel, ok)])
      ensures history == old(history) + [State()]
    {
      log := log + [Sent(event, channel, ok)];
      history := history + [State()];
      return ok;
    }

    /** The receipt is replaced in one step. */
    method Acknowledge(digest: Digest, kind: Kind)
      modifies this
      ensures State() == World(old(State()).store.(delivered := Some(Receipt(Some(digest), kind))),
                               old(log) + [Acknowledged(digest, kind)])
      ensures history == old(history) + [State()]
    {
      delivered := Some(Receipt(Some(digest), kind));
      log := log + [Acknowledged(digest, kind)];
      history := history + [State()];
    }

    /** A call that runs to its end; on its way the directory goes through the stages, one by one. */
    method Deliver(c: Call) returns (code: nat)
      modifies this
      ensures State() == Stage(old(State()), c, Length(old(State()).store, c))
      ensures history == old(history) + Stages(old(State()), c)
      ensures code == Exit(old(State()), c)
    {
      var event := EventOf(c);
      ghost var start := State();
      if !c.test && delivered.Some? && delivered.value.digest == Some(DigestOf(c)) {
        Remember(false, None);
        return 0;
      }
      if !c.test && c.messages == [] && delivered.None? {
        Remember(false, None);
        return 0;
      }
      Remember(c.test, Some(event));
      assert State() == Stage(start, c, 1);
      if !HasCommand(c.channel) {
        return if c.test then 1 else 0;
      }
      var success := RunCommand(event, c.channel, c.ok);
      assert State() == Stage(start, c, 2);
      if !success {
        return 1;
      }
      if !c.test {
        Acknowledge(DigestOf(c), event.kind);
        assert State() == Stage(start, c, 3);
      }
      Remember(c.test, None);
      return 0;
    }
  }
}
