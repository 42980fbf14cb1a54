/**
 * Recording one check: the candidate is resolved, the command run, the system and the
 * source looked at again, and the outcome kept in a receipt. What the world answers is
 * given beforehand; it is free to change between any two looks.
 */
module EvidenceCapture {
  import opened Wrappers
  import opened EvidenceReceipts

  datatype Arguments = Arguments(
    target: string, check: string, phase: Phase, cache: Cache, runs: int,
    installable: Option<string>, buildReceipt: bool)

  /** A foreign call returns, refuses its input, or breaks. */
  datatype Answer<+T> = Returned(value: T) | Refused(why: Reason) | Broken(why: Reason)

  datatype Trial = CouldNotStart(error: string) | Ran(sample: Sample)

  datatype Done = Done

  datatype Observations = Observations(
    date: int, native: string, source: Source, environment: string, command: string, configuration: Configuration,
    evaluated: Answer<string>,
    built: Answer<Record>, builtReadAt: int, builtDigest: string,
    // The active system at four moments: recorded and compared, before and after the trials.
    activeBefore: Option<string>, activeAtStart: Option<string>,
    activeAfter: Option<string>, activeAtEnd: Option<string>,
    resolvesAtStart: string -> Option<string>, resolvesAtEnd: string -> Option<string>,
    trials: nat -> Trial,
    realised: Answer<Done>, configurationAfter: Configuration, sourceAfter: Answer<Source>,
    finished: int)

  // ---- The candidate ----

  datatype Candidate =
    | NoCandidate
    | BuildOutput(path: string, installable: string)
    | PriorBuild(path: string, installable: string, receipt: string)

  function BuildCandidate(a: Arguments, w: Observations): Answer<Candidate>
  {
    if a.buildReceipt then Refused(Fixed(BuildWithReceipt))
    else if a.check == "full-system" && !Given(a.installable) then Refused(Fixed(FullSystemWithoutOutput))
    else if !Given(a.installable) then Returned(NoCandidate)
    else if !IsInstallable(a.installable.value) then Refused(Fixed(BadOutputAttribute))
    else
      match w.evaluated
      case Refused(why) => Refused(why)
      case Broken(why) => Broken(why)
      case Returned(output) =>
        if IsStorePath(output) then Returned(BuildOutput(output, a.installable.value))
        else Refused(Fixed(NotAStoreOutput))
  }

  /** An accepted, successful build of this very source, target and platform. */
  predicate Proves(built: Record, a: Arguments, w: Observations, source: Source)
  {
    && built.status == Passed && built.phase == Build && built.source == source && built.target == a.target
    && built.system == w.native && Given(built.installable)
  }

  function CandidateFor(a: Arguments, w: Observations, source: Source): Answer<Candidate>
  {
    if a.phase == Build then BuildCandidate(a, w)
    else if Given(a.installable) then Refused(Fixed(OutputOutsideBuild))
    else if !IsSystemPhase(a.phase) then
      if a.buildReceipt then Refused(Fixed(ReceiptOutsideSystemPhase)) else Returned(NoCandidate)
    else if !a.buildReceipt then Refused(Fixed(NoBuildReceipt))
    else
      match w.built
      case Refused(why) => Refused(why)
      case Broken(why) => Broken(why)
      case Returned(built) =>
        if !ValidReceipt(built, w.builtReadAt) then Refused(Fixed(UnacceptableReceipt))
        else if !Proves(built, a, w, source) then Refused(Fixed(MismatchedReceipt))
        else Returned(PriorBuild(built.systemPath.value, built.installable.value, w.builtDigest))
  }

  function Bind(r: Record, c: Candidate): Record
  {
    match c
    case NoCandidate => r
    case BuildOutput(path, installable) => r.(systemPath := Some(path), installable := Some(installable))
    case PriorBuild(path, installable, receipt) =>
      r.(systemPath := Some(path), installable := Some(installable), buildReceipt := Some(receipt))
  }

  /** What a candidate is, and when there is one. */
  lemma CandidateExactly(a: Arguments, w: Observations, source: Source, path: string, installable: string,
      digest: string)
    ensures var candidate := CandidateFor(a, w, source);
            var onSystem := a.phase in {Runtime, Recovery, Activation, DryActivation};
            var unnamed := a.installable == None || a.installable == Some("");
            && (candidate == Returned(NoCandidate) <==>
                  && !onSystem && unnamed && !a.buildReceipt
                  && !(a.phase == Build && a.check == "full-system"))
            && (candidate == Returned(BuildOutput(path, installable)) <==>
                  && a.phase == Build && !a.buildReceipt && a.installable == Some(installable)
                  && IsInstallable(installable) && w.evaluated == Returned(path) && IsStorePath(path))
            && (candidate == Returned(PriorBuild(path, installable, digest)) <==>
                  && onSystem && unnamed && a.buildReceipt && w.built.Returned?
                  && ValidReceipt(w.built.value, w.builtReadAt)
                  && w.built.value.status == Passed && w.built.value.phase == Build
                  && w.built.value.source == source && w.built.value.target == a.target
                  && w.built.value.system == w.native && installable != ""
                  && w.built.value.systemPath == Some(path) && w.built.value.installable == Some(installable)
                  && digest == w.builtDigest)
  {
    if w.built.Returned? && ValidReceipt(w.built.value, w.builtReadAt) && Proves(w.built.value, a, w, source) {
      assert ValidSystemEvidence(w.built.value);
    }
  }

  /** Why there is none, for each refusal of the program itself. */
  lemma CandidateRefusals(a: Arguments, w: Observations, source: Source)
    ensures var refused := (message: Message) => CandidateFor(a, w, source) == Refused(Fixed(message));
            var build, given := a.phase == Build, Given(a.installable);
            && (build && a.buildReceipt ==> refused(BuildWithReceipt))
            && (build && !a.buildReceipt && !given && a.check == "full-system" ==> refused(FullSystemWithoutOutput))
            && (build && !a.buildReceipt && given ==>
                  !IsInstallable(a.installable.value) ==> refused(BadOutputAttribute))
            && (build && !a.buildReceipt && given && IsInstallable(a.installable.value) ==>
                  w.evaluated.Returned? && !IsStorePath(w.evaluated.value) ==> refused(NotAStoreOutput))
            && (!build && given ==> refused(OutputOutsideBuild))
            && (!build && !given && !IsSystemPhase(a.phase) && a.buildReceipt ==> refused(ReceiptOutsideSystemPhase))
            && (IsSystemPhase(a.phase) && !given && !a.buildReceipt ==> refused(NoBuildReceipt))
            && (IsSystemPhase(a.phase) && !given && a.buildReceipt && w.built.Returned? ==>
                  && (!ValidReceipt(w.built.value, w.builtReadAt) ==> refused(UnacceptableReceipt))
                  && (ValidReceipt(w.built.value, w.builtReadAt) && !Proves(w.built.value, a, w, source) ==>
                        refused(MismatchedReceipt)))
  {
  }

  // ---- The trials ----

  predicate WentWell(s: Sample) { s.exitCode == 0 && !s.timedOut && !s.descendantsRemained }

  function Trials(w: Observations, runs: int, done: nat, r: Record): Record
    decreases runs - done
  {
    if done >= runs then r
    else
      match w.trials(done)
      case CouldNotStart(error) => r.(reason := Some(Fixed(CommandDidNotStart(error))))
      case Ran(sample) =>
        var r' := r.(measurements := r.measurements + [sample]);
        if WentWell(sample) then Trials(w, runs, done + 1, r') else r'
  }

  /**
   * The command is repeated while it goes well: the samples `q` of runs that did are kept, in
   * order, when the run after them failed or did not start, or there is none to come.
   */
  lemma {:induction false} TrialsExactly(w: Observations, runs: int, done: nat, r: Record, q: seq<Sample>)
    requires done + |q| <= runs
    requires forall i :: 0 <= i < |q| ==> w.trials(done + i) == Ran(q[i]) && WentWell(q[i])
    ensures var m, all := done + |q|, r.measurements + q;
            && (m == runs ==> Trials(w, runs, done, r) == r.(measurements := all))
            && (m < runs && w.trials(m).CouldNotStart? ==>
                  Trials(w, runs, done, r) ==
                  r.(measurements := all, reason := Some(Fixed(CommandDidNotStart(w.trials(m).error)))))
            && (m < runs && w.trials(m).Ran? && !WentWell(w.trials(m).sample) ==>
                  Trials(w, runs, done, r) == r.(measurements := all + [w.trials(m).sample]))
    decreases |q|
  {
    if q == [] {
      assert r.measurements + q == r.measurements;
    } else {
      var rest, r' := q[1..], r.(measurements := r.measurements + [q[0]]);
      assert q == [q[0]] + rest;
      assert r'.measurements + rest == r.measurements + q;
      assert w.trials(done + 0) == Ran(q[0]);
      forall i | 0 <= i < |rest|
        ensures w.trials(done + 1 + i) == Ran(rest[i]) && WentWell(rest[i])
      {
        assert w.trials(done + (i + 1)) == Ran(q[i + 1]);
      }
      TrialsExactly(w, runs, done + 1, r', rest);
    }
  }

  predicate Successful(a: Arguments, r: Record) { |r.measurements| == a.runs && ValidSamples(r.measurements) }

  // ---- Looking again ----

  predicate InUse(p: Phase) { p == Runtime || p == Recovery }

  /** The path and the active system exist and resolve to the same output. */
  predicate RuntimeMatches(path: Option<string>, active: Option<string>, resolves: string -> Option<string>)
  {
    Given(path) && active.Some? && resolves(path.value) == active
  }

  function Recheck(a: Arguments, w: Observations, r: Record): Answer<Done>
  {
    if a.phase == Build && Given(r.systemPath) && Successful(a, r) && !w.realised.Returned? then w.realised
    else if r.configuration != w.configurationAfter then Refused(Fixed(ConfigurationChanged))
    else
      match w.sourceAfter
      case Refused(why) => Refused(why)
      case Broken(why) => Broken(why)
      case Returned(after) =>
        if after != r.source then Refused(Fixed(SourceChanged))
        else if (InUse(a.phase) || a.phase == Activation)
             && !RuntimeMatches(r.systemPath, w.activeAtEnd, w.resolvesAtEnd) then
          Refused(Fixed(NotActiveAfterwards))
        else if a.phase == DryActivation && r.activeBefore != r.activeAfter then
          Refused(Fixed(DryActivationChangedSystem))
        else Returned(Done)
  }

  function Conclude(a: Arguments, r: Record): Record
  {
    if Successful(a, r) && r.reason.None? then r.(status := Passed)
    else if r.reason.None? then r.(reason := Some(Fixed(CommandFailed)))
    else r
  }

  /** Which refusal comes of looking again, the first that applies. */
  lemma RecheckRefusals(a: Arguments, w: Observations, r: Record)
    requires w.realised.Returned? && w.sourceAfter.Returned?
    ensures var active := InUse(a.phase) || a.phase == Activation;
            Recheck(a, w, r) ==
            if w.configurationAfter != r.configuration then Refused(Fixed(ConfigurationChanged))
            else if w.sourceAfter.value != r.source then Refused(Fixed(SourceChanged))
            else if active && !RuntimeMatches(r.systemPath, w.activeAtEnd, w.resolvesAtEnd) then
              Refused(Fixed(NotActiveAfterwards))
            else if a.phase == DryActivation && r.activeBefore != r.activeAfter then
              Refused(Fixed(DryActivationChangedSystem))
            else Returned(Done)
  {
  }

  /** The record after the trials, with what was seen of the active system. */
  function Observed(a: Arguments, w: Observations, r: Record): Record
  {
    var ran := Trials(w, a.runs, 0, r);
    if IsSystemPhase(a.phase) then ran.(activeAfter := w.activeAfter) else ran
  }

  function Before(a: Arguments, w: Observations, r: Record, c: Candidate): Record
  {
    if IsSystemPhase(a.phase) then Bind(r, c).(activeBefore := w.activeBefore) else Bind(r, c)
  }

  function Rest(a: Arguments, w: Observations, observed: Record): (Record, Answer<Done>)
  {
    var outcome := Recheck(a, w, observed);
    (if outcome.Returned? then Conclude(a, observed) else observed, outcome)
  }

  function Execute(a: Arguments, w: Observations, r: Record): (Record, Answer<Done>)
  {
    match CandidateFor(a, w, r.source)
    case Refused(why) => (r, Refused(why))
    case Broken(why) => (r, Broken(why))
    case Returned(c) =>
      var before := Before(a, w, r, c);
      if InUse(a.phase) && !RuntimeMatches(before.systemPath, w.activeAtStart, w.resolvesAtStart) then
        (before, Refused(Fixed(NotActive)))
      else
        Rest(a, w, Observed(a, w, before))
  }

  // ---- The receipt ----

  function NewRecord(a: Arguments, w: Observations): Record
  {
    Record(
      a.runs > 1, w.date, None, a.target, a.check, a.phase, w.native, w.source, a.cache, w.environment, w.command,
      w.configuration, a.runs, [], None, None, None, None, None, Failed, None)
  }

  function Settle(r: Record, outcome: Answer<Done>, finished: int): Record
  {
    match outcome
    case Returned(_) => r.(finished := Some(finished))
    case Refused(why) => r.(status := Invalid, reason := Some(why), finished := Some(finished))
    case Broken(why) => r.(status := Failed, reason := Some(why), finished := Some(finished))
  }

  /** The finished record of a check, before it is validated and kept. */
  function Capture(a: Arguments, w: Observations): Record
  {
    var (r, outcome) := Execute(a, w, NewRecord(a, w));
    Settle(r, outcome, w.finished)
  }

  // ---- The program ----

  class Recorder {
    const a: Arguments
    const w: Observations
    var record: Record

    constructor (a: Arguments, w: Observations)
      ensures this.a == a && this.w == w && record == NewRecord(a, w)
    {
      this.a := a;
      this.w := w;
      record := NewRecord(a, w);
    }

    /** Repeats the command until a run fails, keeping every completed observation. */
    method RunTrials()
      modifies this
      ensures record == Trials(w, a.runs, 0, old(record))
    {
      var trial := 0;
      while trial < a.runs
        invariant 0 <= trial
        invariant Trials(w, a.runs, trial, record) == Trials(w, a.runs, 0, old(record))
      {
        var outcome := w.trials(trial);
        if outcome.CouldNotStart? {
          record := record.(reason := Some(Fixed(CommandDidNotStart(outcome.error))));
          return;
        }
        record := record.(measurements := record.measurements + [outcome.sample]);
        if !WentWell(outcome.sample) {
          return;
        }
        trial := trial + 1;
      }
    }

    method ExecuteCapture() returns (outcome: Answer<Done>)
      modifies this
      ensures (record, outcome) == Execute(a, w, old(record))
    {
      var candidate := CandidateFor(a, w, record.source);
      if candidate.Refused? {
        return Refused(candidate.why);
      } else if candidate.Broken? {
        return Broken(candidate.why);
      }
      record := Bind(record, candidate.value);
      if IsSystemPhase(a.phase) {
        record := record.(activeBefore := w.activeBefore);
      }
      if InUse(a.phase) && !RuntimeMatches(record.systemPath, w.activeAtStart, w.resolvesAtStart) {
        return Refused(Fixed(NotActive));
      }
      RunTrials();
      if IsSystemPhase(a.phase) {
        record := record.(activeAfter := w.activeAfter);
      }
      outcome := Recheck(a, w, record);
      if outcome.Returned? {
        record := Conclude(a, record);
      }
    }

    /** Executes the check and turns a refusal or a breakdown into an unsuccessful receipt. */
    method Run(now: int) returns (kept: bool)
      requires record == NewRecord(a, w)
      modifies this
      ensures record == Capture(a, w) && (kept <==> ValidReceipt(record, now))
    {
      var outcome := ExecuteCapture();
      match outcome {
        case Returned(_) =>
        case Refused(why) => record := record.(status := Invalid, reason := Some(why));
        case Broken(why) => record := record.(status := Failed, reason := Some(why));
      }
      record := record.(finished := Some(w.finished));
      kept := ValidReceipt(record, now);
    }
  }

  // ---- What the world is trusted with ----

  predicate Explains<T>(answer: Answer<T>) { !answer.Returned? ==> Says(answer.why) }

  predicate StoreOutput(active: Option<string>) { active.Some? ==> IsStorePath(active.value) }

  /** Store outputs resolve to themselves. */
  ghost predicate Canonical(resolves: string -> Option<string>)
  {
    forall p :: IsStorePath(p) && resolves(p).Some? ==> resolves(p) == Some(p)
  }

  ghost predicate Sound(w: Observations, now: int)
  {
    && IsPlatform(w.native) && ValidSource(w.source) && ValidConfiguration(w.configuration)
    && IsDigest(w.environment) && IsDigest(w.command) && IsDigest(w.builtDigest)
    && w.date <= w.finished <= now
    && Explains(w.evaluated) && Explains(w.built) && Explains(w.realised) && Explains(w.sourceAfter)
    && StoreOutput(w.activeBefore) && StoreOutput(w.activeAtStart)
    && StoreOutput(w.activeAfter) && StoreOutput(w.activeAtEnd)
    && Canonical(w.resolvesAtStart) && Canonical(w.resolvesAtEnd)
    && forall i: nat :: w.trials(i).Ran? ==> SampleStructure(w.trials(i).sample)
  }

  /** The active system did not change between being recorded and being compared. */
  predicate Stable(p: Phase, w: Observations)
  {
    && (InUse(p) ==> w.activeBefore == w.activeAtStart)
    && (InUse(p) || p == Activation ==> w.activeAfter == w.activeAtEnd)
  }

  // ---- Every capture is acceptable ----

  /** What the trials change: measurements, each sound, no more than asked for, and perhaps a reason. */
  ghost predicate TrialsOf(r: Record, before: Record, runs: int)
  {
    && r == before.(measurements := r.measurements, reason := r.reason)
    && |r.measurements| <= runs
    && (forall i :: 0 <= i < |r.measurements| ==> SampleStructure(r.measurements[i]))
    && (r.reason != before.reason ==> r.reason.Some? && Says(r.reason.value))
  }

  lemma {:induction false} TrialsAreSound(w: Observations, now: int, runs: int, done: nat, r: Record)
    requires Sound(w, now) && done <= runs && |r.measurements| == done
    requires forall i :: 0 <= i < |r.measurements| ==> SampleStructure(r.measurements[i])
    ensures TrialsOf(Trials(w, runs, done, r), r, runs)
    decreases runs - done
  {
    if done < runs && w.trials(done).Ran? {
      var r' := r.(measurements := r.measurements + [w.trials(done).sample]);
      if WentWell(w.trials(done).sample) {
        TrialsAreSound(w, now, runs, done + 1, r');
      }
    }
  }

  /** All runs but the last went well, and a short series says why or ends with a failure. */
  lemma {:induction false} TrialsStopAtFailure(w: Observations, runs: int, done: nat, r: Record)
    requires done <= runs && |r.measurements| == done && r.reason.None?
    requires forall i :: 0 <= i < done ==> WentWell(r.measurements[i])
    ensures var q := Trials(w, runs, done, r);
            && (forall i :: 0 <= i < |q.measurements| - 1 ==> WentWell(q.measurements[i]))
            && (|q.measurements| < runs ==>
                  q.reason.Some? || (q.measurements != [] && !WentWell(q.measurements[|q.measurements| - 1])))
    decreases runs - done
  {
    if done < runs && w.trials(done).Ran? && WentWell(w.trials(done).sample) {
      TrialsStopAtFailure(w, runs, done + 1, r.(measurements := r.measurements + [w.trials(done).sample]));
    }
  }

  /** The envelope and the count of samples, which no outcome changes. */
  ghost predicate Begun(r: Record, a: Arguments, w: Observations)
  {
    && r.benchmark == (a.runs > 1) && r.date == w.date && r.finished.None?
    && r.target == a.target && r.check == a.check && r.phase == a.phase && r.system == w.native
    && r.source == w.source && r.environment == w.environment && r.command == w.command
    && r.configuration == w.configuration && r.expectedRuns == a.runs && |r.measurements| <= a.runs
    && (forall i :: 0 <= i < |r.measurements| ==> SampleStructure(r.measurements[i]))
    && (r.installable.Some? ==> IsInstallable(r.installable.value))
    && (r.reason.Some? ==> Says(r.reason.value))
  }

  /** Whatever happened, only empty names make an unsuccessful receipt unacceptable. */
  lemma UnsuccessfulIsAccepted(r: Record, a: Arguments, w: Observations, now: int)
    requires Sound(w, now) && a.runs >= 1 && Begun(r.(finished := None), a, w)
    requires r.finished == Some(w.finished) && (r.status == Failed || r.status == Invalid) && r.reason.Some?
    ensures ValidReceipt(r, now) <==> a.target != "" && a.check != ""
  {
    assert forall i :: 0 <= i < |r.measurements| ==> SampleStructure(r.(finished := None).measurements[i]);
  }

  lemma ObservedIsBegun(a: Arguments, w: Observations, now: int, before: Record)
    requires Sound(w, now) && a.runs >= 1 && Begun(before, a, w) && before.measurements == []
    ensures Begun(Observed(a, w, before), a, w)
    ensures var r := Observed(a, w, before);
            && r.status == before.status && r.systemPath == before.systemPath && r.installable == before.installable
            && r.buildReceipt == before.buildReceipt && r.activeBefore == before.activeBefore
            && r.activeAfter == if IsSystemPhase(a.phase) then w.activeAfter else before.activeAfter
  {
    TrialsAreSound(w, now, a.runs, 0, before);
  }

  /** What the trials and the candidate left in a record that gets as far as being checked again. */
  ghost predicate Ready(observed: Record, c: Candidate, a: Arguments, w: Observations)
  {
    && Begun(observed, a, w) && observed.status == Failed && CandidateFor(a, w, w.source) == Returned(c)
    && observed.systemPath == Bind(NewRecord(a, w), c).systemPath
    && observed.installable == Bind(NewRecord(a, w), c).installable
    && observed.buildReceipt == Bind(NewRecord(a, w), c).buildReceipt
    && (IsSystemPhase(a.phase) ==> observed.activeBefore == w.activeBefore && observed.activeAfter == w.activeAfter)
    && (InUse(a.phase) ==> RuntimeMatches(observed.systemPath, w.activeAtStart, w.resolvesAtStart))
  }

  /** The record once it is settled: passed, or unsuccessful for a reason. */
  lemma RestSettles(observed: Record, a: Arguments, w: Observations, now: int)
    requires Sound(w, now) && observed.status == Failed && (observed.reason.Some? ==> Says(observed.reason.value))
    ensures var (last, outcome) := Rest(a, w, observed);
            var r := Settle(last, outcome, w.finished);
            && r == observed.(status := r.status, reason := r.reason, finished := Some(w.finished))
            && if r.status == Passed then
                 Recheck(a, w, observed).Returned? && Successful(a, observed) && observed.reason.None? && r.reason.None?
               else
                 && (r.status == Failed || r.status == Invalid) && r.reason.Some? && Says(r.reason.value)
                 && (Recheck(a, w, observed).Returned? && observed.reason.None? ==>
                       r.reason == Some(Fixed(CommandFailed)))
  {
  }

  lemma RestIsAccepted(observed: Record, c: Candidate, a: Arguments, w: Observations, now: int)
    requires Sound(w, now) && a.runs >= 1 && Ready(observed, c, a, w)
    ensures var (last, outcome) := Rest(a, w, observed);
            var r := Settle(last, outcome, w.finished);
            ValidReceipt(r, now) <==>
            a.target != "" && a.check != "" && (r.status == Passed ==> Stable(a.phase, w))
  {
    RestSettles(observed, a, w, now);
    var (last, outcome) := Rest(a, w, observed);
  }

  lemma ObservedIsReady(a: Arguments, w: Observations, now: int, c: Candidate)
    requires Sound(w, now) && a.runs >= 1 && CandidateFor(a, w, w.source) == Returned(c)
    requires InUse(a.phase) ==>
             RuntimeMatches(Before(a, w, NewRecord(a, w), c).systemPath, w.activeAtStart, w.resolvesAtStart)
    ensures Ready(Observed(a, w, Before(a, w, NewRecord(a, w), c)), c, a, w)
  {
    ObservedIsBegun(a, w, now, Before(a, w, NewRecord(a, w), c));
  }

  lemma EarlyRefusalIsAccepted(r: Record, why: Reason, broken: bool, a: Arguments, w: Observations, now: int)
    requires Sound(w, now) && a.runs >= 1 && Begun(r, a, w) && Says(why)
    ensures var q := Settle(r, if broken then Broken(why) else Refused(why), w.finished);
            q.status != Passed && (ValidReceipt(q, now) <==> a.target != "" && a.check != "")
  {
    UnsuccessfulIsAccepted(Settle(r, if broken then Broken(why) else Refused(why), w.finished), a, w, now);
  }

  /**
   * The validators accept the record of every check, passed or not, exactly when its target
   * and check are named and, if it passed, the active system was the same when recorded as
   * when compared.
   */
  lemma AcceptedExactly(a: Arguments, w: Observations, now: int)
    requires Sound(w, now) && a.runs >= 1
    ensures ValidReceipt(Capture(a, w), now) <==>
            a.target != "" && a.check != "" && (Capture(a, w).status == Passed ==> Stable(a.phase, w))
  {
    var r := NewRecord(a, w);
    match CandidateFor(a, w, w.source)
    case Refused(why) => EarlyRefusalIsAccepted(r, why, false, a, w, now);
    case Broken(why) => EarlyRefusalIsAccepted(r, why, true, a, w, now);
    case Returned(c) =>
      var before := Before(a, w, r, c);
      if InUse(a.phase) && !RuntimeMatches(before.systemPath, w.activeAtStart, w.resolvesAtStart) {
        EarlyRefusalIsAccepted(before, Fixed(NotActive), false, a, w, now);
      } else {
        ObservedIsReady(a, w, now, c);
        RestIsAccepted(Observed(a, w, before), c, a, w, now);
      }
  }

  // ---- What a pass means ----

  predicate RunsWell(w: Observations, i: nat) { w.trials(i).Ran? && ValidSample(w.trials(i).sample) }

  /** The record holds a full series of good samples exactly when every run is one. */
  lemma {:induction false} TrialsSucceed(w: Observations, runs: int, done: nat, r: Record)
    requires done <= runs && |r.measurements| == done && r.reason.None?
    ensures var q := Trials(w, runs, done, r);
            q.reason.None? && |q.measurements| == runs && ValidSamples(q.measurements) <==>
            ValidSamples(r.measurements) && forall i :: done <= i < runs ==> RunsWell(w, i)
    decreases runs - done
  {
    if done < runs && w.trials(done).Ran? {
      var sample := w.trials(done).sample;
      var r' := r.(measurements := r.measurements + [sample]);
      OneMoreSample(r.measurements, sample);
      if WentWell(sample) {
        TrialsSucceed(w, runs, done + 1, r');
        assert (forall i :: done <= i < runs ==> RunsWell(w, i)) <==>
               RunsWell(w, done) && forall i :: done + 1 <= i < runs ==> RunsWell(w, i);
      } else {
        assert !RunsWell(w, done);
      }
    } else if done < runs {
      assert !RunsWell(w, done);
    }
  }

  lemma OneMoreSample(samples: seq<Sample>, sample: Sample)
    ensures ValidSamples(samples + [sample]) <==> ValidSamples(samples) && ValidSample(sample)
  {
    assert (samples + [sample])[|samples|] == sample;
    assert forall i :: 0 <= i < |samples| ==> (samples + [sample])[i] == samples[i];
  }

  /** The output a candidate stands for. */
  function PathOf(c: Candidate): Option<string>
  {
    match c
    case NoCandidate => None
    case BuildOutput(path, _) => Some(path)
    case PriorBuild(path, _, _) => Some(path)
  }

  /** Everything that a pass depends on. */
  ghost predicate Deserved(a: Arguments, w: Observations)
  {
    && CandidateFor(a, w, w.source).Returned?
    && var c := CandidateFor(a, w, w.source).value;
      && (forall i :: 0 <= i < a.runs ==> RunsWell(w, i))
      && (c.BuildOutput? ==> w.realised.Returned?)
      && w.configurationAfter == w.configuration && w.sourceAfter == Returned(w.source)
      && (InUse(a.phase) ==> RuntimeMatches(PathOf(c), w.activeAtStart, w.resolvesAtStart))
      && (InUse(a.phase) || a.phase == Activation ==> RuntimeMatches(PathOf(c), w.activeAtEnd, w.resolvesAtEnd))
      && (a.phase == DryActivation ==> w.activeBefore == w.activeAfter)
  }

  lemma CandidateKinds(a: Arguments, w: Observations)
    requires CandidateFor(a, w, w.source).Returned?
    ensures var c := CandidateFor(a, w, w.source).value;
            && (c.BuildOutput? ==> a.phase == Build && c.path != "")
            && (a.phase == Build ==> !c.PriorBuild?)
            && (Before(a, w, NewRecord(a, w), c).systemPath == PathOf(c))
  {
  }

  lemma ObservedDeserves(a: Arguments, w: Observations, before: Record)
    requires a.runs >= 1 && before.measurements == [] && before.reason.None?
    ensures var o := Observed(a, w, before);
            Successful(a, o) && o.reason.None? <==> forall i :: 0 <= i < a.runs ==> RunsWell(w, i)
  {
    TrialsSucceed(w, a.runs, 0, before);
    TrialsKeep(w, a.runs, 0, before);
  }

  lemma RestPasses(a: Arguments, w: Observations, o: Record)
    requires o.status == Failed
    ensures var (r, outcome) := Rest(a, w, o);
            Settle(r, outcome, w.finished).status == Passed <==>
            Recheck(a, w, o).Returned? && Successful(a, o) && o.reason.None?
  {
  }

  lemma RecheckExactly(a: Arguments, w: Observations, o: Record, c: Candidate)
    requires Successful(a, o) && o.systemPath == PathOf(c) && o.configuration == w.configuration && o.source == w.source
    requires (c.BuildOutput? ==> a.phase == Build && c.path != "") && (a.phase == Build ==> !c.PriorBuild?)
    requires a.phase == DryActivation ==> o.activeBefore == w.activeBefore && o.activeAfter == w.activeAfter
    ensures Recheck(a, w, o).Returned? <==>
            && (c.BuildOutput? ==> w.realised.Returned?)
            && w.configurationAfter == w.configuration && w.sourceAfter == Returned(w.source)
            && (InUse(a.phase) || a.phase == Activation ==> RuntimeMatches(PathOf(c), w.activeAtEnd, w.resolvesAtEnd))
            && (a.phase == DryActivation ==> w.activeBefore == w.activeAfter)
  {
  }

  /** A check passes exactly when every run, every look at the system and every comparison supports it. */
  lemma PassesExactly(a: Arguments, w: Observations)
    requires a.runs >= 1
    ensures Capture(a, w).status == Passed <==> Deserved(a, w)
  {
    if CandidateFor(a, w, w.source).Returned? {
      var c := CandidateFor(a, w, w.source).value;
      var before := Before(a, w, NewRecord(a, w), c);
      CandidateKinds(a, w);
      ObservedDeserves(a, w, before);
      TrialsKeep(w, a.runs, 0, before);
      var o := Observed(a, w, before);
      RestPasses(a, w, o);
      if Successful(a, o) {
        RecheckExactly(a, w, o, c);
      }
    }
  }

  // ---- Passed checks that cannot be kept ----

  const GOOD := Sample(0, false, false, 1.0, 1.0, 0.0, 0.0, "run.log")

  /** Every look succeeds; the active system is `recorded` when recorded and `path` when compared. */
  function Calm(digest: string, revision: string, path: string, recorded: string, built: Record): Observations
  {
    Observations(
      1, "x-linux", Source(revision, digest, false, map[], map[]), digest, digest, Captured(digest),
      Returned(path), Returned(built), 2, digest,
      Some(recorded), Some(path), Some(path), Some(path), p => Some(p), p => Some(p),
      i => Ran(GOOD), Returned(Done), Captured(digest), Returned(Source(revision, digest, false, map[], map[])), 2)
  }

  /** A passed build of that source. */
  function CalmBuild(digest: string, revision: string, path: string): Record
  {
    Record(
      false, 0, Some(1), "desktop", "full-system", Build, "x-linux",
      Source(revision, digest, false, map[], map[]), Warm,
      digest, digest, Captured(digest), 1, [GOOD], Some(path), Some("system"), None, None, None, Passed, None)
  }

  lemma CalmIsSound(digest: string, revision: string, path: string, recorded: string, built: Record)
    requires IsDigest(digest) && IsRevision(revision) && IsStorePath(path) && IsStorePath(recorded)
    ensures Sound(Calm(digest, revision, path, recorded, built), 2)
  {
    assert HasEnding("x-linux", "-linux") by {
      assert "x-linux"[1..] == "-linux";
    }
  }

  /** An evaluation recorded for a target without a name passes and is refused. */
  lemma NamelessIsRefused(digest: string, revision: string, path: string)
    requires IsDigest(digest) && IsRevision(revision) && IsStorePath(path)
    ensures var a := Arguments("", "unit", Evaluation, Warm, 1, None, false);
            var w := Calm(digest, revision, path, path, CalmBuild(digest, revision, path));
            Capture(a, w).status == Passed && !ValidReceipt(Capture(a, w), 2)
  {
    var a := Arguments("", "unit", Evaluation, Warm, 1, None, false);
    var w := Calm(digest, revision, path, path, CalmBuild(digest, revision, path));
    CalmIsSound(digest, revision, path, path, CalmBuild(digest, revision, path));
    PassesExactly(a, w);
    AcceptedExactly(a, w, 2);
  }

  lemma CalmBuildIsAccepted(digest: string, revision: string, path: string)
    requires IsDigest(digest) && IsRevision(revision) && IsStorePath(path)
    ensures ValidReceipt(CalmBuild(digest, revision, path), 2)
  {
    assert HasEnding("x-linux", "-linux") by {
      assert "x-linux"[1..] == "-linux";
    }
    assert IsInstallable("system");
  }

  /** A runtime check whose active system is switched between being recorded and compared passes and is refused. */
  lemma SwitchedIsRefused(digest: string, revision: string, path: string, recorded: string)
    requires IsDigest(digest) && IsRevision(revision) && IsStorePath(path) && IsStorePath(recorded) && path != recorded
    ensures var a := Arguments("desktop", "unit", Runtime, Warm, 1, None, true);
            var w := Calm(digest, revision, path, recorded, CalmBuild(digest, revision, path));
            Capture(a, w).status == Passed && !ValidReceipt(Capture(a, w), 2)
  {
    var a := Arguments("desktop", "unit", Runtime, Warm, 1, None, true);
    var w := Calm(digest, revision, path, recorded, CalmBuild(digest, revision, path));
    CalmIsSound(digest, revision, path, recorded, CalmBuild(digest, revision, path));
    CalmBuildIsAccepted(digest, revision, path);
    PassesExactly(a, w);
    AcceptedExactly(a, w, 2);
  }

  // ---- A passed check and its build ----

  /** `b` is the build that `r` checks. */
  predicate BuildOf(b: Record, r: Record)
  {
    && b.status == Passed && b.phase == Build
    && b.source == r.source && b.target == r.target && b.system == r.system
    && b.systemPath == r.systemPath && r.systemPath.Some? && b.installable == r.installable
  }

  /** A passed check went all the way. */
  lemma PassedThrough(a: Arguments, w: Observations)
    requires Capture(a, w).status == Passed
    ensures CandidateFor(a, w, w.source).Returned?
    ensures var observed := Observed(a, w, Before(a, w, NewRecord(a, w), CandidateFor(a, w, w.source).value));
            && Recheck(a, w, observed) == Returned(Done) && Successful(a, observed)
            && Capture(a, w) == observed.(status := Passed, finished := Some(w.finished))
  {
    var c := CandidateFor(a, w, w.source);
    if c.Returned? {
      TrialsKeep(w, a.runs, 0, Before(a, w, NewRecord(a, w), c.value));
    }
  }

  /** A passed system check is about the output of an accepted build of the same source, which is still the source. */
  lemma PassNamesItsBuild(a: Arguments, w: Observations)
    requires Capture(a, w).status == Passed && IsSystemPhase(a.phase)
    ensures a.buildReceipt && w.built.Returned? && ValidReceipt(w.built.value, w.builtReadAt)
    ensures BuildOf(w.built.value, Capture(a, w)) && Capture(a, w).buildReceipt == Some(w.builtDigest)
    ensures var b, r := w.built.value, Capture(a, w);
            && b.status == Passed && b.phase == Build && b.source == r.source == w.source
            && b.target == r.target == a.target && b.system == r.system == w.native
            && r.systemPath == b.systemPath != None && r.installable == b.installable
    ensures w.sourceAfter == Returned(Capture(a, w).source)
  {
    PassedThrough(a, w);
    var before := Before(a, w, NewRecord(a, w), CandidateFor(a, w, w.source).value);
    TrialsKeep(w, a.runs, 0, before);
    assert CandidateFor(a, w, w.source).value.PriorBuild?;
  }

  /** A passed build that names an output was found to be realised, on samples that all succeeded. */
  lemma PassedBuildIsRealised(a: Arguments, w: Observations)
    requires Capture(a, w).status == Passed
    ensures |Capture(a, w).measurements| == a.runs && ValidSamples(Capture(a, w).measurements)
    ensures a.phase == Build && Capture(a, w).installable.Some? ==>
              w.realised.Returned? && w.evaluated.Returned? && Capture(a, w).systemPath == Some(w.evaluated.value)
  {
    PassedThrough(a, w);
    var before := Before(a, w, NewRecord(a, w), CandidateFor(a, w, w.source).value);
    TrialsKeep(w, a.runs, 0, before);
  }

  lemma {:induction false} TrialsKeep(w: Observations, runs: int, done: nat, r: Record)
    ensures var q := Trials(w, runs, done, r); q == r.(measurements := q.measurements, reason := q.reason)
    decreases runs - done
  {
    if done < runs && w.trials(done).Ran? {
      TrialsKeep(w, runs, done + 1, r.(measurements := r.measurements + [w.trials(done).sample]));
    }
  }

  // ---- An archive of receipts ----

  /** One check; the build receipt it names, if any, is one kept before. */
  datatype Step = Step(a: Arguments, w: Observations, now: int)

  ghost predicate Reads(step: Step, archive: seq<Record>, digest: Record -> string)
  {
    step.a.buildReceipt && step.w.built.Returned? ==>
      step.w.built.value in archive && step.w.builtDigest == digest(step.w.built.value)
  }

  function Kept(archive: seq<Record>, step: Step): seq<Record>
  {
    var r := Capture(step.a, step.w);
    if ValidReceipt(r, step.now) then archive + [r] else archive
  }

  function Archive(steps: seq<Step>): seq<Record>
  {
    if steps == [] then [] else Kept(Archive(steps[..|steps| - 1]), steps[|steps| - 1])
  }

  ghost predicate Trusted(steps: seq<Step>, digest: Record -> string)
  {
    forall i :: 0 <= i < |steps| ==> Reads(steps[i], Archive(steps[..i]), digest)
  }

  /** `r` passed on a build that is in the archive. */
  ghost predicate Backed(archive: seq<Record>, r: Record, digest: Record -> string)
  {
    exists b :: b in archive && BuildOf(b, r) && r.buildReceipt == Some(digest(b))
  }

  predicate Adds(step: Step, r: Record) { r == Capture(step.a, step.w) && ValidReceipt(r, step.now) }

  lemma KeptExactly(archive: seq<Record>, step: Step, r: Record)
    ensures r in Kept(archive, step) <==> r in archive || Adds(step, r)
  {
  }

  predicate EverAdds(steps: seq<Step>, r: Record) { exists i :: 0 <= i < |steps| && Adds(steps[i], r) }

  lemma LastOrBefore(before: seq<Step>, last: Step, r: Record)
    ensures EverAdds(before + [last], r) <==> EverAdds(before, r) || Adds(last, r)
  {
    var steps := before + [last];
    assert steps[|before|] == last;
    assert forall i :: 0 <= i < |before| ==> steps[i] == before[i];
  }

  /** The archive holds records of checks that the validators accepted when they were kept, and only those. */
  lemma {:induction false} ArchiveExactly(steps: seq<Step>, r: Record)
    ensures r in Archive(steps) <==> EverAdds(steps, r)
  {
    if steps != [] {
      var before, last := steps[..|steps| - 1], steps[|steps| - 1];
      ArchiveExactly(before, r);
      KeptExactly(Archive(before), last, r);
      LastOrBefore(before, last, r);
      assert steps == before + [last];
    }
  }

  lemma {:induction false} ArchiveIsBacked(steps: seq<Step>, digest: Record -> string)
    requires Trusted(steps, digest)
    ensures forall r :: r in Archive(steps) && r.status == Passed && IsSystemPhase(r.phase) ==>
            Backed(Archive(steps), r, digest)
  {
    if steps != [] {
      var before, last := steps[..|steps| - 1], steps[|steps| - 1];
      assert forall i :: 0 <= i < |before| ==> before[..i] == steps[..i];
      ArchiveIsBacked(before, digest);
      CaptureHasPhase(last.a, last.w);
      var r := Capture(last.a, last.w);
      if r.status == Passed && IsSystemPhase(r.phase) {
        PassNamesItsBuild(last.a, last.w);
        assert Reads(last, Archive(before), digest);
      }
      forall q | q in Archive(steps) && q.status == Passed && IsSystemPhase(q.phase)
        ensures Backed(Archive(steps), q, digest)
      {
        if q in Archive(before) {
          assert Backed(Archive(before), q, digest);
        }
      }
    }
  }

  lemma RestHasPhase(a: Arguments, w: Observations, observed: Record)
    ensures var (r, outcome) := Rest(a, w, observed); Settle(r, outcome, w.finished).phase == observed.phase
  {
  }

  lemma CaptureHasPhase(a: Arguments, w: Observations)
    ensures Capture(a, w).phase == a.phase
  {
    var c := CandidateFor(a, w, w.source);
    if c.Returned? {
      var before := Before(a, w, NewRecord(a, w), c.value);
      TrialsKeep(w, a.runs, 0, before);
      RestHasPhase(a, w, Observed(a, w, before));
    }
  }

  /**
   * Over every history of checks: whichever kept receipt has the digest that a passed system
   * check names, it is a passed build of the same source, target, platform and output.
   */
  lemma NamedReceiptIsTheBuild(steps: seq<Step>, digest: Record -> string, r: Record, b: Record)
    requires Trusted(steps, digest)
    requires forall x, y :: x in Archive(steps) && y in Archive(steps) && digest(x) == digest(y) ==> x == y
    requires r in Archive(steps) && r.status == Passed && IsSystemPhase(r.phase)
    requires b in Archive(steps) && r.buildReceipt == Some(digest(b))
    ensures BuildOf(b, r)
  {
    ArchiveIsBacked(steps, digest);
  }
}
