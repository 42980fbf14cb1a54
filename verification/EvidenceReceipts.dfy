/**
 * Receipts of workstation checks and what makes one acceptable: the validators every
 * receipt must pass before it is kept, compared or counted.
 */
module EvidenceReceipts {
  import opened Wrappers
  import opened WhiteSpace

  datatype Phase = Evaluation | Build | DryActivation | Activation | Runtime | Recovery | VirtualMachine

  datatype Status = Passed | Failed | Invalid | Skipped

  datatype Cache = Warm | Cold | Mixed | Unspecified

  datatype Configuration = Captured(sha256: string) | Unavailable(reason: string)

  /** A source tree as fingerprinted, submodules included. */
  datatype Source = Source(
    revision: string, tree: string, dirty: bool, lockfiles: map<string, string>, submodules: map<string, Source>)

  datatype Sample = Sample(
    exitCode: int, timedOut: bool, descendantsRemained: bool,
    elapsed: real, peakRss: real, user: real, system: real, log: string)

  datatype Record = Record(
    benchmark: bool, date: int, finished: Option<int>,
    target: string, check: string, phase: Phase, system: string,
    source: Source, cache: Cache, environment: string, command: string, configuration: Configuration,
    expectedRuns: int, measurements: seq<Sample>,
    systemPath: Option<string>, installable: Option<string>, buildReceipt: Option<string>,
    activeBefore: Option<string>, activeAfter: Option<string>,
    status: Status, reason: Option<Reason>)

  /** Why a receipt is no success: a fixed message of the program, or a text from elsewhere. */
  datatype Reason = Fixed(message: Message) | Text(text: string)

  datatype Message =
    | BuildWithReceipt | FullSystemWithoutOutput | BadOutputAttribute | NotAStoreOutput
    | OutputOutsideBuild | ReceiptOutsideSystemPhase | NoBuildReceipt | UnacceptableReceipt | MismatchedReceipt
    | NotActive | ConfigurationChanged | SourceChanged | NotActiveAfterwards | DryActivationChangedSystem
    | CommandDidNotStart(error: string) | CommandFailed

  // ---- Texts ----

  predicate IsHex(c: char) { '0' <= c <= '9' || 'a' <= c <= 'f' }

  predicate IsDigest(s: string) { |s| == 64 && forall i :: 0 <= i < |s| ==> IsHex(s[i]) }

  predicate IsRevision(s: string) { (|s| == 40 || |s| == 64) && forall i :: 0 <= i < |s| ==> IsHex(s[i]) }

  predicate IsWord(c: char) { 'A' <= c <= 'Z' || 'a' <= c <= 'z' || '0' <= c <= '9' || c == '_' }

  const STORE := "/nix/store/"
  const STORE_NAME_AT := 44

  /** Letters and digits without e, o, t and u. */
  predicate IsBase32(c: char)
  {
    '0' <= c <= '9' || ('a' <= c <= 'z' && c != 'e' && c != 'o' && c != 't' && c != 'u')
  }

  predicate IsStoreLetter(c: char) { IsWord(c) || c == '+' || c == '.' || c == '?' || c == '=' || c == '-' }

  predicate IsStorePath(s: string)
  {
    && |s| > STORE_NAME_AT && STORE <= s && s[STORE_NAME_AT - 1] == '-'
    && (forall i :: |STORE| <= i < STORE_NAME_AT - 1 ==> IsBase32(s[i]))
    && forall i :: STORE_NAME_AT <= i < |s| ==> IsStoreLetter(s[i])
  }

  predicate IsInstallable(s: string)
  {
    s != "" && forall i :: 0 <= i < |s| ==> IsWord(s[i]) || s[i] == '.' || s[i] == '-'
  }

  predicate HasEnding(s: string, ending: string)
  {
    && |s| > |ending| && s[|s| - |ending|..] == ending
    && forall i :: 0 <= i < |s| - |ending| ==> IsWord(s[i])
  }

  predicate IsPlatform(s: string) { HasEnding(s, "-linux") || HasEnding(s, "-darwin") }

  /** A name in a directory: no separator, and not a way back. */
  predicate IsFileName(s: string) { s != "" && '/' !in s && s != "." && s != ".." }

  /** Something is left after stripping; every message of the program says something. */
  predicate Says(r: Reason) { r.Text? ==> exists i :: 0 <= i < |r.text| && !IsSpace(r.text[i]) }

  /** An argument that was given and is not empty. */
  predicate Given(o: Option<string>) { o.Some? && o.value != "" }

  // ---- Validators ----

  predicate IsSystemPhase(p: Phase) { p == Runtime || p == Recovery || p == Activation || p == DryActivation }

  predicate ValidSource(s: Source)
  {
    && IsRevision(s.revision) && IsDigest(s.tree)
    && (forall n :: n in s.lockfiles ==> n != "" && IsDigest(s.lockfiles[n]))
    && forall n :: n in s.submodules ==> n != "" && ValidSource(s.submodules[n])
  }

  predicate SampleStructure(s: Sample)
  {
    s.elapsed >= 0.0 && s.peakRss >= 0.0 && s.user >= 0.0 && s.system >= 0.0 && IsFileName(s.log)
  }

  predicate ValidSample(s: Sample)
  {
    && SampleStructure(s) && s.exitCode == 0 && !s.timedOut && !s.descendantsRemained
    && s.elapsed > 0.0 && s.peakRss > 0.0
  }

  predicate ValidSamples(samples: seq<Sample>) { forall i :: 0 <= i < |samples| ==> ValidSample(samples[i]) }

  predicate ValidConfiguration(c: Configuration)
  {
    match c
    case Captured(sha256) => IsDigest(sha256)
    case Unavailable(reason) => reason != ""
  }

  predicate ValidEnvelope(r: Record, now: int)
  {
    && r.target != "" && r.check != "" && IsPlatform(r.system)
    && r.finished.Some? && r.date <= r.finished.value <= now
    && IsDigest(r.command) && IsDigest(r.environment)
    && ValidSource(r.source) && ValidConfiguration(r.configuration)
  }

  /** A passed system check names its output and the build that made it. */
  predicate ValidSystemEvidence(r: Record)
  {
    && (r.installable.Some? ==> IsInstallable(r.installable.value))
    && (r.status == Passed ==>
          && (IsSystemPhase(r.phase) || (r.check == "full-system" && r.phase == Build) || r.installable.Some? ==>
                Given(r.installable) && r.systemPath.Some? && IsStorePath(r.systemPath.value))
          && (IsSystemPhase(r.phase) ==> r.buildReceipt.Some? && IsDigest(r.buildReceipt.value)))
  }

  predicate ValidGenerationObservations(r: Record)
  {
    r.status == Passed && IsSystemPhase(r.phase) ==>
      && (r.activeBefore.Some? ==> IsStorePath(r.activeBefore.value))
      && (r.activeAfter.Some? ==> IsStorePath(r.activeAfter.value))
      && (r.phase == Runtime || r.phase == Recovery ==> r.activeBefore == r.systemPath)
      && if r.phase == DryActivation then r.activeBefore == r.activeAfter else r.activeAfter == r.systemPath
  }

  predicate ValidReceipt(r: Record, now: int)
  {
    && ValidEnvelope(r, now)
    && r.expectedRuns >= 1 && r.benchmark == (r.expectedRuns > 1)
    && |r.measurements| <= r.expectedRuns
    && (forall i :: 0 <= i < |r.measurements| ==> SampleStructure(r.measurements[i]))
    && (if r.status == Passed then |r.measurements| == r.expectedRuns && ValidSamples(r.measurements)
        else r.reason.Some? && Says(r.reason.value))
    && (r.status == Skipped ==> r.measurements == [])
    && ValidSystemEvidence(r) && ValidGenerationObservations(r)
  }

  // ---- What the texts are ----

  predicate Only(s: string, letters: string) { forall c :: c in s ==> c in letters }

  const WORD := CAPITALS + SMALL + DIGITS + "_"

  lemma Letters(c: char)
    ensures IsHex(c) <==> c in "0123456789abcdef"
    ensures IsBase32(c) <==> c in "0123456789abcdfghijklmnpqrsvwxyz"
  {
  }

  const CAPITALS := "ABCDEFGHIJKLMNOPQRSTUVWXYZ"
  const SMALL := "abcdefghijklmnopqrstuvwxyz"
  const DIGITS := "0123456789"

  lemma Capitals(c: char)
    ensures 'A' <= c <= 'Z' <==> c in CAPITALS
  {
  }

  lemma Small(c: char)
    ensures 'a' <= c <= 'z' <==> c in SMALL
  {
  }

  lemma Words(c: char)
    ensures IsWord(c) <==> c in WORD
  {
    Capitals(c);
    Small(c);
  }

  /** Digests, revisions and output attributes, letter by letter. */
  lemma TextsExactly(s: string)
    ensures IsDigest(s) <==> |s| == 64 && Only(s, "0123456789abcdef")
    ensures IsRevision(s) <==> (|s| == 40 || |s| == 64) && Only(s, "0123456789abcdef")
    ensures IsInstallable(s) <==>
              s != "" && Only(s, WORD + ".-")
  {
    forall c: char
      ensures IsHex(c) <==> c in "0123456789abcdef"
    {
      Letters(c);
    }
    forall c: char
      ensures IsWord(c) || c == '.' || c == '-' <==> c in WORD + ".-"
    {
      Words(c);
    }
    assert IsInstallable(s) <==> s != "" && forall c :: c in s ==> IsWord(c) || c == '.' || c == '-';
  }

  predicate InStore(s: string, hash: string, name: string)
  {
    && s == "/nix/store/" + hash + "-" + name
    && |hash| == 32 && Only(hash, "0123456789abcdfghijklmnpqrsvwxyz")
    && name != ""
    && Only(name, WORD + "+.?=-")
  }

  lemma StoreLetters(c: char)
    ensures IsStoreLetter(c) <==> c in WORD + "+.?=-"
  {
    Words(c);
  }

  lemma StoreTexts(s: string)
    ensures Only(s, "0123456789abcdfghijklmnpqrsvwxyz") <==> forall i :: 0 <= i < |s| ==> IsBase32(s[i])
    ensures Only(s, WORD + "+.?=-") <==> forall i :: 0 <= i < |s| ==> IsStoreLetter(s[i])
  {
    forall i | 0 <= i < |s|
      ensures IsBase32(s[i]) <==> s[i] in "0123456789abcdfghijklmnpqrsvwxyz"
      ensures IsStoreLetter(s[i]) <==> s[i] in WORD + "+.?=-"
    {
      Letters(s[i]);
      StoreLetters(s[i]);
    }
  }

  lemma StorePathHas(s: string)
    requires IsStorePath(s)
    ensures InStore(s, s[11..43], s[44..])
  {
    StoreTexts(s[11..43]);
    StoreTexts(s[44..]);
    assert s == s[..11] + s[11..43] + [s[43]] + s[44..] && s[..11] == STORE;
  }

  lemma StoreTextParts(store: string, hash: string, name: string)
    ensures var s, at := store + hash + "-" + name, |store| + |hash|;
            && |s| == at + 1 + |name| && store <= s && s[at] == '-'
            && (forall i :: |store| <= i < at ==> s[i] == hash[i - |store|])
            && forall i :: at < i < |s| ==> s[i] == name[i - at - 1]
  {
    assert store + hash + "-" + name == store + (hash + "-" + name);
  }

  lemma InStoreIsPath(s: string, hash: string, name: string)
    requires InStore(s, hash, name)
    ensures IsStorePath(s)
  {
    StoreTexts(hash);
    StoreTexts(name);
    StoreTextParts(STORE, hash, name);
    assert s == STORE + hash + "-" + name;
  }

  /** A store path names an output by a hash and a name. */
  lemma StorePathExactly(s: string)
    ensures IsStorePath(s) <==> exists hash: string, name: string :: InStore(s, hash, name)
  {
    if IsStorePath(s) {
      StorePathHas(s);
    }
    if hash: string, name: string :| InStore(s, hash, name) {
      InStoreIsPath(s, hash, name);
    }
  }

  /** A platform is a machine and one of two systems. */
  lemma PlatformExactly(s: string)
    ensures IsPlatform(s) <==> exists machine: string :: OnPlatform(s, machine)
  {
    forall c: char
      ensures IsWord(c) <==> c in WORD
    {
      Words(c);
    }
    if HasEnding(s, "-linux") {
      Ends(s, "-linux");
      assert OnPlatform(s, s[..|s| - 6]);
    }
    if HasEnding(s, "-darwin") {
      Ends(s, "-darwin");
      assert OnPlatform(s, s[..|s| - 7]);
    }
    if machine: string :| OnPlatform(s, machine) {
      assert s[..|machine|] == machine;
      assert s[|machine|..] == "-linux" || s[|machine|..] == "-darwin";
    }
  }

  predicate OnPlatform(s: string, machine: string)
  {
    machine != "" && Only(machine, WORD) && (s == machine + "-linux" || s == machine + "-darwin")
  }

  lemma Ends(s: string, ending: string)
    requires HasEnding(s, ending)
    ensures s == s[..|s| - |ending|] + ending
  {
  }

  // ---- What a valid receipt says ----

  /** The source at a path of submodule names. */
  function SourceAt(s: Source, path: seq<string>): Option<Source>
  {
    if path == [] then Some(s)
    else if path[0] in s.submodules then SourceAt(s.submodules[path[0]], path[1..])
    else None
  }

  predicate Identified(s: Source)
  {
    && IsRevision(s.revision) && IsDigest(s.tree)
    && (forall n :: n in s.lockfiles ==> n != "" && IsDigest(s.lockfiles[n]))
    && "" !in s.submodules
  }

  predicate IdentifiedAt(s: Source, path: seq<string>)
  {
    SourceAt(s, path).Some? ==> Identified(SourceAt(s, path).value)
  }

  /** A source is valid exactly when it and every submodule under it, at any depth, is identified. */
  lemma {:induction false} ValidSourceExactly(s: Source)
    ensures ValidSource(s) <==> forall path: seq<string> :: IdentifiedAt(s, path)
  {
    forall n | n in s.submodules
      ensures ValidSource(s.submodules[n]) <==> forall path: seq<string> :: IdentifiedAt(s.submodules[n], path)
    {
      ValidSourceExactly(s.submodules[n]);
    }
    if ValidSource(s) {
      forall path: seq<string>
        ensures IdentifiedAt(s, path)
      {
        if path != [] && path[0] in s.submodules {
          assert IdentifiedAt(s.submodules[path[0]], path[1..]);
        }
      }
    }
    if forall path: seq<string> :: IdentifiedAt(s, path) {
      assert IdentifiedAt(s, []);
      forall n, path: seq<string> | n in s.submodules
        ensures IdentifiedAt(s.submodules[n], path)
      {
        assert IdentifiedAt(s, [n] + path);
        assert ([n] + path)[1..] == path;
      }
    }
  }

  predicate OutputNamed(r: Record) { Given(r.installable) && r.systemPath.Some? && IsStorePath(r.systemPath.value) }

  predicate BuildNamed(r: Record) { r.buildReceipt.Some? && IsDigest(r.buildReceipt.value) }

  predicate NoneOrStore(o: Option<string>) { o.Some? ==> IsStorePath(o.value) }

  /** What a receipt of a pass must show, phase by phase. */
  lemma AcceptedPassExactly(r: Record, now: int)
    requires r.status == Passed
    ensures ValidReceipt(r, now) <==>
            && ValidEnvelope(r, now) && 1 <= r.expectedRuns == |r.measurements|
            && (r.benchmark <==> |r.measurements| > 1)
            && (forall m :: m in r.measurements ==>
                  && m.exitCode == 0 && !m.timedOut && !m.descendantsRemained
                  && m.elapsed > 0.0 && m.peakRss > 0.0 && m.user >= 0.0 && m.system >= 0.0
                  && '/' !in m.log && m.log != "" && m.log != "." && m.log != "..")
            && (r.installable.Some? ==> IsInstallable(r.installable.value))
            && match r.phase
               case Evaluation => r.installable.Some? ==> OutputNamed(r)
               case VirtualMachine => r.installable.Some? ==> OutputNamed(r)
               case Build => r.check == "full-system" || r.installable.Some? ==> OutputNamed(r)
               case DryActivation =>
                 OutputNamed(r) && BuildNamed(r) && r.activeBefore == r.activeAfter && NoneOrStore(r.activeBefore)
               case Activation =>
                 OutputNamed(r) && BuildNamed(r) && NoneOrStore(r.activeBefore) && r.activeAfter == r.systemPath
               case Runtime =>
                 OutputNamed(r) && BuildNamed(r) && r.activeBefore == r.systemPath && r.activeAfter == r.systemPath
               case Recovery =>
                 OutputNamed(r) && BuildNamed(r) && r.activeBefore == r.systemPath && r.activeAfter == r.systemPath
  {
    assert ValidSamples(r.measurements) <==> forall m :: m in r.measurements ==> ValidSample(m);
  }

  /** What any other receipt must show: a reason that says something, and no run of a skipped check. */
  lemma AcceptedOtherwiseExactly(r: Record, now: int)
    requires r.status != Passed
    ensures ValidReceipt(r, now) <==>
            && ValidEnvelope(r, now) && |r.measurements| <= r.expectedRuns && 1 <= r.expectedRuns
            && (r.benchmark <==> r.expectedRuns > 1)
            && (forall m :: m in r.measurements ==>
                  && m.elapsed >= 0.0 && m.peakRss >= 0.0 && m.user >= 0.0 && m.system >= 0.0
                  && '/' !in m.log && m.log != "" && m.log != "." && m.log != "..")
            && (r.installable.Some? ==> IsInstallable(r.installable.value))
            && (r.status == Skipped ==> r.measurements == [])
            && r.reason.Some? && (r.reason.value.Text? ==> exists c :: c in r.reason.value.text && !IsSpace(c))
  {
    assert forall m :: m in r.measurements ==> exists i :: 0 <= i < |r.measurements| && r.measurements[i] == m;
  }

  predicate Fingerprint(s: string) { |s| == 64 && Only(s, "0123456789abcdef") }

  /** A valid receipt says what was checked, when, and on what: every input is fingerprinted. */
  lemma AcceptedIsIdentified(r: Record, now: int)
    requires ValidReceipt(r, now)
    ensures r.target != "" && r.check != "" && exists machine: string :: OnPlatform(r.system, machine)
    ensures r.finished.Some? && r.date <= r.finished.value <= now
    ensures Fingerprint(r.command) && Fingerprint(r.environment)
    ensures if r.configuration.Captured? then Fingerprint(r.configuration.sha256) else r.configuration.reason != ""
    ensures forall path: seq<string> :: IdentifiedAt(r.source, path)
  {
    PlatformExactly(r.system);
    TextsExactly(r.command);
    TextsExactly(r.environment);
    if r.configuration.Captured? {
      TextsExactly(r.configuration.sha256);
    }
    ValidSourceExactly(r.source);
  }
}
