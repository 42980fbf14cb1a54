/**
 * Which required checks a source has passed: every declared check is given the status of
 * its latest matching receipt, and the worst of those that finished together.
 */
module EvidenceCoverage {
  import opened Wrappers
  import opened EvidenceReceipts

  datatype Requirement = Requirement(target: string, check: string, phase: Phase, system: string, required: bool)

  datatype RowStatus = Latest(status: Status) | Missing

  datatype Row = Row(requirement: Requirement, status: RowStatus, date: Option<int>, finished: Option<int>)

  datatype Report = Report(source: Source, rows: seq<Row>, passed: bool)

  type Receipt = r: Record | r.finished.Some? witness EXAMPLE

  const EXAMPLE := Record(
    false, 0, Some(0), "", "", Build, "", Source("", "", false, map[], map[]), Warm, "", "", Unavailable(""),
    1, [], None, None, None, None, None, Failed, None)

  // ---- The manifest ----

  predicate ValidRequirement(c: Requirement) { c.target != "" && c.check != "" && IsPlatform(c.system) }

  predicate SameCheck(a: Requirement, b: Requirement)
  {
    a.target == b.target && a.check == b.check && a.phase == b.phase && a.system == b.system
  }

  predicate ValidManifest(checks: seq<Requirement>)
  {
    && (forall i :: 0 <= i < |checks| ==> ValidRequirement(checks[i]))
    && (forall i, j :: 0 <= i < j < |checks| ==> !SameCheck(checks[i], checks[j]))
    && exists i :: 0 <= i < |checks| && checks[i].required
  }

  /** A manifest requires something and lists no check twice, required or not. */
  lemma ManifestExactly(checks: seq<Requirement>)
    ensures ValidManifest(checks) <==>
            && (exists c :: c in checks && c.required)
            && (forall c :: c in checks ==> c.target != "" && c.check != "" && IsPlatform(c.system))
            && forall i, j :: 0 <= i < j < |checks| ==>
                 checks[i].(required := true) != checks[j].(required := true)
  {
  }

  // ---- The latest receipt ----

  predicate Matches(r: Receipt, c: Requirement, identity: Source)
  {
    && r.target == c.target && r.check == c.check && r.phase == c.phase && r.system == c.system
    && r.source == identity
  }

  function Severity(s: Status): nat
  {
    match s
    case Passed => 0
    case Skipped => 1
    case Failed => 2
    case Invalid => 3
  }

  /** `a` comes after `b`: it finished later, or at the same time with a worse status. */
  predicate After(a: Receipt, b: Receipt)
  {
    a.finished.value > b.finished.value
    || (a.finished.value == b.finished.value && Severity(a.status) > Severity(b.status))
  }

  function Matching(records: seq<Receipt>, c: Requirement, identity: Source): seq<Receipt>
  {
    if records == [] then []
    else (if Matches(records[0], c, identity) then [records[0]] else []) + Matching(records[1..], c, identity)
  }

  /** The first of those that no other comes after. */
  function LatestOf(matching: seq<Receipt>): Option<Receipt>
  {
    if matching == [] then None
    else
      var before := LatestOf(matching[..|matching| - 1]);
      var last := matching[|matching| - 1];
      if before.Some? && !After(last, before.value) then before else Some(last)
  }

  function RowFor(c: Requirement, latest: Option<Receipt>): Row
  {
    match latest
    case None => Row(c, Missing, None, None)
    case Some(r) => Row(c, Latest(r.status), Some(r.date), r.finished)
  }

  function RowOf(records: seq<Receipt>, c: Requirement, identity: Source): Row
  {
    RowFor(c, LatestOf(Matching(records, c, identity)))
  }

  lemma {:induction false} MatchingMembers(records: seq<Receipt>, c: Requirement, identity: Source)
    ensures forall r :: r in Matching(records, c, identity) <==> r in records && Matches(r, c, identity)
  {
    if records != [] {
      MatchingMembers(records[1..], c, identity);
      assert forall r :: r in records <==> r == records[0] || r in records[1..];
    }
  }

  lemma {:induction false} LatestIsLast(matching: seq<Receipt>)
    ensures matching != [] ==> LatestOf(matching).Some? && LatestOf(matching).value in matching
    ensures forall r :: r in matching ==> !After(r, LatestOf(matching).value)
  {
    if matching != [] {
      var before, last := matching[..|matching| - 1], matching[|matching| - 1];
      LatestIsLast(before);
      assert forall r :: r in matching <==> r in before || r == last;
    }
  }

  // ---- What a row says ----

  /** `r` is one of the matching receipts that finished last. */
  ghost predicate FinishedLast(records: seq<Receipt>, c: Requirement, identity: Source, r: Receipt)
  {
    && r in records && Matches(r, c, identity)
    && forall q: Receipt :: q in records && Matches(q, c, identity) ==> q.finished.value <= r.finished.value
  }

  /** Some receipt matches, and all that finished last passed. */
  ghost predicate Covered(records: seq<Receipt>, c: Requirement, identity: Source)
  {
    && (exists r: Receipt :: r in records && Matches(r, c, identity))
    && forall r: Receipt :: FinishedLast(records, c, identity, r) ==> r.status == Passed
  }

  /** The worst status among the matching receipts that finished last. */
  ghost predicate WorstOfLast(records: seq<Receipt>, c: Requirement, identity: Source, s: Status)
  {
    && (exists r: Receipt :: FinishedLast(records, c, identity, r) && r.status == s)
    && forall r: Receipt :: FinishedLast(records, c, identity, r) ==> Severity(r.status) <= Severity(s)
  }

  /** A row says what the last receipts say, at their worst; it is missing only without any. */
  lemma RowExactly(records: seq<Receipt>, c: Requirement, identity: Source)
    ensures RowOf(records, c, identity).status.Missing? <==>
            forall r: Receipt :: r in records ==> !Matches(r, c, identity)
    ensures forall s :: RowOf(records, c, identity).status == Latest(s) <==> WorstOfLast(records, c, identity, s)
    ensures forall r: Receipt :: FinishedLast(records, c, identity, r) ==>
            RowOf(records, c, identity).finished == r.finished
  {
    var matching := Matching(records, c, identity);
    MatchingMembers(records, c, identity);
    LatestIsLast(matching);
    if matching != [] {
      var l := LatestOf(matching).value;
      assert FinishedLast(records, c, identity, l);
      forall r: Receipt | FinishedLast(records, c, identity, r)
        ensures r.finished == l.finished && Severity(r.status) <= Severity(l.status)
      {
        assert r in matching && !After(r, l);
      }
      assert WorstOfLast(records, c, identity, l.status);
    }
  }

  ghost predicate LastHas(records: seq<Receipt>, c: Requirement, identity: Source, s: Status)
  {
    exists r: Receipt :: FinishedLast(records, c, identity, r) && r.status == s
  }

  /** Invalid is worse than failed, failed than skipped, and skipped than passed. */
  lemma WorstExactly(records: seq<Receipt>, c: Requirement, identity: Source)
    ensures var last, worst := s => LastHas(records, c, identity, s), s => WorstOfLast(records, c, identity, s);
            && (worst(Invalid) <==> last(Invalid))
            && (worst(Failed) <==> last(Failed) && !last(Invalid))
            && (worst(Skipped) <==> last(Skipped) && !last(Failed) && !last(Invalid))
            && (worst(Passed) <==> last(Passed) && !last(Skipped) && !last(Failed) && !last(Invalid))
  {
  }

  /** The receipts that count for a check: those of its four fields, on this source. */
  lemma CountsExactly(r: Receipt, c: Requirement, identity: Source)
    ensures Matches(r, c, identity) <==>
            c == Requirement(r.target, r.check, r.phase, r.system, c.required) && r.(source := identity) == r
  {
  }

  lemma RowPassesExactly(records: seq<Receipt>, c: Requirement, identity: Source)
    ensures RowOf(records, c, identity).status == Latest(Passed) <==> Covered(records, c, identity)
  {
    RowExactly(records, c, identity);
    if Covered(records, c, identity) {
      var s := RowOf(records, c, identity).status;
      assert s.Latest? && WorstOfLast(records, c, identity, s.status);
    }
  }

  // ---- The report ----

  predicate AllPassed(rows: seq<Row>)
  {
    rows != [] && forall i :: 0 <= i < |rows| && rows[i].requirement.required ==> rows[i].status == Latest(Passed)
  }

  predicate AllValid(records: seq<Record>, now: int)
  {
    forall i :: 0 <= i < |records| ==> ValidReceipt(records[i], now)
  }

  function Receipts(records: seq<Record>, now: int): seq<Receipt>
    requires AllValid(records, now)
  {
    records
  }

  ghost predicate ReportsOn(report: Report, checks: seq<Requirement>, records: seq<Receipt>, identity: Source)
  {
    && report.source == identity && |report.rows| == |checks| && report.passed == AllPassed(report.rows)
    && forall i :: 0 <= i < |checks| ==> report.rows[i] == RowOf(records, checks[i], identity)
  }

  /**
   * The coverage report; none for an invalid manifest or receipt. It passes exactly when
   * every required check is covered.
   */
  method Coverage(identity: Source, checks: seq<Requirement>, records: seq<Record>, now: int)
      returns (report: Option<Report>)
    ensures report.Some? <==> ValidManifest(checks) && AllValid(records, now)
    ensures report.Some? ==>
              && ReportsOn(report.value, checks, Receipts(records, now), identity)
              && (report.value.passed <==>
                    forall i :: 0 <= i < |checks| && checks[i].required ==>
                      Covered(Receipts(records, now), checks[i], identity))
  {
    if !ValidManifest(checks) || !AllValid(records, now) {
      return None;
    }
    var receipts := Receipts(records, now);
    var rows: seq<Row> := [];
    for i := 0 to |checks|
      invariant |rows| == i && forall j :: 0 <= j < i ==> rows[j] == RowOf(receipts, checks[j], identity)
    {
      var matching := Matching(receipts, checks[i], identity);
      var latest := MaxBy(matching);
      rows := rows + [RowFor(checks[i], latest)];
    }
    forall i | 0 <= i < |checks|
      ensures rows[i].requirement == checks[i]
      ensures rows[i].status == Latest(Passed) <==> Covered(receipts, checks[i], identity)
    {
      RowPassesExactly(receipts, checks[i], identity);
    }
    return Some(Report(identity, rows, AllPassed(rows)));
  }

  method MaxBy(matching: seq<Receipt>) returns (latest: Option<Receipt>)
    ensures latest == LatestOf(matching)
  {
    latest := None;
    for i := 0 to |matching|
      invariant latest == LatestOf(matching[..i])
    {
      assert matching[..i + 1][..i] == matching[..i];
      if latest.None? || After(matching[i], latest.value) {
        latest := Some(matching[i]);
      }
    }
    assert matching[..|matching|] == matching;
  }

  // ---- What the report depends on ----

  /** The order of the receipts does not matter to what a row says. */
  lemma RowOfPermutation(a: seq<Receipt>, b: seq<Receipt>, c: Requirement, identity: Source)
    requires multiset(a) == multiset(b)
    ensures RowOf(a, c, identity).status == RowOf(b, c, identity).status
    ensures RowOf(a, c, identity).finished == RowOf(b, c, identity).finished
  {
    forall r: Receipt
      ensures r in a <==> r in b
    {
      assert r in a <==> r in multiset(a);
      assert r in b <==> r in multiset(b);
    }
    RowOfSet(a, b, c, identity);
  }

  lemma RowOfSet(a: seq<Receipt>, b: seq<Receipt>, c: Requirement, identity: Source)
    requires forall r: Receipt :: r in a <==> r in b
    ensures RowOf(a, c, identity).status == RowOf(b, c, identity).status
    ensures RowOf(a, c, identity).finished == RowOf(b, c, identity).finished
  {
    RowExactly(a, c, identity);
    RowExactly(b, c, identity);
    forall r: Receipt
      ensures FinishedLast(a, c, identity, r) <==> FinishedLast(b, c, identity, r)
    {
    }
    var s := RowOf(a, c, identity).status;
    if s.Latest? {
      assert WorstOfLast(a, c, identity, s.status);
      assert WorstOfLast(b, c, identity, s.status);
      var r: Receipt :| FinishedLast(a, c, identity, r);
      assert FinishedLast(b, c, identity, r);
    }
  }

  /** `r` finished last among the matching receipts, with the worst status of those. */
  ghost predicate WorstLast(records: seq<Receipt>, c: Requirement, identity: Source, r: Receipt)
  {
    FinishedLast(records, c, identity, r) && WorstOfLast(records, c, identity, r.status)
  }

  /** The date of a row is that of one such receipt. */
  lemma RowDate(records: seq<Receipt>, c: Requirement, identity: Source) returns (l: Receipt)
    requires exists r: Receipt :: r in records && Matches(r, c, identity)
    ensures WorstLast(records, c, identity, l) && RowOf(records, c, identity).date == Some(l.date)
  {
    var matching := Matching(records, c, identity);
    RowExactly(records, c, identity);
    MatchingMembers(records, c, identity);
    LatestIsLast(matching);
    l := LatestOf(matching).value;
    assert RowOf(records, c, identity).status == Latest(l.status);
    assert FinishedLast(records, c, identity, l);
  }

  /** A receipt that none comes after is shown when it is the first. */
  lemma {:induction false} FirstIsShown(matching: seq<Receipt>)
    requires matching != [] && forall r :: r in matching ==> !After(r, matching[0])
    ensures LatestOf(matching) == Some(matching[0])
  {
    if |matching| > 1 {
      var before := matching[..|matching| - 1];
      assert forall r :: r in before ==> r in matching;
      FirstIsShown(before);
      assert matching[|matching| - 1] in matching;
    }
  }

  /** The same receipts with `r` in front. */
  lemma BringToFront(records: seq<Receipt>, r: Receipt) returns (p: seq<Receipt>)
    requires r in records
    ensures multiset(p) == multiset(records) && p != [] && p[0] == r
  {
    var i :| 0 <= i < |records| && records[i] == r;
    p := [r] + (records[..i] + records[i + 1..]);
    assert records == records[..i] + [r] + records[i + 1..];
  }

  lemma SameReceipts(a: seq<Receipt>, b: seq<Receipt>, c: Requirement, identity: Source)
    requires multiset(a) == multiset(b)
    ensures forall r: Receipt :: r in a <==> r in b
    ensures forall r: Receipt :: FinishedLast(a, c, identity, r) <==> FinishedLast(b, c, identity, r)
  {
    forall r: Receipt
      ensures r in a <==> r in b
    {
      assert r in a <==> r in multiset(a);
      assert r in b <==> r in multiset(b);
    }
  }

  lemma SameWorst(a: seq<Receipt>, b: seq<Receipt>, c: Requirement, identity: Source, r: Receipt)
    requires multiset(a) == multiset(b) && WorstLast(a, c, identity, r)
    ensures WorstLast(b, c, identity, r)
  {
    SameReceipts(a, b, c, identity);
  }

  /** Some order of the receipts shows the date of `r`. */
  lemma ShowsDate(records: seq<Receipt>, c: Requirement, identity: Source, r: Receipt) returns (p: seq<Receipt>)
    requires WorstLast(records, c, identity, r)
    ensures multiset(p) == multiset(records) && RowOf(p, c, identity).date == Some(r.date)
  {
    p := BringToFront(records, r);
    SameWorst(records, p, c, identity, r);
    var matching := Matching(p, c, identity);
    assert matching == [r] + Matching(p[1..], c, identity);
    MatchingMembers(p, c, identity);
    forall q | q in matching
      ensures !After(q, r)
    {
      if q.finished == r.finished {
        assert FinishedLast(p, c, identity, q);
      }
    }
    FirstIsShown(matching);
  }

  /**
   * The date shown is the same for every order of the receipts exactly when all that
   * finished last with the worst status carry one date.
   */
  lemma DateFixedExactly(records: seq<Receipt>, c: Requirement, identity: Source)
    ensures (forall p: seq<Receipt> :: multiset(p) == multiset(records) ==>
               RowOf(p, c, identity).date == RowOf(records, c, identity).date)
            <==> forall r: Receipt, q: Receipt ::
                   WorstLast(records, c, identity, r) && WorstLast(records, c, identity, q) ==> r.date == q.date
  {
    if forall r: Receipt, q: Receipt ::
         WorstLast(records, c, identity, r) && WorstLast(records, c, identity, q) ==> r.date == q.date {
      forall p: seq<Receipt> | multiset(p) == multiset(records)
        ensures RowOf(p, c, identity).date == RowOf(records, c, identity).date
      {
        OneDate(records, p, c, identity);
      }
    }
    if forall p: seq<Receipt> :: multiset(p) == multiset(records) ==>
         RowOf(p, c, identity).date == RowOf(records, c, identity).date {
      forall r: Receipt, q: Receipt | WorstLast(records, c, identity, r) && WorstLast(records, c, identity, q)
        ensures r.date == q.date
      {
        var p := ShowsDate(records, c, identity, r);
        var p' := ShowsDate(records, c, identity, q);
      }
    }
  }

  lemma OneDate(records: seq<Receipt>, p: seq<Receipt>, c: Requirement, identity: Source)
    requires multiset(p) == multiset(records)
    requires forall r: Receipt, q: Receipt ::
               WorstLast(records, c, identity, r) && WorstLast(records, c, identity, q) ==> r.date == q.date
    ensures RowOf(p, c, identity).date == RowOf(records, c, identity).date
  {
    SameReceipts(p, records, c, identity);
    if exists r: Receipt :: r in records && Matches(r, c, identity) {
      var l := RowDate(records, c, identity);
      var m := RowDate(p, c, identity);
      SameWorst(p, records, c, identity, m);
    } else {
      RowExactly(records, c, identity);
      RowExactly(p, c, identity);
    }
  }

  /** A failed check, started at `date`; the fingerprints do not matter. */
  function FailedCheck(date: int, digest: string, revision: string): Receipt
  {
    Record(
      false, date, Some(9), "desktop", "unit", Evaluation, "x-linux",
      Source(revision, digest, false, map[], map[]), Warm, digest, digest, Captured(digest),
      1, [], None, None, None, None, None, Failed, Some(Fixed(CommandFailed)))
  }

  /** Two acceptable receipts that finished together, whose order decides the date shown. */
  lemma DateDependsOnOrder(now: int, digest: string, revision: string)
    requires now >= 9 && IsDigest(digest) && IsRevision(revision)
    ensures var a, b := FailedCheck(1, digest, revision), FailedCheck(2, digest, revision);
            var c := Requirement("desktop", "unit", Evaluation, "x-linux", true);
            && AllValid([a, b], now) && ValidManifest([c])
            && RowOf([a, b], c, a.source).date == Some(1) && RowOf([b, a], c, a.source).date == Some(2)
  {
    var a, b := FailedCheck(1, digest, revision), FailedCheck(2, digest, revision);
    var c := Requirement("desktop", "unit", Evaluation, "x-linux", true);
    assert HasEnding("x-linux", "-linux") by {
      assert "x-linux"[1..] == "-linux";
    }
    assert ValidReceipt(a, now) && ValidReceipt(b, now);
    assert [c][0].required;
    FirstOfTwo(a, b, c);
    FirstOfTwo(b, a, c);
  }

  lemma FirstOfTwo(a: Receipt, b: Receipt, c: Requirement)
    requires Matches(a, c, a.source) && Matches(b, c, a.source) && !After(b, a)
    ensures LatestOf(Matching([a, b], c, a.source)) == Some(a)
  {
    assert [a, b][1..] == [b] && [b][1..] == [];
    assert Matching([b], c, a.source) == [b] + Matching([], c, a.source);
    assert Matching([a, b], c, a.source) == [a, b];
    FirstIsShown([a, b]);
  }

  /** A receipt that did not pass and finished no earlier than the rest uncovers its check. */
  lemma LateFailureUncovers(records: seq<Receipt>, r: Receipt, c: Requirement, identity: Source)
    requires Matches(r, c, identity) && r.status != Passed
    requires forall q: Receipt :: q in records && Matches(q, c, identity) ==> q.finished.value <= r.finished.value
    ensures !Covered(records + [r], c, identity)
    ensures RowOf(records + [r], c, identity).status.Latest? &&
            RowOf(records + [r], c, identity).status != Latest(Passed)
    ensures RowOf(records + [r], c, identity).finished == r.finished
  {
    assert FinishedLast(records + [r], c, identity, r);
    RowExactly(records + [r], c, identity);
    RowPassesExactly(records + [r], c, identity);
  }

  /** A report with such a receipt for a required check is not passed. */
  lemma LateFailureFailsReport(report: Report, checks: seq<Requirement>, i: nat, records: seq<Receipt>, r: Receipt,
      identity: Source)
    requires i < |checks| && checks[i].required && ReportsOn(report, checks, records + [r], identity)
    requires Matches(r, checks[i], identity) && r.status != Passed
    requires forall q: Receipt :: q in records && Matches(q, checks[i], identity) ==>
             q.finished.value <= r.finished.value
    ensures !report.passed
  {
    LateFailureUncovers(records, r, checks[i], identity);
    assert report.rows[i] == RowOf(records + [r], checks[i], identity);
  }

  /** A pass that finished later than everything else covers its check, whatever came before. */
  lemma LatePassCovers(records: seq<Receipt>, r: Receipt, c: Requirement, identity: Source)
    requires Matches(r, c, identity) && r.status == Passed
    requires forall q: Receipt :: q in records && Matches(q, c, identity) ==> q.finished.value < r.finished.value
    ensures Covered(records + [r], c, identity)
  {
    assert r in records + [r];
    forall q: Receipt | FinishedLast(records + [r], c, identity, q)
      ensures q == r
    {
      assert q in records + [r];
      assert r.finished.value <= q.finished.value;
    }
  }

  /** A receipt says nothing about any other check or source. */
  lemma OtherChecksUntouched(records: seq<Receipt>, r: Receipt, c: Requirement, identity: Source)
    requires !Matches(r, c, identity)
    ensures RowOf(records + [r], c, identity) == RowOf(records, c, identity)
  {
    MatchingSnoc(records, r, c, identity);
    var matching := Matching(records, c, identity);
    assert matching + [] == matching;
  }

  lemma {:induction false} MatchingSnoc(records: seq<Receipt>, r: Receipt, c: Requirement, identity: Source)
    ensures Matching(records + [r], c, identity) ==
            Matching(records, c, identity) + if Matches(r, c, identity) then [r] else []
  {
    if records != [] {
      assert (records + [r])[1..] == records[1..] + [r];
      MatchingSnoc(records[1..], r, c, identity);
    }
  }
}
