/**
 * Comparing two benchmark receipts: the candidate passes when neither its median time nor
 * its median memory exceeds the baseline's by more than the budget. Exact arithmetic.
 */
module EvidenceCompare {
  import opened Wrappers
  import opened EvidenceReceipts

  // ---- Medians ----

  predicate Ascending(s: seq<real>) { forall i, j :: 0 <= i < j < |s| ==> s[i] <= s[j] }

  function Insert(x: real, s: seq<real>): (r: seq<real>)
    ensures multiset(r) == multiset(s) + multiset{x}
    ensures |r| == |s| + 1
  {
    if s == [] || x <= s[0] then [x] + s
    else
      assert s == [s[0]] + s[1..];
      [s[0]] + Insert(x, s[1..])
  }

  function Sorted(s: seq<real>): (r: seq<real>)
    ensures multiset(r) == multiset(s)
    ensures |r| == |s|
  {
    if s == [] then []
    else
      assert s == [s[0]] + s[1..];
      Insert(s[0], Sorted(s[1..]))
  }

  /** The middle value, or the mean of the two in the middle. */
  function Middle(s: seq<real>): real
    requires s != []
  {
    var h := |s| / 2;
    if |s| % 2 == 1 then s[h] else (s[h - 1] + s[h]) / 2.0
  }

  function Median(s: seq<real>): real
    requires s != []
  {
    Middle(Sorted(s))
  }

  lemma Prepend(x: real, s: seq<real>)
    requires Ascending(s) && forall i :: 0 <= i < |s| ==> x <= s[i]
    ensures Ascending([x] + s)
  {
  }

  lemma InsertIsAbove(low: real, x: real, s: seq<real>)
    requires low <= x && forall i :: 0 <= i < |s| ==> low <= s[i]
    ensures forall i :: 0 <= i < |Insert(x, s)| ==> low <= Insert(x, s)[i]
  {
    var r := Insert(x, s);
    forall i | 0 <= i < |r|
      ensures low <= r[i]
    {
      assert r[i] in multiset(r);
      assert r[i] == x || r[i] in multiset(s);
    }
  }

  lemma {:induction false} InsertAscends(x: real, s: seq<real>)
    requires Ascending(s)
    ensures Ascending(Insert(x, s))
  {
    if s == [] {
    } else if x <= s[0] {
      Prepend(x, s);
    } else {
      InsertAscends(x, s[1..]);
      InsertIsAbove(s[0], x, s[1..]);
      Prepend(s[0], Insert(x, s[1..]));
    }
  }

  lemma {:induction false} SortedAscends(s: seq<real>)
    ensures Ascending(Sorted(s))
  {
    if s != [] {
      SortedAscends(s[1..]);
      InsertAscends(s[0], Sorted(s[1..]));
    }
  }

  lemma SameMembers(a: seq<real>, b: seq<real>, x: real)
    requires multiset(a) == multiset(b)
    ensures x in a <==> x in b
  {
    assert x in a <==> x in multiset(a);
    assert x in b <==> x in multiset(b);
  }

  lemma Drop<T>(s: seq<T>, i: nat)
    requires i < |s|
    ensures multiset(s) == multiset(s[..i] + s[i + 1..]) + multiset{s[i]}
  {
    assert s == s[..i] + [s[i]] + s[i + 1..];
  }

  lemma SameLength<T>(a: seq<T>, b: seq<T>)
    requires multiset(a) == multiset(b)
    ensures |a| == |b|
  {
    assert |multiset(a)| == |a| && |multiset(b)| == |b|;
  }

  lemma Cancel<T>(a: multiset<T>, b: multiset<T>, x: T)
    requires a + multiset{x} == b + multiset{x}
    ensures a == b
  {
    assert a == (a + multiset{x}) - multiset{x};
    assert b == (b + multiset{x}) - multiset{x};
  }

  lemma FirstIsLeast(a: seq<real>, x: real)
    requires Ascending(a) && x in a
    ensures a[0] <= x
  {
  }

  lemma SameFirst(a: seq<real>, b: seq<real>)
    requires Ascending(a) && Ascending(b) && multiset(a) == multiset(b) && a != [] && b != []
    ensures a[0] == b[0]
  {
    SameMembers(a, b, a[0]);
    SameMembers(a, b, b[0]);
    FirstIsLeast(a, b[0]);
    FirstIsLeast(b, a[0]);
  }

  lemma SameRest<T>(a: seq<T>, b: seq<T>, i: nat)
    requires multiset(a) == multiset(b) && a != [] && i < |b| && a[0] == b[i]
    ensures multiset(a[1..]) == multiset(b[..i] + b[i + 1..])
  {
    Drop(a, 0);
    Drop(b, i);
    assert a[..0] + a[1..] == a[1..];
    Cancel(multiset(a[1..]), multiset(b[..i] + b[i + 1..]), a[0]);
  }

  lemma SameTail<T>(a: seq<T>, b: seq<T>)
    requires multiset(a) == multiset(b) && a != [] && b != [] && a[0] == b[0]
    ensures multiset(a[1..]) == multiset(b[1..])
  {
    SameRest(a, b, 0);
    assert b[..0] + b[1..] == b[1..];
  }

  lemma Rejoin<T>(a: seq<T>, b: seq<T>)
    requires a != [] && b != [] && a[0] == b[0] && a[1..] == b[1..]
    ensures a == b
  {
    assert a == [a[0]] + a[1..] && b == [b[0]] + b[1..];
  }

  lemma {:induction false} AscendingIsUnique(a: seq<real>, b: seq<real>)
    requires Ascending(a) && Ascending(b) && multiset(a) == multiset(b)
    ensures a == b
  {
    SameLength(a, b);
    if a != [] {
      SameFirst(a, b);
      SameTail(a, b);
      AscendingIsUnique(a[1..], b[1..]);
      Rejoin(a, b);
    }
  }

  /** The order of the samples does not matter. */
  lemma MedianOfMultiset(a: seq<real>, b: seq<real>)
    requires a != [] && multiset(a) == multiset(b)
    ensures b != [] && Median(a) == Median(b)
  {
    SortedAscends(a);
    SortedAscends(b);
    AscendingIsUnique(Sorted(a), Sorted(b));
    SameLength(a, b);
  }

  function AtMost(s: seq<real>, t: real): nat
  {
    if s == [] then 0 else (if s[0] <= t then 1 else 0) + AtMost(s[1..], t)
  }

  lemma {:induction false} AtMostInsert(x: real, s: seq<real>, t: real)
    ensures AtMost(Insert(x, s), t) == AtMost(s, t) + if x <= t then 1 else 0
  {
    if s == [] || x <= s[0] {
      assert ([x] + s)[1..] == s;
    } else {
      AtMostInsert(x, s[1..], t);
      assert ([s[0]] + Insert(x, s[1..]))[1..] == Insert(x, s[1..]);
    }
  }

  lemma {:induction false} AtMostSorted(s: seq<real>, t: real)
    ensures AtMost(Sorted(s), t) == AtMost(s, t)
  {
    if s != [] {
      AtMostSorted(s[1..], t);
      AtMostInsert(s[0], Sorted(s[1..]), t);
    }
  }

  /** In ascending order the values up to `t` come first. */
  lemma {:induction false} RankAscending(s: seq<real>, t: real, j: nat)
    requires Ascending(s) && j < |s|
    ensures s[j] <= t <==> j < AtMost(s, t)
  {
    if s[0] <= t {
      if j > 0 {
        RankAscending(s[1..], t, j - 1);
      }
    } else {
      NoneAtMost(s, t);
      assert s[0] <= s[j];
    }
  }

  lemma {:induction false} NoneAtMost(s: seq<real>, t: real)
    requires forall i :: 0 <= i < |s| ==> s[i] > t
    ensures AtMost(s, t) == 0
  {
    if s != [] {
      NoneAtMost(s[1..], t);
    }
  }

  /** A sample's rank, without sorting: more than `j` of the values are at most `t`. */
  lemma Rank(s: seq<real>, t: real, j: nat)
    requires j < |s|
    ensures Sorted(s)[j] <= t <==> j < AtMost(s, t)
  {
    SortedAscends(s);
    AtMostSorted(s, t);
    RankAscending(Sorted(s), t, j);
  }

  lemma MiddleExactly(r: seq<real>, k: nat)
    ensures |r| == 2 * k + 1 ==> Middle(r) == r[k]
    ensures |r| == 2 * k + 2 ==> Middle(r) + Middle(r) == r[k] + r[k + 1]
  {
    assert |r| == 2 * k + 1 ==> |r| / 2 == k;
    assert |r| == 2 * k + 2 ==> |r| / 2 == k + 1;
  }

  /** The median of an odd or an even number of values, by their ranks. */
  lemma MedianExactly(s: seq<real>, k: nat, t: real)
    ensures |s| == 2 * k + 1 ==> (Median(s) <= t <==> AtMost(s, t) > k)
    ensures |s| == 2 * k + 2 ==> Median(s) + Median(s) == Sorted(s)[k] + Sorted(s)[k + 1]
  {
    var r := Sorted(s);
    MiddleExactly(r, k);
    if k < |s| {
      Rank(s, t, k);
    }
  }

  function Least(s: seq<real>): real
    requires s != []
  {
    if |s| == 1 || s[0] <= Least(s[1..]) then s[0] else Least(s[1..])
  }

  function Greatest(s: seq<real>): real
    requires s != []
  {
    if |s| == 1 || s[0] >= Greatest(s[1..]) then s[0] else Greatest(s[1..])
  }

  lemma {:induction false} RangeBounds(s: seq<real>)
    requires s != []
    ensures Least(s) in s && Greatest(s) in s
    ensures forall i :: 0 <= i < |s| ==> Least(s) <= s[i] <= Greatest(s)
  {
    if |s| > 1 {
      RangeBounds(s[1..]);
    }
  }

  lemma MedianWithinRange(s: seq<real>)
    requires s != []
    ensures Least(s) <= Median(s) <= Greatest(s)
  {
    RangeBounds(s);
    var r := Sorted(s);
    forall i | 0 <= i < |r|
      ensures Least(s) <= r[i] <= Greatest(s)
    {
      SameMembers(s, r, r[i]);
    }
  }

  // ---- Comparing ----

  datatype Metric = Metric(
    baselineMedian: real, candidateMedian: real,
    baselineLeast: real, baselineGreatest: real, candidateLeast: real, candidateGreatest: real,
    changePercent: real, withinBudget: bool, rangesOverlap: bool)

  datatype Comparison = Comparison(passed: bool, metrics: map<MetricName, Metric>)

  const MIN_TRIALS := 3

  /** What must hold before two receipts are compared at all. */
  predicate Comparable(b: Record, c: Record, budget: real, now: int)
  {
    && ValidReceipt(b, now) && ValidReceipt(c, now) && budget >= 0.0
    && (b.cache == Warm || b.cache == Cold)
    && b.configuration.Captured? && c.configuration.Captured?
    && b.target == c.target && b.check == c.check && b.phase == c.phase && b.system == c.system && b.cache == c.cache
    && b.command == c.command && b.environment == c.environment && b.configuration == c.configuration
    && b.status == Passed && c.status == Passed
    && |b.measurements| >= MIN_TRIALS && |c.measurements| >= MIN_TRIALS
  }

  /** The same workload: two receipts that differ only in when and where they were made, and in what was measured. */
  predicate SameWorkload(b: Record, c: Record)
  {
    b == c.(
      date := b.date, finished := b.finished, source := b.source,
      expectedRuns := b.expectedRuns, measurements := b.measurements,
      systemPath := b.systemPath, installable := b.installable, buildReceipt := b.buildReceipt,
      activeBefore := b.activeBefore, activeAfter := b.activeAfter, reason := b.reason)
  }

  /** Only acceptable passes of one workload in one known setting are compared. */
  lemma ComparableExactly(b: Record, c: Record, budget: real, now: int)
    ensures Comparable(b, c, budget, now) <==>
            && budget >= 0.0 && ValidReceipt(b, now) && ValidReceipt(c, now) && SameWorkload(b, c)
            && c.status == Passed && c.configuration.Captured? && c.cache != Mixed && c.cache != Unspecified
            && !(|b.measurements| < 3 || |c.measurements| < 3)
  {
  }

  datatype MetricName = ElapsedSeconds | PeakRssKib

  function Value(s: Sample, name: MetricName): real
  {
    if name == ElapsedSeconds then s.elapsed else s.peakRss
  }

  function Values(samples: seq<Sample>, name: MetricName): (s: seq<real>)
    ensures |s| == |samples|
  {
    seq(|samples|, i requires 0 <= i < |samples| => Value(samples[i], name))
  }

  lemma ValuesExactly(samples: seq<Sample>, i: nat)
    requires i < |samples|
    ensures Values(samples, ElapsedSeconds)[i] == samples[i].elapsed
    ensures Values(samples, PeakRssKib)[i] == samples[i].peakRss
  {
  }

  predicate AllPositive(s: seq<real>) { forall i :: 0 <= i < |s| ==> s[i] > 0.0 }

  lemma PositiveMedian(s: seq<real>)
    requires s != [] && AllPositive(s)
    ensures Median(s) > 0.0
  {
    RangeBounds(s);
    MedianWithinRange(s);
  }

  function Change(base: real, candidate: real): real
    requires base > 0.0
  {
    (candidate / base - 1.0) * 100.0
  }

  /** The change is a percentage of the baseline. */
  lemma ChangeOfBase(base: real, candidate: real)
    requires base > 0.0
    ensures Change(base, candidate) * base == 100.0 * (candidate - base)
  {
    var q := candidate / base;
    assert candidate == q * base;
    assert (q - 1.0) * 100.0 * base == 100.0 * (q * base - base);
  }

  /** The budget compared without dividing. */
  lemma ChangeWithin(base: real, candidate: real, budget: real)
    requires base > 0.0
    ensures Change(base, candidate) <= budget <==> Rule(base, candidate, budget)
  {
    var q := candidate / base;
    assert candidate == q * base;
    var limit := (100.0 + budget) / 100.0;
    assert Change(base, candidate) <= budget <==> q <= limit;
    if q <= limit {
      Scale(q, limit, base);
    } else {
      ScaleStrictly(limit, q, base);
    }
    assert 100.0 * (limit * base) == (100.0 + budget) * base;
  }

  lemma Scale(a: real, b: real, k: real)
    requires a <= b && k >= 0.0
    ensures a * k <= b * k
  {
    assert (b - a) * k >= 0.0;
  }

  lemma ScaleStrictly(a: real, b: real, k: real)
    requires a < b && k > 0.0
    ensures a * k < b * k
  {
    assert (b - a) * k > 0.0;
  }

  /** The rule in exact arithmetic: 100 candidates against 100 + budget baselines. */
  predicate Rule(base: real, candidate: real, budget: real)
  {
    100.0 * candidate <= (100.0 + budget) * base
  }

  predicate Within(left: seq<real>, right: seq<real>, budget: real)
    requires left != [] && right != []
  {
    Rule(Median(left), Median(right), budget)
  }

  ghost predicate IsRange(low: real, median: real, high: real, s: seq<real>)
  {
    low <= median <= high && low in s && high in s && forall i :: 0 <= i < |s| ==> low <= s[i] <= high
  }

  ghost predicate Meet(low: real, high: real, low': real, high': real)
  {
    exists t: real :: Between(low, t, high) && Between(low', t, high')
  }

  ghost predicate Measures(m: Metric, left: seq<real>, right: seq<real>, budget: real)
    requires left != [] && right != []
  {
    && m.baselineMedian == Median(left) && m.candidateMedian == Median(right)
    && IsRange(m.baselineLeast, m.baselineMedian, m.baselineGreatest, left)
    && IsRange(m.candidateLeast, m.candidateMedian, m.candidateGreatest, right)
    && (Median(left) > 0.0 ==> m.changePercent == Change(Median(left), Median(right)))
    && (m.withinBudget <==> Within(left, right, budget))
    && (m.rangesOverlap <==> Meet(m.baselineLeast, m.baselineGreatest, m.candidateLeast, m.candidateGreatest))
  }

  predicate Between(low: real, t: real, high: real) { low <= t <= high }

  predicate Overlap(low: real, high: real, low': real, high': real)
  {
    (if low >= low' then low else low') <= (if high <= high' then high else high')
  }

  lemma OverlapMeets(low: real, high: real, low': real, high': real)
    requires low <= high && low' <= high'
    ensures Overlap(low, high, low', high') <==> Meet(low, high, low', high')
  {
    var t := if low >= low' then low else low';
    if Overlap(low, high, low', high') {
      assert Between(low, t, high) && Between(low', t, high');
    }
  }

  lemma MeasuredRange(s: seq<real>)
    requires s != []
    ensures IsRange(Least(s), Median(s), Greatest(s), s)
  {
    RangeBounds(s);
    MedianWithinRange(s);
  }

  function Measured(left: seq<real>, right: seq<real>, budget: real): Metric
    requires left != [] && right != [] && Median(left) > 0.0
  {
    var change := Change(Median(left), Median(right));
    Metric(Median(left), Median(right), Least(left), Greatest(left), Least(right), Greatest(right), change,
           change <= budget, Overlap(Least(left), Greatest(left), Least(right), Greatest(right)))
  }

  lemma MeasuresItself(left: seq<real>, right: seq<real>, budget: real)
    requires left != [] && right != [] && Median(left) > 0.0
    ensures Measures(Measured(left, right, budget), left, right, budget)
  {
    ChangeWithin(Median(left), Median(right), budget);
    MeasuredRange(left);
    MeasuredRange(right);
    OverlapMeets(Least(left), Greatest(left), Least(right), Greatest(right));
  }

  predicate WithinBudget(b: Record, c: Record, budget: real)
    requires b.measurements != [] && c.measurements != []
  {
    forall name: MetricName :: Within(Values(b.measurements, name), Values(c.measurements, name), budget)
  }

  const NAMES := [ElapsedSeconds, PeakRssKib]

  ghost predicate MeasuresRecords(m: Metric, b: Record, c: Record, name: MetricName, budget: real)
  {
    && b.measurements != [] && c.measurements != []
    && Measures(m, Values(b.measurements, name), Values(c.measurements, name), budget)
  }

  method CompareMetric(b: Record, c: Record, name: MetricName, budget: real) returns (m: Metric)
    requires b.measurements != [] && c.measurements != [] && ValidSamples(b.measurements)
    ensures MeasuresRecords(m, b, c, name, budget)
    ensures m.withinBudget <==> Within(Values(b.measurements, name), Values(c.measurements, name), budget)
  {
    var left, right := Values(b.measurements, name), Values(c.measurements, name);
    assert forall j :: 0 <= j < |b.measurements| ==> ValidSample(b.measurements[j]);
    PositiveMedian(left);
    MeasuresItself(left, right, budget);
    m := Measured(left, right, budget);
  }

  /** The first `n` metrics are each described by `holds`, and `passed` tells whether they all are within budget. */
  ghost predicate Done(metrics: map<MetricName, Metric>, passed: bool, n: nat, holds: (MetricName, Metric) -> bool)
    requires n <= |NAMES|
  {
    && (forall j :: 0 <= j < n ==> NAMES[j] in metrics && holds(NAMES[j], metrics[NAMES[j]]))
    && (passed <==> forall j :: 0 <= j < n ==> metrics[NAMES[j]].withinBudget)
  }

  lemma OneMoreDone(metrics: map<MetricName, Metric>, passed: bool, n: nat, holds: (MetricName, Metric) -> bool,
      m: Metric)
    requires n < |NAMES| && Done(metrics, passed, n, holds) && holds(NAMES[n], m)
    ensures Done(metrics[NAMES[n] := m], passed && m.withinBudget, n + 1, holds)
  {
    var more := metrics[NAMES[n] := m];
    assert more[NAMES[n]] == m;
    assert forall j :: 0 <= j < n ==> more[NAMES[j]] == metrics[NAMES[j]];
  }

  /** Both metrics are described by `holds`, and the verdict is theirs together. */
  ghost predicate Complete(r: Comparison, holds: (MetricName, Metric) -> bool)
  {
    && (forall name: MetricName :: name in r.metrics && holds(name, r.metrics[name]))
    && (r.passed <==> forall name: MetricName :: r.metrics[name].withinBudget)
  }

  lemma AllDone(metrics: map<MetricName, Metric>, passed: bool, holds: (MetricName, Metric) -> bool)
    requires Done(metrics, passed, |NAMES|, holds)
    ensures Complete(Comparison(passed, metrics), holds)
  {
    assert NAMES[0] == ElapsedSeconds && NAMES[1] == PeakRssKib;
    assert passed <==> metrics[NAMES[0]].withinBudget && metrics[NAMES[1]].withinBudget;
    forall name: MetricName
      ensures name in metrics && holds(name, metrics[name]) && (passed ==> metrics[name].withinBudget)
    {
      match name
      case ElapsedSeconds => assert name == NAMES[0];
      case PeakRssKib => assert name == NAMES[1];
    }
  }

  ghost function Describes(b: Record, c: Record, budget: real): (MetricName, Metric) -> bool
  {
    (name, m) => MeasuresRecords(m, b, c, name, budget)
  }

  method CompareMetrics(b: Record, c: Record, budget: real) returns (r: Comparison)
    requires b.measurements != [] && c.measurements != [] && ValidSamples(b.measurements)
    ensures Complete(r, Describes(b, c, budget))
  {
    var metrics: map<MetricName, Metric>, passed := map[], true;
    ghost var holds := Describes(b, c, budget);
    for i := 0 to |NAMES|
      invariant Done(metrics, passed, i, holds)
    {
      var metric := CompareMetric(b, c, NAMES[i], budget);
      OneMoreDone(metrics, passed, i, holds, metric);
      passed := passed && metric.withinBudget;
      metrics := metrics[NAMES[i] := metric];
    }
    AllDone(metrics, passed, holds);
    return Comparison(passed, metrics);
  }

  lemma CompleteVerdict(r: Comparison, b: Record, c: Record, budget: real)
    requires b.measurements != [] && c.measurements != [] && Complete(r, Describes(b, c, budget))
    ensures r.passed <==> WithinBudget(b, c, budget)
  {
    forall name: MetricName
      ensures r.metrics[name].withinBudget <==>
              Within(Values(b.measurements, name), Values(c.measurements, name), budget)
    {
      assert Describes(b, c, budget)(name, r.metrics[name]);
      DescribedWithin(r.metrics[name], b, c, name, budget);
    }
  }

  lemma DescribedWithin(m: Metric, b: Record, c: Record, name: MetricName, budget: real)
    requires MeasuresRecords(m, b, c, name, budget)
    ensures m.withinBudget <==> Within(Values(b.measurements, name), Values(c.measurements, name), budget)
  {
  }

  lemma ComparableSamples(b: Record, c: Record, budget: real, now: int)
    requires Comparable(b, c, budget, now)
    ensures b.measurements != [] && c.measurements != [] && ValidSamples(b.measurements)
  {
  }

  /**
   * The comparison of two receipts; none when they cannot be compared. It passes exactly
   * when both metrics are within the budget.
   */
  method Compare(b: Record, c: Record, budget: real, now: int) returns (r: Option<Comparison>)
    ensures r.Some? <==> Comparable(b, c, budget, now)
    ensures r.Some? ==> b.measurements != [] && c.measurements != [] && (r.value.passed <==> WithinBudget(b, c, budget))
    ensures r.Some? ==> Complete(r.value, Describes(b, c, budget))
  {
    if !Comparable(b, c, budget, now) {
      return None;
    }
    ComparableSamples(b, c, budget, now);
    var comparison := CompareMetrics(b, c, budget);
    CompleteVerdict(comparison, b, c, budget);
    return Some(comparison);
  }

  // ---- What the verdict depends on ----

  lemma WithoutValue(b: seq<Sample>, i: nat, name: MetricName)
    requires i < |b|
    ensures multiset(Values(b, name)) == multiset(Values(b[..i] + b[i + 1..], name)) + multiset{Value(b[i], name)}
  {
    Drop(Values(b, name), i);
    assert Values(b, name)[..i] + Values(b, name)[i + 1..] == Values(b[..i] + b[i + 1..], name);
  }

  lemma SameValuesStep(a: seq<Sample>, b: seq<Sample>, i: nat, name: MetricName)
    requires a != [] && i < |b| && a[0] == b[i]
    requires multiset(Values(a[1..], name)) == multiset(Values(b[..i] + b[i + 1..], name))
    ensures multiset(Values(a, name)) == multiset(Values(b, name))
  {
    WithoutFirst(a, name);
    WithoutValue(b, i, name);
  }

  lemma WithoutFirst(a: seq<Sample>, name: MetricName)
    requires a != []
    ensures multiset(Values(a, name)) == multiset(Values(a[1..], name)) + multiset{Value(a[0], name)}
  {
    WithoutValue(a, 0, name);
    assert a[..0] + a[1..] == a[1..];
  }

  lemma Find<T>(s: seq<T>, x: T) returns (i: nat)
    requires x in multiset(s)
    ensures i < |s| && s[i] == x
  {
    i :| i < |s| && s[i] == x;
  }

  lemma {:induction false} SameValues(a: seq<Sample>, b: seq<Sample>, name: MetricName)
    requires multiset(a) == multiset(b)
    ensures multiset(Values(a, name)) == multiset(Values(b, name))
  {
    if a == [] {
      SameLength(a, b);
    } else {
      assert a[0] in multiset(a);
      var i := Find(b, a[0]);
      SameRest(a, b, i);
      SameValues(a[1..], b[..i] + b[i + 1..], name);
      SameValuesStep(a, b, i, name);
    }
  }

  lemma WithinOfMultisets(left: seq<real>, right: seq<real>, left': seq<real>, right': seq<real>, budget: real)
    requires left != [] && right != [] && multiset(left) == multiset(left') && multiset(right) == multiset(right')
    ensures left' != [] && right' != [] && (Within(left, right, budget) <==> Within(left', right', budget))
  {
    MedianOfMultiset(left, left');
    MedianOfMultiset(right, right');
  }

  /** The verdict depends only on the multisets of samples. */
  lemma VerdictOfMultisets(b: Record, c: Record, b': Record, c': Record, budget: real)
    requires b.measurements != [] && c.measurements != []
    requires multiset(b.measurements) == multiset(b'.measurements)
    requires multiset(c.measurements) == multiset(c'.measurements)
    ensures b'.measurements != [] && c'.measurements != []
    ensures WithinBudget(b, c, budget) <==> WithinBudget(b', c', budget)
  {
    SameLength(b.measurements, b'.measurements);
    SameLength(c.measurements, c'.measurements);
    forall name: MetricName
      ensures Within(Values(b.measurements, name), Values(c.measurements, name), budget)
              <==> Within(Values(b'.measurements, name), Values(c'.measurements, name), budget)
    {
      SameValues(b.measurements, b'.measurements, name);
      SameValues(c.measurements, c'.measurements, name);
      WithinOfMultisets(Values(b.measurements, name), Values(c.measurements, name), Values(b'.measurements, name),
                        Values(c'.measurements, name), budget);
    }
  }

  // ---- Paired samples ----

  function Allowed(base: real, budget: real): real { (100.0 + budget) / 100.0 * base }

  lemma AllowedGrows(a: real, b: real, budget: real)
    requires a <= b && budget >= 0.0
    ensures Allowed(a, budget) <= Allowed(b, budget)
  {
    Scale(a, b, (100.0 + budget) / 100.0);
  }

  /** Each candidate sample is within the budget of the baseline sample at its place. */
  predicate Paired(left: seq<real>, right: seq<real>, budget: real)
  {
    |left| == |right| && forall i :: 0 <= i < |left| ==> right[i] <= Allowed(left[i], budget)
  }

  lemma {:induction false} PairsCount(left: seq<real>, right: seq<real>, budget: real, t: real)
    requires Paired(left, right, budget) && budget >= 0.0
    ensures AtMost(left, t) <= AtMost(right, Allowed(t, budget))
  {
    if left != [] {
      PairsCount(left[1..], right[1..], budget, t);
      if left[0] <= t {
        AllowedGrows(left[0], t, budget);
      }
    }
  }

  lemma PairsSortedAt(left: seq<real>, right: seq<real>, budget: real, j: nat)
    requires Paired(left, right, budget) && budget >= 0.0 && j < |left|
    ensures Sorted(right)[j] <= Allowed(Sorted(left)[j], budget)
  {
    var t := Sorted(left)[j];
    Rank(left, t, j);
    PairsCount(left, right, budget, t);
    Rank(right, Allowed(t, budget), j);
  }

  /** Sorted apart, paired samples are still within the budget place by place. */
  lemma PairsSorted(left: seq<real>, right: seq<real>, budget: real)
    requires Paired(left, right, budget) && budget >= 0.0
    ensures Paired(Sorted(left), Sorted(right), budget)
  {
    forall j | 0 <= j < |left|
      ensures Sorted(right)[j] <= Allowed(Sorted(left)[j], budget)
    {
      PairsSortedAt(left, right, budget, j);
    }
  }

  lemma PairedMiddles(left: seq<real>, right: seq<real>, budget: real)
    requires left != [] && Paired(left, right, budget)
    ensures Middle(right) <= Allowed(Middle(left), budget)
  {
    var h := |left| / 2;
    if |left| % 2 == 0 {
      Halves(left[h - 1], left[h], right[h - 1], right[h], budget);
    }
  }

  lemma PairsWithin(left: seq<real>, right: seq<real>, budget: real)
    requires left != [] && Paired(left, right, budget) && budget >= 0.0
    ensures Within(left, right, budget)
  {
    PairsSorted(left, right, budget);
    PairedMiddles(Sorted(left), Sorted(right), budget);
    AllowedExactly(Median(left), Median(right), budget);
  }

  lemma Halves(a: real, b: real, c: real, d: real, budget: real)
    requires c <= Allowed(a, budget) && d <= Allowed(b, budget)
    ensures (c + d) / 2.0 <= Allowed((a + b) / 2.0, budget)
  {
    var k := (100.0 + budget) / 100.0;
    assert k * ((a + b) / 2.0) == (k * a + k * b) / 2.0;
  }

  lemma AllowedExactly(base: real, candidate: real, budget: real)
    ensures candidate <= Allowed(base, budget) <==> Rule(base, candidate, budget)
  {
    assert 100.0 * Allowed(base, budget) == (100.0 + budget) * base;
  }

  /** Two samplings of one metric that can be paired within the budget. */
  ghost predicate Pairable(left: seq<real>, right: seq<real>, budget: real)
  {
    exists l, r :: multiset(l) == multiset(left) && multiset(r) == multiset(right) && Paired(l, r, budget)
  }

  lemma PairablePasses(left: seq<real>, right: seq<real>, budget: real)
    requires left != [] && Pairable(left, right, budget) && budget >= 0.0
    ensures right != [] && Within(left, right, budget)
  {
    var l, r :| multiset(l) == multiset(left) && multiset(r) == multiset(right) && Paired(l, r, budget);
    SameLength(l, left);
    SameLength(r, right);
    PairsWithin(l, r, budget);
    WithinOfMultisets(l, r, left, right, budget);
  }

  /**
   * If the samples of each metric can be paired so that every candidate sample is within
   * the budget of its partner, the candidate is within the budget.
   */
  lemma PairedSamplesPass(b: Record, c: Record, budget: real)
    requires b.measurements != [] && budget >= 0.0
    requires forall name: MetricName :: Pairable(Values(b.measurements, name), Values(c.measurements, name), budget)
    ensures c.measurements != [] && WithinBudget(b, c, budget)
  {
    PairablePasses(Values(b.measurements, ElapsedSeconds), Values(c.measurements, ElapsedSeconds), budget);
    forall name: MetricName
      ensures Within(Values(b.measurements, name), Values(c.measurements, name), budget)
    {
      PairablePasses(Values(b.measurements, name), Values(c.measurements, name), budget);
    }
  }
}
