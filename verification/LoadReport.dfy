/**
 What the load generator computes from its samples: the totals of a scenario and its percentiles.
 Fractions are exact rationals; floating-point rounding is not modelled.
 */
module LoadReport {
  import opened WorkerPool
  import OrderedSets

  const EXPECTED_STATUS_CODE := 200

  // ---------------------------------------------------------------- the collector loop

  datatype ScenarioResult = ScenarioResult(requests: nat, succeeded: nat, failed: nat, responseBytes: int, firstError: string)

  predicate Succeeds(s: Sample) { s.error.None? && s.status == 200 }

  /** What a failed sample is reported as; `describe` formats an unexpected status. */
  function Complaint(s: Sample, describe: int -> string): string {
    if s.error.Some? then s.error.value else describe(s.status)
  }

  function Successes(samples: seq<Sample>): seq<Sample> {
    if samples == [] then []
    else Successes(samples[..|samples| - 1]) + if Succeeds(samples[|samples| - 1]) then [samples[|samples| - 1]] else []
  }

  function Durations(samples: seq<Sample>): seq<int> {
    seq(|samples|, i requires 0 <= i < |samples| => samples[i].duration)
  }

  function TotalBytes(samples: seq<Sample>): int {
    if samples == [] then 0 else TotalBytes(samples[..|samples| - 1]) + samples[|samples| - 1].bytes
  }

  ghost predicate SpeaksFirst(samples: seq<Sample>, describe: int -> string, message: string, i: nat)
    requires i < |samples|
  {
    && !Succeeds(samples[i]) && Complaint(samples[i], describe) == message
    && (forall j :: 0 <= j < i && !Succeeds(samples[j]) ==> Complaint(samples[j], describe) == "")
  }

  /** The first failure whose message is not empty speaks for the scenario. */
  ghost predicate IsFirstError(samples: seq<Sample>, describe: int -> string, message: string) {
    if message == "" then forall i :: 0 <= i < |samples| && !Succeeds(samples[i]) ==> Complaint(samples[i], describe) == ""
    else exists i :: 0 <= i < |samples| && SpeaksFirst(samples, describe, message, i)
  }

  lemma SuccessesSnoc(samples: seq<Sample>, s: Sample)
    ensures Successes(samples + [s]) == if Succeeds(s) then Successes(samples) + [s] else Successes(samples)
    ensures TotalBytes(Successes(samples) + [s]) == TotalBytes(Successes(samples)) + s.bytes
    ensures Durations(Successes(samples) + [s]) == Durations(Successes(samples)) + [s.duration]
  {
  }

  lemma FirstErrorSnoc(samples: seq<Sample>, s: Sample, describe: int -> string, message: string)
    requires IsFirstError(samples, describe, message)
    ensures IsFirstError(samples + [s], describe, if !Succeeds(s) && message == "" then Complaint(s, describe) else message)
  {
    var all := samples + [s];
    if message != "" {
      var i :| 0 <= i < |samples| && SpeaksFirst(samples, describe, message, i);
      assert SpeaksFirst(all, describe, message, i);
    } else if !Succeeds(s) && Complaint(s, describe) != "" {
      assert SpeaksFirst(all, describe, Complaint(s, describe), |samples|);
    }
  }

  lemma NothingCollected(describe: int -> string)
    ensures Successes([]) == [] && TotalBytes([]) == 0 && Durations([]) == [] && IsFirstError([], describe, "")
  {
  }

  /** The collector of executeScenario: one pass over the samples in the order they arrive. */
  method Collect(samples: seq<Sample>, requests: nat, describe: int -> string)
    returns (result: ScenarioResult, durations: seq<int>)
    ensures result.requests == requests
    ensures result.succeeded == |Successes(samples)| && result.succeeded + result.failed == |samples|
    ensures result.responseBytes == TotalBytes(Successes(samples))
    ensures durations == Durations(Successes(samples))
    ensures IsFirstError(samples, describe, result.firstError)
  {
    hide Successes, Durations, TotalBytes, IsFirstError;
    NothingCollected(describe);
    result := ScenarioResult(requests, 0, 0, 0, "");
    durations := [];
    for i := 0 to |samples|
      invariant result.requests == requests
      invariant result.succeeded == |Successes(samples[..i])| && result.succeeded + result.failed == i
      invariant result.responseBytes == TotalBytes(Successes(samples[..i]))
      invariant durations == Durations(Successes(samples[..i]))
      invariant IsFirstError(samples[..i], describe, result.firstError)
    {
      var s := samples[i];
      assert samples[..i + 1] == samples[..i] + [s];
      SuccessesSnoc(samples[..i], s);
      FirstErrorSnoc(samples[..i], s, describe, result.firstError);
      if s.error.Some? || s.status != EXPECTED_STATUS_CODE {
        result := result.(failed := result.failed + 1);
        if result.firstError == "" {
          if s.error.Some? {
            result := result.(firstError := s.error.value);
          } else {
            result := result.(firstError := describe(s.status));
          }
        }
        continue;
      }
      result := result.(succeeded := result.succeeded + 1, responseBytes := result.responseBytes + s.bytes);
      durations := durations + [s.duration];
    }
    assert samples[..|samples|] == samples;
  }

  function Samples(answers: seq<Answer>): seq<Sample> {
    seq(|answers|, i requires 0 <= i < |answers| => answers[i].sample)
  }

  // ---------------------------------------------------------------- order of arrival

  /** The sum of a weight over the samples. */
  function Tally(samples: seq<Sample>, weight: Sample -> int): int {
    if samples == [] then 0 else Tally(samples[..|samples| - 1], weight) + weight(samples[|samples| - 1])
  }

  const UNIT: Sample -> int := (s: Sample) => if Succeeds(s) then 1 else 0

  const BYTES: Sample -> int := (s: Sample) => if Succeeds(s) then s.bytes else 0

  function Lasting(d: int): Sample -> int { (s: Sample) => if Succeeds(s) && s.duration == d then 1 else 0 }

  /** The three totals of a scenario as sums over all its samples. */
  lemma {:induction false} TotalsAreTallies(samples: seq<Sample>, d: int)
    ensures |Successes(samples)| == Tally(samples, UNIT)
    ensures TotalBytes(Successes(samples)) == Tally(samples, BYTES)
    ensures multiset(Durations(Successes(samples)))[d] == Tally(samples, Lasting(d))
  {
    if samples == [] {
      assert Durations([]) == [];
    } else {
      var front, last := samples[..|samples| - 1], samples[|samples| - 1];
      TotalsAreTallies(front, d);
      SuccessesSnoc(front, last);
      assert samples == front + [last];
      hide Successes, TotalBytes, Durations, Succeeds;
    }
  }

  lemma {:induction false} TallyOfConcat(a: seq<Sample>, b: seq<Sample>, weight: Sample -> int)
    ensures Tally(a + b, weight) == Tally(a, weight) + Tally(b, weight)
  {
    if b == [] {
      assert a + b == a;
    } else {
      TallyOfConcat(a, b[..|b| - 1], weight);
      assert (a + b)[..|a + b| - 1] == a + b[..|b| - 1];
    }
  }

  lemma TallyOfInsert(left: seq<Sample>, s: Sample, right: seq<Sample>, weight: Sample -> int)
    ensures Tally(left + [s] + right, weight) == Tally(left + right, weight) + weight(s)
  {
    TallyOfConcat(left, right, weight);
    TallyOfConcat(left + [s], right, weight);
    assert (left + [s])[..|left|] == left;
  }

  lemma TakeOut<T>(b: seq<T>, s: T) returns (left: seq<T>, right: seq<T>)
    requires s in b
    ensures b == left + [s] + right && multiset(b) == multiset(left + right) + multiset{s}
  {
    var i :| 0 <= i < |b| && b[i] == s;
    left, right := b[..i], b[i + 1..];
    assert b == left + [s] + right;
  }

  lemma {:induction false} TallyIgnoresOrder(a: seq<Sample>, b: seq<Sample>, weight: Sample -> int)
    requires multiset(a) == multiset(b)
    ensures Tally(a, weight) == Tally(b, weight)
  {
    if a == [] {
      SameSize(a, b);
    } else {
      var front, last := a[..|a| - 1], a[|a| - 1];
      assert a == front + [last];
      assert last in multiset(a);
      var left, right := TakeOut(b, last);
      SameRest(front, last, left + right, a, b);
      TallyIgnoresOrder(front, left + right, weight);
      TallyOfInsert(left, last, right, weight);
    }
  }

  lemma SameSize<T>(a: seq<T>, b: seq<T>)
    requires multiset(a) == multiset(b)
    ensures |a| == |b|
  {
    assert |multiset(a)| == |a| && |multiset(b)| == |b|;
  }

  lemma SameRest<T>(front: seq<T>, last: T, rest: seq<T>, a: seq<T>, b: seq<T>)
    requires a == front + [last] && multiset(b) == multiset(rest) + multiset{last} && multiset(a) == multiset(b)
    ensures multiset(front) == multiset(rest)
  {
    assert multiset(front) == multiset(a) - multiset{last};
    assert multiset(rest) == multiset(b) - multiset{last};
  }

  /** What a scenario reports of its successes depends on the samples, not on the order in which they reach the collector. */
  lemma TotalsIgnoreOrder(a: seq<Sample>, b: seq<Sample>)
    requires multiset(a) == multiset(b)
    ensures |Successes(a)| == |Successes(b)|
    ensures TotalBytes(Successes(a)) == TotalBytes(Successes(b))
    ensures multiset(Durations(Successes(a))) == multiset(Durations(Successes(b)))
  {
    TallyIgnoresOrder(a, b, UNIT);
    TallyIgnoresOrder(a, b, BYTES);
    forall d ensures multiset(Durations(Successes(a)))[d] == multiset(Durations(Successes(b)))[d]
      && |Successes(a)| == |Successes(b)| && TotalBytes(Successes(a)) == TotalBytes(Successes(b))
    {
      TallyIgnoresOrder(a, b, Lasting(d));
      TotalsAreTallies(a, d);
      TotalsAreTallies(b, d);
    }
    TotalsAreTallies(a, 0);
    TotalsAreTallies(b, 0);
  }

  lemma {:induction false} SamplesIgnoreOrder(a: seq<Answer>, b: seq<Answer>)
    requires multiset(a) == multiset(b)
    ensures multiset(Samples(a)) == multiset(Samples(b))
  {
    if a == [] {
      SameSize(a, b);
    } else {
      var front, last := a[..|a| - 1], a[|a| - 1];
      assert a == front + [last];
      assert last in multiset(a);
      var left, right := TakeOut(b, last);
      SameRest(front, last, left + right, a, b);
      SamplesIgnoreOrder(front, left + right);
      assert Samples(a) == Samples(front) + [last.sample];
      assert Samples(b) == Samples(left) + [last.sample] + Samples(right);
      assert Samples(left + right) == Samples(left) + Samples(right);
    }
  }

  // ---------------------------------------------------------------- percentiles

  /** The least integer not below n / d. */
  function CeilingOfQuotient(n: nat, d: nat): int
    requires d > 0
  {
    (n + d - 1) / d
  }

  lemma CeilingBounds(n: nat, d: nat)
    requires d > 0
    ensures (CeilingOfQuotient(n, d) - 1) * d < n <= CeilingOfQuotient(n, d) * d
  {
  }

  lemma MulStrict(a: int, b: int, d: nat)
    requires d > 0 && a * d < b * d
    ensures a < b
  {
  }

  lemma MulMono(a: int, b: int, d: nat)
    requires a <= b
    ensures a * d <= b * d
  {
  }

  /** The position `percentile` reads for the fraction p / q of n samples. */
  function PercentileIndex(n: nat, p: nat, q: nat): int
    requires q > 0
  {
    CeilingOfQuotient(n * p, q) - 1
  }

  /** For every non-empty sample list and fraction in (0, 1] the position exists. */
  lemma PercentileInBounds(n: nat, p: nat, q: nat)
    requires n > 0 && 0 < p <= q
    ensures 0 <= PercentileIndex(n, p, q) < n
  {
    var k := PercentileIndex(n, p, q);
    CeilingBounds(n * p, q);
    MulMono(p, q, n);
    assert k * q < n * q by { assert p * n == n * p && q * n == n * q; }
    MulStrict(k, n, q);
    assert 0 < n * p;
    MulStrict(0, k + 1, q);
  }

  function Percentile(sorted: seq<int>, p: nat, q: nat): int
    requires sorted != [] && 0 < p <= q
  {
    PercentileInBounds(|sorted|, p, q);
    sorted[PercentileIndex(|sorted|, p, q)]
  }

  function AtMost(s: seq<int>, v: int): set<int> {
    set i | 0 <= i < |s| && s[i] <= v
  }

  function Positions(n: nat): (s: set<int>)
    ensures |s| == n && forall i :: i in s <==> 0 <= i < n
  {
    if n == 0 then {} else Positions(n - 1) + {n - 1}
  }

  lemma AtMostBounds(sorted: seq<int>, k: nat)
    requires k < |sorted| && OrderedSets.Sorted(sorted)
    ensures k + 1 <= |AtMost(sorted, sorted[k])|
    ensures forall v :: v < sorted[k] ==> |AtMost(sorted, v)| <= k
  {
    forall i | 0 <= i <= k ensures sorted[i] <= sorted[k] { SortedAt(sorted, i, k); }
    OrderedSets.SubsetSize(Positions(k + 1), AtMost(sorted, sorted[k]));
    forall v | v < sorted[k] ensures |AtMost(sorted, v)| <= k { AtMostBelow(sorted, k, v); }
  }

  lemma SortedAt(sorted: seq<int>, i: nat, j: nat)
    requires i <= j < |sorted| && OrderedSets.Sorted(sorted)
    ensures sorted[i] <= sorted[j]
  {
  }

  lemma AtMostBelow(sorted: seq<int>, k: nat, v: int)
    requires k < |sorted| && OrderedSets.Sorted(sorted) && v < sorted[k]
    ensures |AtMost(sorted, v)| <= k
  {
    forall i | k <= i < |sorted| ensures v < sorted[i] { SortedAt(sorted, k, i); }
    OrderedSets.SubsetSize(AtMost(sorted, v), Positions(k));
  }

  /**
   The percentile is the least sample with at least the fraction p / q of all samples at or below
   it: it has that many, and no smaller value does.
   */
  lemma PercentileIsLeast(sorted: seq<int>, p: nat, q: nat)
    requires sorted != [] && 0 < p <= q && OrderedSets.Sorted(sorted)
    ensures Percentile(sorted, p, q) in sorted
    ensures |AtMost(sorted, Percentile(sorted, p, q))| * q >= |sorted| * p
    ensures forall v :: v < Percentile(sorted, p, q) ==> |AtMost(sorted, v)| * q < |sorted| * p
  {
    hide CeilingOfQuotient, AtMost;
    var k := PercentileIndex(|sorted|, p, q);
    PercentileInBounds(|sorted|, p, q);
    CeilingBounds(|sorted| * p, q);
    AtMostBounds(sorted, k);
    var r := sorted[k];
    MulMono(k + 1, |AtMost(sorted, r)|, q);
    forall v | v < r ensures |AtMost(sorted, v)| * q < |sorted| * p {
      MulMono(|AtMost(sorted, v)|, k, q);
    }
  }

  /** Percentiles are monotone in the fraction. */
  lemma PercentilesAscend(sorted: seq<int>, p1: nat, q1: nat, p2: nat, q2: nat)
    requires sorted != [] && OrderedSets.Sorted(sorted) && 0 < p1 <= q1 && 0 < p2 <= q2
    requires p1 * q2 <= p2 * q1
    ensures Percentile(sorted, p1, q1) <= Percentile(sorted, p2, q2)
  {
    var n := |sorted|;
    var k1, k2 := PercentileIndex(n, p1, q1), PercentileIndex(n, p2, q2);
    PercentileInBounds(n, p1, q1);
    PercentileInBounds(n, p2, q2);
    CeilingBounds(n * p1, q1);
    CeilingBounds(n * p2, q2);
    FractionsAscend(n, p1, q1, p2, q2, k1, k2 + 1);
    assert sorted[k1] <= sorted[k2];
  }

  lemma FractionsAscend(n: nat, p1: nat, q1: nat, p2: nat, q2: nat, a: int, b: int)
    requires q1 > 0 && q2 > 0 && p1 * q2 <= p2 * q1
    requires a * q1 < n * p1 && n * p2 <= b * q2
    ensures a < b
  {
  }

  /** p50 <= p95 <= p99 on every scenario's durations. */
  lemma ReportedPercentilesAscend(durations: seq<int>)
    requires durations != []
    ensures var sorted := OrderedSets.SortBag(durations);
      |sorted| == |durations| && Percentile(sorted, 50, 100) <= Percentile(sorted, 95, 100) <= Percentile(sorted, 99, 100)
  {
    var sorted := OrderedSets.SortBag(durations);
    OrderedSets.SortBagSorted(durations);
    assert |multiset(sorted)| == |multiset(durations)|;
    PercentilesAscend(sorted, 50, 100, 95, 100);
    PercentilesAscend(sorted, 95, 100, 99, 100);
  }

  // ---------------------------------------------------------------- a whole scenario

  /** The samples that a schedule's workers measured. */
  ghost function MeasuredSamples(requests: nat, concurrency: nat, schedule: seq<Action>): seq<Sample> {
    Samples(Performed(Initial(requests, concurrency), schedule))
  }

  lemma ReceivedAreMeasured(requests: nat, concurrency: nat, schedule: seq<Action>, p: Pool)
    requires concurrency > 0 && Reaches(Initial(requests, concurrency), schedule, p) && p.collected
    ensures multiset(Samples(p.received)) == multiset(MeasuredSamples(requests, concurrency, schedule))
  {
    CollectedIsPerformed(requests, concurrency, schedule, p);
    SamplesIgnoreOrder(p.received, Performed(Initial(requests, concurrency), schedule));
  }

  ghost predicate ReportedPercentile(durations: seq<int>, percent: nat, value: int)
    requires 0 < percent <= 100
  {
    if durations == [] then value == 0
    else
      assert |multiset(OrderedSets.SortBag(durations))| == |multiset(durations)|;
      value == Percentile(OrderedSets.SortBag(durations), percent, 100)
  }

  lemma SameDurationsSamePercentiles(a: seq<int>, b: seq<int>)
    requires multiset(a) == multiset(b)
    ensures OrderedSets.SortBag(a) == OrderedSets.SortBag(b) && (a == [] <==> b == [])
  {
    SameSize(a, b);
    OrderedSets.SortBagSorted(a);
    OrderedSets.SortBagSorted(b);
    OrderedSets.SortedUnique(OrderedSets.SortBag(a), OrderedSets.SortBag(b));
  }

  /**
   A whole scenario. Under every schedule of feeder, workers and collector the report is one of the
   samples that were measured: each request is accounted for once, successes and bytes are those
   of the measured samples, and the percentiles those of the measured durations.
   */
  method Report(requests: nat, concurrency: nat, ghost schedule: seq<Action>, p: Pool, describe: int -> string)
    returns (result: ScenarioResult, p50: int, p95: int, p99: int)
    requires concurrency > 0 && Reaches(Initial(requests, concurrency), schedule, p) && p.collected
    ensures result.succeeded + result.failed == result.requests == requests
    ensures var measured := MeasuredSamples(requests, concurrency, schedule);
      && result.succeeded == |Successes(measured)|
      && result.responseBytes == TotalBytes(Successes(measured))
      && ReportedPercentile(Durations(Successes(measured)), 50, p50)
      && ReportedPercentile(Durations(Successes(measured)), 95, p95)
      && ReportedPercentile(Durations(Successes(measured)), 99, p99)
  {
    OneAnswerPerJob(requests, concurrency, schedule, p);
    ReceivedAreMeasured(requests, concurrency, schedule, p);
    var durations;
    result, durations := Collect(Samples(p.received), requests, describe);
    ghost var measured := MeasuredSamples(requests, concurrency, schedule);
    TotalsIgnoreOrder(Samples(p.received), measured);
    SameDurationsSamePercentiles(durations, Durations(Successes(measured)));
    hide Successes, TotalBytes, Durations, Samples, MeasuredSamples, Reaches, Initial;
    p50, p95, p99 := 0, 0, 0;
    if |durations| > 0 {
      var sorted := OrderedSets.SortBag(durations);
      assert |multiset(sorted)| == |multiset(durations)|;
      p50, p95, p99 := Percentile(sorted, 50, 100), Percentile(sorted, 95, 100), Percentile(sorted, 99, 100);
    }
  }
}
