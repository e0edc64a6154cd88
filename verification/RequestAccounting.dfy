/**
 What the router's wrapper reports about a request: one gauge up, one gauge down, one counter, and
 the status that really reached the wire, also when the handler panics. The classes follow one
 request; the state machine interleaves any number of them.
 */
module RequestAccounting {
  import opened Wrappers

  const STATUS_OK := 200
  const STATUS_INTERNAL_SERVER_ERROR := 500

  // ---------------------------------------------------------------- one request

  /** What a handler does with its response writer; `breaks` says the underlying writer panics in that call. */
  datatype Op =
    | WriteHeader(status: int, breaks: bool)
    | Write(breaks: bool)
    | Panic

  /** The status the handler itself sends first, if any. */
  function FirstHeader(script: seq<Op>): Option<int> {
    if script == [] then None
    else
      match script[0]
      case WriteHeader(status, _) => Some(status)
      case Write(_) => Some(STATUS_OK)
      case Panic => None
  }

  /** A call reaches the underlying writer unless it repeats a header. */
  predicate Breaks(op: Op, wroteHeader: bool) {
    match op
    case WriteHeader(_, breaks) => breaks && !wroteHeader
    case Write(breaks) => breaks
    case Panic => true
  }

  predicate PanicsFrom(script: seq<Op>, wroteHeader: bool) {
    script != [] && (Breaks(script[0], wroteHeader) || PanicsFrom(script[1..], true))
  }

  predicate Panics(script: seq<Op>) { PanicsFrom(script, false) }

  /** The status the wrapper records. */
  function RecordedStatus(script: seq<Op>): int {
    match FirstHeader(script)
    case Some(status) => status
    case None => if Panics(script) then STATUS_INTERNAL_SERVER_ERROR else STATUS_OK
  }

  /**
   Where the problem response of the recovery panics, if anywhere: before its header, in it, or in
   its body. The standard library's own writer does not panic for this status; one that wraps it may.
   */
  datatype Recovery = Recovery(breaksBefore: bool, headerBreaks: bool, bodyBreaks: bool)

  /** Responder.Problem as the response writer sees it. */
  function Problem(r: Recovery): seq<Op> {
    (if r.breaksBefore then [Panic] else [])
    + [WriteHeader(STATUS_INTERNAL_SERVER_ERROR, r.headerBreaks), Write(r.bodyBreaks)]
  }

  /** The problem response is attempted and itself panics. */
  predicate Abandons(script: seq<Op>, recovery: Recovery) {
    Panics(script) && FirstHeader(script).None? && (recovery.breaksBefore || recovery.headerBreaks || recovery.bodyBreaks)
  }

  lemma ProblemMeaning(r: Recovery)
    ensures FirstHeader(Problem(r)) == if r.breaksBefore then None else Some(STATUS_INTERNAL_SERVER_ERROR)
    ensures Panics(Problem(r)) <==> r.breaksBefore || r.headerBreaks || r.bodyBreaks
  {
    var respond := [WriteHeader(STATUS_INTERNAL_SERVER_ERROR, r.headerBreaks), Write(r.bodyBreaks)];
    var body: seq<Op> := [Write(r.bodyBreaks)];
    assert respond[1..] == body && body[1..] == [];
    assert PanicsFrom(body, true) <==> r.bodyBreaks;
    assert Problem(r) == if r.breaksBefore then [Panic] + respond else respond;
  }

  /** statusWriter over an underlying writer, of which the statuses it is given are kept. */
  class StatusWriter {
    var status: int
    var wroteHeader: bool
    var passed: seq<int>

    ghost predicate Valid()
      reads this
    {
      if wroteHeader then passed == [status] else passed == [] && status == STATUS_OK
    }

    constructor ()
      ensures Valid() && !wroteHeader
    {
      status, wroteHeader, passed := STATUS_OK, false, [];
    }

    method WriteHeader(code: int, breaks: bool) returns (panicked: bool)
      requires Valid()
      modifies this
      ensures Valid() && wroteHeader && panicked == (breaks && !old(wroteHeader))
      ensures passed == if old(wroteHeader) then old(passed) else [code]
    {
      if wroteHeader {
        return false;
      }
      status := code;
      wroteHeader := true;
      passed := passed + [code];
      panicked := breaks;
    }

    method Write(breaks: bool) returns (panicked: bool)
      requires Valid()
      modifies this
      ensures Valid() && wroteHeader && panicked == breaks
      ensures passed == if old(wroteHeader) then old(passed) else [STATUS_OK]
    {
      if !wroteHeader {
        panicked := WriteHeader(STATUS_OK, false);
      }
      panicked := breaks;
    }
  }

  /** A counter or gauge vector after adding to one label. */
  function Added<K>(values: map<K, int>, key: K, amount: int): map<K, int> {
    values[key := (if key in values then values[key] else 0) + amount]
  }

  function ValueOf<K>(values: map<K, int>, key: K): int {
    if key in values then values[key] else 0
  }

  /** The labels of requests_total. */
  datatype Labels = Labels(route: string, verb: string, status: int)

  class Metrics {
    const enabled: bool
    var inFlight: map<string, int>
    var requests: map<Labels, int>
    var durations: map<Labels, int>   // how many durations each histogram has observed

    constructor (enabled: bool)
      ensures this.enabled == enabled && inFlight == map[] && requests == map[] && durations == map[]
    {
      this.enabled := enabled;
      inFlight, requests, durations := map[], map[], map[];
    }

    method RequestStarted(route: string)
      modifies this
      ensures inFlight == (if enabled then Added(old(inFlight), route, 1) else old(inFlight))
      ensures requests == old(requests) && durations == old(durations)
    {
      if enabled {
        inFlight := Added(inFlight, route, 1);
      }
    }

    method RequestFinished(route: string, verb: string, status: int)
      modifies this
      ensures inFlight == if enabled then Added(old(inFlight), route, -1) else old(inFlight)
      ensures requests == if enabled then Added(old(requests), Labels(route, verb, status), 1) else old(requests)
      ensures durations == if enabled then Added(old(durations), Labels(route, verb, status), 1) else old(durations)
    {
      if !enabled {
        return;
      }
      inFlight := Added(inFlight, route, -1);
      requests := Added(requests, Labels(route, verb, status), 1);
      durations := Added(durations, Labels(route, verb, status), 1);
    }
  }

  /** Runs the handler until it returns or panics. */
  method RunHandler(writer: StatusWriter, script: seq<Op>) returns (panicked: bool)
    requires writer.Valid() && !writer.wroteHeader
    modifies writer
    ensures writer.Valid() && panicked == Panics(script)
    ensures writer.passed == match FirstHeader(script) case Some(status) => [status] case None => []
  {
    panicked := false;
    for n := 0 to |script|
      invariant writer.Valid() && !panicked
      invariant writer.wroteHeader <==> n > 0
      invariant writer.passed == if n == 0 then [] else match FirstHeader(script) case Some(status) => [status] case None => []
      invariant n > 0 ==> FirstHeader(script).Some?
      invariant Panics(script) == PanicsFrom(script[n..], n > 0)
    {
      assert script[n..][0] == script[n] && script[n..][1..] == script[n + 1..];
      match script[n] {
        case WriteHeader(status, breaks) => panicked := writer.WriteHeader(status, breaks);
        case Write(breaks) => panicked := writer.Write(breaks);
        case Panic => panicked := true;
      }
      if panicked {
        return;
      }
    }
  }

  /**
   The wrapped handler with its deferred recovery. The request is counted once, and its duration
   observed once, with the first status given to the underlying writer, or 200 when there was none,
   whether it returns or panics before or after its headers. It goes uncounted, and its gauge stays
   up, exactly when the handler panics before its headers and the problem response panics as well.
   */
  method Wrap(metrics: Metrics, route: string, verb: string, script: seq<Op>, recovery: Recovery) returns (writer: StatusWriter, finished: bool)
    modifies metrics
    ensures fresh(writer) && finished == !Abandons(script, recovery)
    ensures finished ==> writer.passed == [RecordedStatus(script)] || (writer.passed == [] && RecordedStatus(script) == STATUS_OK)
    ensures !finished ==> writer.passed == if recovery.breaksBefore then [] else [STATUS_INTERNAL_SERVER_ERROR]
    ensures var started := if metrics.enabled then Added(old(metrics.inFlight), route, 1) else old(metrics.inFlight);
      metrics.inFlight == if metrics.enabled && finished then Added(started, route, -1) else started
    ensures metrics.requests ==
      if metrics.enabled && finished then Added(old(metrics.requests), Labels(route, verb, RecordedStatus(script)), 1)
      else old(metrics.requests)
    ensures metrics.durations ==
      if metrics.enabled && finished then Added(old(metrics.durations), Labels(route, verb, RecordedStatus(script)), 1)
      else old(metrics.durations)
  {
    hide PanicsFrom;
    metrics.RequestStarted(route);
    writer := new StatusWriter();
    var panicked := RunHandler(writer, script);
    if panicked && !writer.wroteHeader {
      ProblemMeaning(recovery);
      var broke := RunHandler(writer, Problem(recovery));
      if broke {
        return writer, false;
      }
    }
    metrics.RequestFinished(route, verb, writer.status);
    finished := true;
  }

  // ---------------------------------------------------------------- concurrent requests

  /** A request lowers its gauge, counts itself and observes its duration in three separate steps. */
  datatype Phase = Running | Lowered | Counted | Done | Lost

  datatype Request = Request(route: string, verb: string, script: seq<Op>, recovery: Recovery, phase: Phase)

  datatype Ledger = Ledger(requests: map<nat, Request>, inFlight: map<string, int>, counts: map<Labels, int>, durations: map<Labels, int>)

  const EMPTY_LEDGER := Ledger(map[], map[], map[], map[])

  datatype Action =
    | Start(id: nat, route: string, verb: string, script: seq<Op>, recovery: Recovery)
    | Lower(id: nat)     // inFlight.Dec()
    | Count(id: nat)     // requests.Inc()
    | Observe(id: nat)   // duration.Observe()
    | Lose(id: nat)

  predicate InPhase(l: Ledger, id: nat, phase: Phase) { id in l.requests && l.requests[id].phase == phase }

  predicate Enabled(l: Ledger, a: Action) {
    match a
    case Start(id, _, _, _, _) => id !in l.requests
    case Lower(id) => InPhase(l, id, Running) && !Abandons(l.requests[id].script, l.requests[id].recovery)
    case Count(id) => InPhase(l, id, Lowered)
    case Observe(id) => InPhase(l, id, Counted)
    case Lose(id) => InPhase(l, id, Running) && Abandons(l.requests[id].script, l.requests[id].recovery)
  }

  function LabelsOf(r: Request): Labels {
    Labels(r.route, r.verb, RecordedStatus(r.script))
  }

  /** One request alone, step by step, leaves the metrics as `Wrap` leaves them. */
  lemma AloneIsWrap(l: Ledger, id: nat, route: string, verb: string, script: seq<Op>, recovery: Recovery)
    requires id !in l.requests && !Abandons(script, recovery)
    ensures var started := Start(id, route, verb, script, recovery);
      && Enabled(l, started) && Enabled(Apply(l, started), Lower(id))
      && var lowered := Apply(Apply(l, started), Lower(id));
      && Enabled(lowered, Count(id)) && Enabled(Apply(lowered, Count(id)), Observe(id))
      && var end := Apply(Apply(lowered, Count(id)), Observe(id));
      && end.inFlight == Added(Added(l.inFlight, route, 1), route, -1)
      && end.counts == Added(l.counts, Labels(route, verb, RecordedStatus(script)), 1)
      && end.durations == Added(l.durations, Labels(route, verb, RecordedStatus(script)), 1)
  {
  }

  function Moved(l: Ledger, id: nat, phase: Phase): map<nat, Request>
    requires id in l.requests
  {
    l.requests[id := l.requests[id].(phase := phase)]
  }

  /** With metrics enabled. */
  function Apply(l: Ledger, a: Action): Ledger
    requires Enabled(l, a)
  {
    match a
    case Start(id, route, verb, script, recovery) =>
      l.(requests := l.requests[id := Request(route, verb, script, recovery, Running)], inFlight := Added(l.inFlight, route, 1))
    case Lower(id) => l.(requests := Moved(l, id, Lowered), inFlight := Added(l.inFlight, l.requests[id].route, -1))
    case Count(id) => l.(requests := Moved(l, id, Counted), counts := Added(l.counts, LabelsOf(l.requests[id]), 1))
    case Observe(id) => l.(requests := Moved(l, id, Done), durations := Added(l.durations, LabelsOf(l.requests[id]), 1))
    case Lose(id) => l.(requests := Moved(l, id, Lost))
  }

  ghost predicate Reaches(l: Ledger, schedule: seq<Action>, m: Ledger)
    decreases |schedule|
  {
    if schedule == [] then l == m
    else Enabled(l, schedule[0]) && Reaches(Apply(l, schedule[0]), schedule[1..], m)
  }

  /** The requests of a route that have started. */
  function StartedOn(l: Ledger, route: string): set<nat> {
    set id | id in l.requests && l.requests[id].route == route
  }

  /** Those that have lowered their gauge again. */
  function LoweredOn(l: Ledger, route: string): set<nat> {
    set id | id in l.requests && l.requests[id].route == route && !l.requests[id].phase.Running? && !l.requests[id].phase.Lost?
  }

  /** Those that are not counted. */
  function UncountedOn(l: Ledger, route: string): set<nat> {
    set id | id in l.requests && l.requests[id].route == route && !l.requests[id].phase.Counted? && !l.requests[id].phase.Done?
  }

  /** The request is reported under its route and method, with the status its client was sent. */
  predicate Labelled(r: Request, labels: Labels) {
    && r.route == labels.route && r.verb == labels.verb
    && labels.status ==
      match FirstHeader(r.script)
      case Some(status) => status
      case None => if Panics(r.script) then 500 else 200
  }

  lemma LabelledMeaning(r: Request, labels: Labels)
    ensures Labelled(r, labels) <==> LabelsOf(r) == labels
  {
  }

  /** The requests counted with these labels. */
  function CountedAs(l: Ledger, labels: Labels): set<nat> {
    set id | id in l.requests && (l.requests[id].phase.Counted? || l.requests[id].phase.Done?) && Labelled(l.requests[id], labels)
  }

  /** Those whose duration is observed. */
  function ObservedAs(l: Ledger, labels: Labels): set<nat> {
    set id | id in l.requests && l.requests[id].phase.Done? && Labelled(l.requests[id], labels)
  }

  ghost predicate Balanced(l: Ledger) {
    && (forall route :: ValueOf(l.inFlight, route) == |StartedOn(l, route)| - |LoweredOn(l, route)|)
    && (forall labels :: ValueOf(l.counts, labels) == |CountedAs(l, labels)|)
    && (forall labels :: ValueOf(l.durations, labels) == |ObservedAs(l, labels)|)
  }

  lemma StepStarted(l: Ledger, a: Action, route: string)
    requires Enabled(l, a)
    ensures StartedOn(Apply(l, a), route) == if a.Start? && a.route == route then StartedOn(l, route) + {a.id} else StartedOn(l, route)
  {
    hide Added, LabelsOf, Abandons;
  }

  lemma StepLowered(l: Ledger, a: Action, route: string)
    requires Enabled(l, a)
    ensures LoweredOn(Apply(l, a), route) ==
      if a.Lower? && l.requests[a.id].route == route then LoweredOn(l, route) + {a.id} else LoweredOn(l, route)
  {
    hide Added, LabelsOf, Abandons;
  }

  lemma StepCounted(l: Ledger, a: Action, labels: Labels)
    requires Enabled(l, a)
    ensures CountedAs(Apply(l, a), labels) ==
      if a.Count? && LabelsOf(l.requests[a.id]) == labels then CountedAs(l, labels) + {a.id} else CountedAs(l, labels)
  {
    forall r: Request ensures Labelled(r, labels) <==> LabelsOf(r) == labels { LabelledMeaning(r, labels); }
    hide Added, RecordedStatus, Abandons, Labelled;
  }

  lemma StepObserved(l: Ledger, a: Action, labels: Labels)
    requires Enabled(l, a)
    ensures ObservedAs(Apply(l, a), labels) ==
      if a.Observe? && LabelsOf(l.requests[a.id]) == labels then ObservedAs(l, labels) + {a.id} else ObservedAs(l, labels)
  {
    forall r: Request ensures Labelled(r, labels) <==> LabelsOf(r) == labels { LabelledMeaning(r, labels); }
    hide Added, RecordedStatus, Abandons, Labelled;
  }

  lemma AddedValue<K>(values: map<K, int>, key: K, amount: int, other: K)
    ensures ValueOf(Added(values, key, amount), other) == ValueOf(values, other) + if key == other then amount else 0
  {
  }

  lemma StepGauge(l: Ledger, a: Action, route: string)
    requires Enabled(l, a)
    ensures var m := Apply(l, a);
      ValueOf(m.inFlight, route) - |StartedOn(m, route)| + |LoweredOn(m, route)| == ValueOf(l.inFlight, route) - |StartedOn(l, route)| + |LoweredOn(l, route)|
  {
    StepStarted(l, a, route);
    StepLowered(l, a, route);
    assert a.id !in l.requests ==> a.id !in StartedOn(l, route);
    assert a.Lower? ==> a.id !in LoweredOn(l, route);
    AddedValue(l.inFlight, if a.Start? then a.route else if a.Lower? then l.requests[a.id].route else "", if a.Start? then 1 else -1, route);
    hide Abandons, LabelsOf, StartedOn, LoweredOn, Moved, Added, ValueOf;
  }

  lemma StepCounts(l: Ledger, a: Action, labels: Labels)
    requires Enabled(l, a)
    ensures ValueOf(Apply(l, a).counts, labels) - |CountedAs(Apply(l, a), labels)| == ValueOf(l.counts, labels) - |CountedAs(l, labels)|
  {
    StepCounted(l, a, labels);
    assert a.Count? ==> a.id !in CountedAs(l, labels);
    hide Abandons, LabelsOf, CountedAs, Moved;
  }

  lemma StepDurations(l: Ledger, a: Action, labels: Labels)
    requires Enabled(l, a)
    ensures ValueOf(Apply(l, a).durations, labels) - |ObservedAs(Apply(l, a), labels)| == ValueOf(l.durations, labels) - |ObservedAs(l, labels)|
  {
    StepObserved(l, a, labels);
    assert a.Observe? ==> a.id !in ObservedAs(l, labels);
    hide Abandons, LabelsOf, ObservedAs, Moved;
  }

  lemma {:induction false} RunKeepsBalance(l: Ledger, schedule: seq<Action>, m: Ledger)
    requires Balanced(l) && Reaches(l, schedule, m)
    ensures Balanced(m)
    decreases |schedule|
  {
    hide Enabled, Apply, ValueOf, StartedOn, LoweredOn, CountedAs, ObservedAs;
    if schedule != [] {
      var a := schedule[0];
      var next := Apply(l, a);
      forall route ensures ValueOf(next.inFlight, route) == |StartedOn(next, route)| - |LoweredOn(next, route)| {
        StepGauge(l, a, route);
      }
      forall labels ensures ValueOf(next.counts, labels) == |CountedAs(next, labels)| && ValueOf(next.durations, labels) == |ObservedAs(next, labels)| {
        StepCounts(l, a, labels);
        StepDurations(l, a, labels);
      }
      RunKeepsBalance(next, schedule[1..], m);
    }
  }

  lemma LoweredWereStarted(l: Ledger, route: string)
    ensures StartedOn(l, route) == LoweredOn(l, route) + (StartedOn(l, route) - LoweredOn(l, route))
    ensures |LoweredOn(l, route)| <= |StartedOn(l, route)|
    ensures |StartedOn(l, route)| - |LoweredOn(l, route)| == |StartedOn(l, route) - LoweredOn(l, route)|
  {
  }

  /**
   Over any interleaving, the gauge of a route is the number of its requests started minus those
   that have lowered it again, never negative; each counter is the number of requests counted
   with those labels, each histogram the number observed, which never runs ahead of the counter.
   Where no request of the route stands between lowering and counting, the gauge is the number
   started and not counted; in between it is smaller.
   */
  lemma LedgerIsExact(schedule: seq<Action>, l: Ledger, route: string, labels: Labels)
    requires Reaches(EMPTY_LEDGER, schedule, l)
    ensures ValueOf(l.inFlight, route) == |StartedOn(l, route)| - |LoweredOn(l, route)| >= 0
    ensures ValueOf(l.counts, labels) == |CountedAs(l, labels)|
    ensures ValueOf(l.durations, labels) == |ObservedAs(l, labels)| <= ValueOf(l.counts, labels)
    ensures ValueOf(l.inFlight, route) <= |UncountedOn(l, route)|
    ensures ValueOf(l.inFlight, route) == |UncountedOn(l, route)| <==>
      forall id :: id in l.requests && l.requests[id].route == route ==> !l.requests[id].phase.Lowered?
  {
    EmptyIsBalanced();
    RunKeepsBalance(EMPTY_LEDGER, schedule, l);
    LoweredWereStarted(l, route);
    SubsetSize(ObservedAs(l, labels), CountedAs(l, labels));
    GapMeaning(l, route);
  }

  lemma EmptyIsBalanced()
    ensures Balanced(EMPTY_LEDGER)
  {
    forall r ensures StartedOn(EMPTY_LEDGER, r) == {} && LoweredOn(EMPTY_LEDGER, r) == {} {}
    forall k ensures CountedAs(EMPTY_LEDGER, k) == {} && ObservedAs(EMPTY_LEDGER, k) == {} {}
  }

  lemma SubsetSize(a: set<nat>, b: set<nat>)
    requires a <= b
    ensures |a| <= |b| && (|a| == |b| <==> a == b)
  {
    assert b == a + (b - a);
    assert |b| == |a| + |b - a|;
    assert |b - a| == 0 <==> b - a == {};
  }

  /** The requests still holding the gauge up are uncounted, and all uncounted ones unless one stands in the gap. */
  lemma GapMeaning(l: Ledger, route: string)
    ensures var up := StartedOn(l, route) - LoweredOn(l, route);
      && |up| <= |UncountedOn(l, route)|
      && (|up| == |UncountedOn(l, route)| <==>
          forall id :: id in l.requests && l.requests[id].route == route ==> !l.requests[id].phase.Lowered?)
  {
    var up := StartedOn(l, route) - LoweredOn(l, route);
    var uncounted := UncountedOn(l, route);
    assert up <= uncounted;
    SubsetSize(up, uncounted);
    forall id ensures id in uncounted - up <==> id in l.requests && l.requests[id].route == route && l.requests[id].phase.Lowered? {
      if id in l.requests { assert id in up <==> id in StartedOn(l, route) && id !in LoweredOn(l, route); }
    }
    assert up == uncounted <==> uncounted - up == {};
  }

  /** When every request is done or lost, a route's gauge reads zero exactly if none of its requests was lost. */
  lemma GaugeAtRest(schedule: seq<Action>, l: Ledger, route: string)
    requires Reaches(EMPTY_LEDGER, schedule, l)
    requires forall id :: id in l.requests ==> l.requests[id].phase.Done? || l.requests[id].phase.Lost?
    ensures ValueOf(l.inFlight, route) == 0 <==>
      forall id :: id in l.requests && l.requests[id].route == route ==> l.requests[id].phase.Done?
  {
    hide ValueOf, StartedOn, LoweredOn, UncountedOn, CountedAs, ObservedAs, Reaches;
    LedgerIsExact(schedule, l, route, Labels("", "", 0));
    LoweredWereStarted(l, route);
    LostHoldUp(l, route);
  }

  lemma LostHoldUp(l: Ledger, route: string)
    requires forall id :: id in l.requests ==> l.requests[id].phase.Done? || l.requests[id].phase.Lost?
    ensures |StartedOn(l, route) - LoweredOn(l, route)| == 0 <==>
      forall id :: id in l.requests && l.requests[id].route == route ==> l.requests[id].phase.Done?
  {
    var up := StartedOn(l, route) - LoweredOn(l, route);
    assert |up| == 0 <==> up == {};
    assert forall id :: id in up <==> id in l.requests && l.requests[id].route == route && l.requests[id].phase.Lost?;
  }
}
