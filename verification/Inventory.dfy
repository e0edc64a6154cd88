/**
 The load generator's two gates: its scenarios must cover every public data operation of the
 OpenAPI document, and its results must not regress against a baseline. Maps are visited in any
 order, as Go does.
 */
module Inventory {
  import opened Wrappers
  import opened Collation

  const SYSTEM_TAG := "system"

  datatype Operation = Operation(operationID: string, tags: seq<string>)

  datatype Scenario = Scenario(name: string, operationID: string, path: string)

  /** Paths of the document with their GET operation, if any. */
  type Document = map<string, Option<Operation>>

  datatype InventoryError =
    | NoOperationID(route: string)
    | UnknownOperation(scenario: Scenario)
    | WrongRoute(scenario: Scenario, route: string)
    | Uncovered(operationIDs: seq<string>)

  /** A route the scenarios have to represent. */
  predicate IsData(document: Document, route: string) {
    route in document && document[route].Some? && "system" !in document[route].value.tags
  }

  function IDOf(document: Document, route: string): string
    requires IsData(document, route)
  {
    document[route].value.operationID
  }

  ghost predicate UniqueIDs(document: Document) {
    forall a, b :: IsData(document, a) && IsData(document, b) && IDOf(document, a) == IDOf(document, b) ==> a == b
  }

  ghost predicate Represents(document: Document, s: Scenario) {
    IsData(document, s.path) && IDOf(document, s.path) == s.operationID
  }

  ghost predicate Covers(tests: seq<Scenario>, operationID: string) {
    exists i :: 0 <= i < |tests| && tests[i].operationID == operationID
  }

  /** What the gate is for. */
  ghost predicate Complete(document: Document, tests: seq<Scenario>) {
    && (forall route :: IsData(document, route) ==> IDOf(document, route) != "" && Covers(tests, IDOf(document, route)))
    && (forall i :: 0 <= i < |tests| ==> Represents(document, tests[i]))
  }

  /** Data operation IDs that no scenario names. */
  ghost predicate IsUncovered(document: Document, tests: seq<Scenario>, id: string) {
    !Covers(tests, id) && exists route :: IsData(document, route) && IDOf(document, route) == id
  }

  /** `operations` indexes the data operations of the visited routes. */
  ghost predicate Indexes(document: Document, visited: set<string>, operations: map<string, string>) {
    && (forall route :: route in visited && IsData(document, route) ==> IDOf(document, route) != "" && IDOf(document, route) in operations)
    && (forall id :: id in operations ==> operations[id] in visited && IsData(document, operations[id]) && IDOf(document, operations[id]) == id)
  }

  method IndexOperations(document: Document) returns (operations: map<string, string>, err: Option<InventoryError>)
    ensures err.None? ==> Indexes(document, document.Keys, operations)
    ensures err.Some? ==> exists route :: IsData(document, route) && IDOf(document, route) == "" && err.value == NoOperationID(route)
  {
    operations := map[];
    err := None;
    var remaining := document.Keys;
    while remaining != {}
      invariant remaining <= document.Keys
      invariant Indexes(document, document.Keys - remaining, operations)
      decreases |remaining|
    {
      var route :| route in remaining;
      remaining := remaining - {route};
      if document[route].None? || SYSTEM_TAG in document[route].value.tags {
        continue;
      }
      var id := document[route].value.operationID;
      if id == "" {
        return operations, Some(NoOperationID(route));
      }
      operations := operations[id := route];
    }
    assert document.Keys - remaining == document.Keys;
  }

  /** Scenario i is the first that names no indexed operation or another route, and the error says which. */
  ghost predicate FirstMismatch(operations: map<string, string>, tests: seq<Scenario>, i: nat, err: InventoryError)
    requires i < |tests|
  {
    && (forall j :: 0 <= j < i ==> tests[j].operationID in operations && operations[tests[j].operationID] == tests[j].path)
    && if tests[i].operationID !in operations then err == UnknownOperation(tests[i])
       else operations[tests[i].operationID] != tests[i].path && err == WrongRoute(tests[i], operations[tests[i].operationID])
  }

  method MatchScenarios(operations: map<string, string>, tests: seq<Scenario>) returns (covered: set<string>, err: Option<InventoryError>)
    ensures err.None? <==> forall i :: 0 <= i < |tests| ==> tests[i].operationID in operations && operations[tests[i].operationID] == tests[i].path
    ensures err.None? ==> forall id :: id in covered <==> Covers(tests, id)
    ensures err.Some? ==> exists i :: 0 <= i < |tests| && FirstMismatch(operations, tests, i, err.value)
  {
    covered := {};
    err := None;
    for n := 0 to |tests|
      invariant err.None?
      invariant forall i :: 0 <= i < n ==> tests[i].operationID in operations && operations[tests[i].operationID] == tests[i].path
      invariant forall id :: id in covered <==> exists i :: 0 <= i < n && tests[i].operationID == id
    {
      var test := tests[n];
      if test.operationID !in operations {
        assert FirstMismatch(operations, tests, n, UnknownOperation(test));
        return covered, Some(UnknownOperation(test));
      }
      if operations[test.operationID] != test.path {
        assert FirstMismatch(operations, tests, n, WrongRoute(test, operations[test.operationID]));
        return covered, Some(WrongRoute(test, operations[test.operationID]));
      }
      covered := covered + {test.operationID};
    }
  }

  method MissingOperations(operations: map<string, string>, covered: set<string>) returns (missing: seq<string>)
    ensures forall id :: id in missing <==> id in operations && id !in covered
    ensures forall i, j :: 0 <= i < j < |missing| ==> missing[i] != missing[j]
  {
    missing := [];
    var remaining := operations.Keys;
    while remaining != {}
      invariant remaining <= operations.Keys
      invariant forall id :: id in missing <==> id in operations && id !in covered && id !in remaining
      invariant forall i, j :: 0 <= i < j < |missing| ==> missing[i] != missing[j]
      decreases |remaining|
    {
      var id :| id in remaining;
      remaining := remaining - {id};
      if id !in covered {
        missing := missing + [id];
      }
    }
  }

  /**
   validateInventory on a decoded document. Success always means completeness; with unique
   operation IDs completeness also means success, whatever order the maps are visited in; and a
   report of missing operations lists exactly the uncovered ones, in order.
   */
  method ValidateInventory(document: Document, tests: seq<Scenario>, le: Order) returns (err: Option<InventoryError>)
    requires TotalOrder(le)
    ensures err.None? ==> Complete(document, tests)
    ensures UniqueIDs(document) && Complete(document, tests) ==> err.None?
    ensures err.Some? && err.value.Uncovered? ==>
      && StrictlyOrdered(le, err.value.operationIDs)
      && forall id :: id in err.value.operationIDs <==> IsUncovered(document, tests, id)
  {
    var operations, covered;
    operations, err := IndexOperations(document);
    if err.Some? {
      return;
    }
    covered, err := MatchScenarios(operations, tests);
    if err.Some? {
      SuccessNeedsMatch(document, tests, operations);
      return;
    }
    var missing := MissingOperations(operations, covered);
    SortTextsOrdered(le, missing);
    MissingMeaning(document, tests, operations, missing);
    if |missing| > 0 {
      assert missing[0] in missing;
      return Some(Uncovered(SortTexts(le, missing)));
    }
  }

  lemma SuccessNeedsMatch(document: Document, tests: seq<Scenario>, operations: map<string, string>)
    requires Indexes(document, document.Keys, operations)
    ensures UniqueIDs(document) && Complete(document, tests) ==>
      forall i :: 0 <= i < |tests| ==> tests[i].operationID in operations && operations[tests[i].operationID] == tests[i].path
  {
  }

  lemma MissingMeaning(document: Document, tests: seq<Scenario>, operations: map<string, string>, missing: seq<string>)
    requires Indexes(document, document.Keys, operations)
    requires forall i :: 0 <= i < |tests| ==> tests[i].operationID in operations && operations[tests[i].operationID] == tests[i].path
    requires forall id :: id in missing <==> id in operations && !Covers(tests, id)
    ensures forall id :: id in missing <==> IsUncovered(document, tests, id)
    ensures missing == [] <==> Complete(document, tests)
  {
    forall id ensures id in missing <==> IsUncovered(document, tests, id) {
      if id in operations { assert IsData(document, operations[id]); }
    }
    if missing == [] {
      forall route | IsData(document, route) ensures Covers(tests, IDOf(document, route)) {
        assert IDOf(document, route) !in missing;
      }
    } else {
      var id := missing[0];
      assert id in missing;
      var route := operations[id];
      assert IsData(document, route) && IDOf(document, route) == id;
    }
  }

  // ---------------------------------------------------------------- the regression gate

  datatype Conditions = Conditions(requests: int, warmup: int, concurrency: int, artistRows: int, labelRows: int, masterRows: int, releaseRows: int)

  datatype Measured = Measured(name: string, p99: real)

  datatype Measurements = Measurements(conditions: Conditions, results: seq<Measured>)

  datatype BaselineError =
    | ConditionsDiffer
    | MissingScenario(name: string)
    | InvalidBaseline(name: string)
    | Regressed(names: seq<string>)

  /** The baseline entry a scenario is compared with: the last one of that name. */
  ghost predicate BaselineFor(results: seq<Measured>, name: string, p99: real) {
    exists i :: 0 <= i < |results| && results[i] == Measured(name, p99)
      && forall j :: i < j < |results| ==> results[j].name != name
  }

  /** Slower than the baseline grown by the relative limit, and slower by more than the absolute one. */
  predicate Regresses(before: real, now: real, limitPercent: real, minimum: real) {
    now > before + before * limitPercent / 100.0 && now > before + minimum
  }

  /** The change in percent, as the gate computes it, exceeds the limit exactly beyond the grown baseline. */
  lemma ChangeExceeds(before: real, now: real, limitPercent: real)
    requires before > 0.0
    ensures (now / before - 1.0) * 100.0 > limitPercent <==> now > before + before * limitPercent / 100.0
  {
    var ratio := now / before;
    assert ratio * before == now;
    var grown := 1.0 + limitPercent / 100.0;
    assert (ratio - 1.0) * 100.0 > limitPercent <==> ratio > grown;
    assert before * grown == before + before * limitPercent / 100.0;
    if ratio > grown { assert (ratio - grown) * before > 0.0; }
    if ratio <= grown { assert (grown - ratio) * before >= 0.0; }
  }

  method IndexBaseline(results: seq<Measured>) returns (byName: map<string, real>)
    ensures forall name, p99 :: (name in byName && byName[name] == p99) <==> BaselineFor(results, name, p99)
  {
    byName := map[];
    for n := 0 to |results|
      invariant forall name, p99 :: (name in byName && byName[name] == p99) <==> BaselineFor(results[..n], name, p99)
    {
      BaselineSnoc(results[..n], results[n]);
      assert results[..n + 1] == results[..n] + [results[n]];
      byName := byName[results[n].name := results[n].p99];
    }
    assert results[..|results|] == results;
  }

  lemma LaterEntryWins(results: seq<Measured>, last: Measured, name: string, p99: real)
    ensures BaselineFor(results + [last], name, p99) <==>
      if name == last.name then p99 == last.p99 else BaselineFor(results, name, p99)
  {
    var all := results + [last];
    assert all[|results|] == last;
    if BaselineFor(all, name, p99) {
      var i :| 0 <= i < |all| && all[i] == Measured(name, p99) && forall j :: i < j < |all| ==> all[j].name != name;
      if name != last.name {
        assert results[i] == Measured(name, p99);
        assert forall j :: i < j < |results| ==> results[j] == all[j];
      }
    }
    if name != last.name && BaselineFor(results, name, p99) {
      var i :| 0 <= i < |results| && results[i] == Measured(name, p99) && forall j :: i < j < |results| ==> results[j].name != name;
      assert all[i] == Measured(name, p99);
    }
  }

  lemma BaselineSnoc(results: seq<Measured>, last: Measured)
    ensures forall name, p99 :: BaselineFor(results + [last], name, p99) <==>
      if name == last.name then p99 == last.p99 else BaselineFor(results, name, p99)
  {
    forall name, p99 ensures BaselineFor(results + [last], name, p99) <==>
      if name == last.name then p99 == last.p99 else BaselineFor(results, name, p99)
    {
      LaterEntryWins(results, last, name, p99);
    }
  }

  ghost predicate Comparable(baseline: Measurements, name: string) {
    exists p99 :: BaselineFor(baseline.results, name, p99) && p99 > 0.0
  }

  ghost predicate Slower(baseline: Measurements, m: Measured, limitPercent: real, minimum: real) {
    exists p99 :: BaselineFor(baseline.results, m.name, p99) && p99 > 0.0 && Regresses(p99, m.p99, limitPercent, minimum)
  }

  lemma OneBaseline(baseline: Measurements, m: Measured, before: real, limitPercent: real, minimum: real)
    requires BaselineFor(baseline.results, m.name, before) && before > 0.0
    ensures Comparable(baseline, m.name)
    ensures Slower(baseline, m, limitPercent, minimum) <==>
      m.p99 > before + before * limitPercent / 100.0 && m.p99 - before > minimum
  {
    forall p99 | BaselineFor(baseline.results, m.name, p99) ensures p99 == before { BaselineUnique(baseline.results, m.name, p99, before); }
  }

  lemma BaselineUnique(results: seq<Measured>, name: string, a: real, b: real)
    requires BaselineFor(results, name, a) && BaselineFor(results, name, b)
    ensures a == b
  {
    var i :| 0 <= i < |results| && results[i] == Measured(name, a) && forall k :: i < k < |results| ==> results[k].name != name;
    var j :| 0 <= j < |results| && results[j] == Measured(name, b) && forall k :: j < k < |results| ==> results[k].name != name;
    assert !(i < j) && !(j < i);
  }

  /** The names of the slower scenarios, in order. */
  ghost function SlowerNames(baseline: Measurements, results: seq<Measured>, limitPercent: real, minimum: real): seq<string> {
    if results == [] then []
    else
      var last := results[|results| - 1];
      SlowerNames(baseline, results[..|results| - 1], limitPercent, minimum)
      + if Slower(baseline, last, limitPercent, minimum) then [last.name] else []
  }

  lemma {:induction false} NoneSlower(baseline: Measurements, results: seq<Measured>, limitPercent: real, minimum: real)
    ensures SlowerNames(baseline, results, limitPercent, minimum) == [] <==>
      forall i :: 0 <= i < |results| ==> !Slower(baseline, results[i], limitPercent, minimum)
  {
    if results != [] { NoneSlower(baseline, results[..|results| - 1], limitPercent, minimum); }
  }

  lemma EmptyNames(baseline: Measurements, limitPercent: real, minimum: real)
    ensures SlowerNames(baseline, [], limitPercent, minimum) == []
  {
  }

  lemma SlowerSnoc(baseline: Measurements, results: seq<Measured>, n: nat, limitPercent: real, minimum: real)
    requires n < |results|
    ensures SlowerNames(baseline, results[..n + 1], limitPercent, minimum) ==
      SlowerNames(baseline, results[..n], limitPercent, minimum)
      + if Slower(baseline, results[n], limitPercent, minimum) then [results[n].name] else []
  {
    assert results[..n + 1][..n] == results[..n];
  }

  ghost predicate RunHas(current: Measurements, name: string) {
    exists i :: 0 <= i < |current.results| && current.results[i].name == name
  }

  /**
   compareBaseline on a decoded baseline: the gate passes exactly when the conditions are the same,
   every scenario has a positive baseline and none regresses. A refusal says which of these it is:
   a regression report names the slower scenarios in order, the others a scenario of the run.
   */
  method CompareBaseline(baseline: Measurements, current: Measurements, limitPercent: real, minimum: real) returns (err: Option<BaselineError>)
    ensures err.None? <==>
      && baseline.conditions == current.conditions
      && forall i :: 0 <= i < |current.results| ==>
           Comparable(baseline, current.results[i].name) && !Slower(baseline, current.results[i], limitPercent, minimum)
    ensures err.Some? ==>
      match err.value
      case ConditionsDiffer => baseline.conditions != current.conditions
      case MissingScenario(name) => RunHas(current, name) && forall p99 :: !BaselineFor(baseline.results, name, p99)
      case InvalidBaseline(name) => RunHas(current, name) && exists p99 :: BaselineFor(baseline.results, name, p99) && p99 <= 0.0
      case Regressed(names) => names == SlowerNames(baseline, current.results, limitPercent, minimum)
  {
    hide SlowerNames, Regresses;
    EmptyNames(baseline, limitPercent, minimum);
    if baseline.conditions != current.conditions {
      return Some(ConditionsDiffer);
    }
    var byName := IndexBaseline(baseline.results);
    var regressions: seq<string> := [];
    for n := 0 to |current.results|
      invariant forall i :: 0 <= i < n ==> Comparable(baseline, current.results[i].name)
      invariant regressions == SlowerNames(baseline, current.results[..n], limitPercent, minimum)
    {
      var m := current.results[n];
      assert RunHas(current, m.name);
      SlowerSnoc(baseline, current.results, n, limitPercent, minimum);
      if m.name !in byName {
        assert !Comparable(baseline, m.name);
        return Some(MissingScenario(m.name));
      }
      assert BaselineFor(baseline.results, m.name, byName[m.name]);
      if byName[m.name] <= 0.0 {
        assert !Comparable(baseline, m.name);
        return Some(InvalidBaseline(m.name));
      }
      var before := byName[m.name];
      var changePercent := (m.p99 / before - 1.0) * 100.0;
      var absoluteChange := m.p99 - before;
      ChangeExceeds(before, m.p99, limitPercent);
      OneBaseline(baseline, m, before, limitPercent, minimum);
      if changePercent > limitPercent && absoluteChange > minimum {
        regressions := regressions + [m.name];
      }
    }
    assert current.results[..|current.results|] == current.results;
    NoneSlower(baseline, current.results, limitPercent, minimum);
    if |regressions| > 0 {
      return Some(Regressed(regressions));
    }
    err := None;
  }
}
