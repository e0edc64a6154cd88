/**
 Starting and stopping the HTTP servers: listeners are opened in order and given up together, each
 server runs in its own goroutine that reports once, and whichever event comes first every server
 is shut down before the routine returns.
 */
module Serve {
  import opened Wrappers

  const SERVER_ERROR_BUFFER_SIZE: nat := 2

  // ---------------------------------------------------------------- opening the listeners

  class Listener {
    var open: bool

    constructor ()
      ensures open
    {
      open := true;
    }

    method Close()
      modifies this
      ensures !open
    {
      open := false;
    }
  }

  /** closeListeners. */
  method CloseListeners(listeners: seq<Listener>)
    modifies listeners
    ensures forall i :: 0 <= i < |listeners| ==> !listeners[i].open
  {
    for n := 0 to |listeners|
      invariant forall i :: 0 <= i < n ==> !listeners[i].open
    {
      listeners[n].Close();
    }
  }

  /**
   The listening loop. `outcomes[i]` is what the operating system answers for server i. Either all
   listeners are open, or the first failure is reported and exactly the earlier listeners exist,
   all of them closed again.
   */
  method ListenAll(outcomes: seq<Option<string>>) returns (listeners: seq<Listener>, err: Option<string>)
    ensures forall i :: 0 <= i < |listeners| ==> fresh(listeners[i])
    ensures err.None? <==> forall i :: 0 <= i < |outcomes| ==> outcomes[i].None?
    ensures err.None? ==> |listeners| == |outcomes| && forall i :: 0 <= i < |listeners| ==> listeners[i].open
    ensures err.Some? ==>
      && |listeners| < |outcomes| && outcomes[|listeners|] == err
      && (forall i :: 0 <= i < |listeners| ==> outcomes[i].None?)
      && (forall i :: 0 <= i < |listeners| ==> !listeners[i].open)
  {
    listeners := [];
    for n := 0 to |outcomes|
      invariant |listeners| == n
      invariant forall i :: 0 <= i < n ==> fresh(listeners[i]) && listeners[i].open && outcomes[i].None?
    {
      if outcomes[n].Some? {
        CloseListeners(listeners);
        return listeners, outcomes[n];
      }
      var listener := new Listener();
      listeners := listeners + [listener];
    }
    err := None;
  }

  // ---------------------------------------------------------------- stopping the servers

  /** A joined error: the errors that are not nil, in order; nil when there is none. */
  type Joined = seq<string>

  function Errors(results: seq<Option<string>>): Joined {
    if results == [] then []
    else Errors(results[..|results| - 1]) + if results[|results| - 1].Some? then [results[|results| - 1].value] else []
  }

  /** errors.Join(joined, result). */
  function Join(joined: Joined, result: Option<string>): Joined {
    joined + if result.Some? then [result.value] else []
  }

  lemma ErrorsSnoc(results: seq<Option<string>>, result: Option<string>)
    ensures Errors(results + [result]) == Join(Errors(results), result)
  {
  }

  lemma {:induction false} ErrorsNil(results: seq<Option<string>>)
    ensures Errors(results) == [] <==> forall i :: 0 <= i < |results| ==> results[i].None?
  {
    if results != [] {
      ErrorsNil(results[..|results| - 1]);
      assert results[|results| - 1].Some? ==> |Errors(results)| > 0;
    }
  }

  /** The shutdown loop over the servers' answers, starting from the error that was received, if any. */
  method StopServers(received: Option<string>, results: seq<Option<string>>) returns (runError: Joined)
    ensures runError == Join([], received) + Errors(results)
    ensures runError == [] <==> received.None? && forall i :: 0 <= i < |results| ==> results[i].None?
  {
    runError := Join([], received);
    for n := 0 to |results|
      invariant runError == Join([], received) + Errors(results[..n])
    {
      assert results[..n + 1] == results[..n] + [results[n]];
      ErrorsSnoc(results[..n], results[n]);
      runError := Join(runError, results[n]);
    }
    assert results[..|results|] == results;
    ErrorsNil(results);
  }

  // ---------------------------------------------------------------- the running service

  datatype Goroutine = Serving | Sending(err: Option<string>) | Sent

  datatype Main =
    | Selecting
    | Stopping(next: nat, calling: bool, runError: Joined)
    | Returned(runError: Joined)

  /**
   `calls`, `received` and `answers` record the shutdown calls made, the error taken from the
   channel, and what the calls answered.
   */
  datatype Service = Service(
    goroutines: seq<Goroutine>, channel: seq<Option<string>>, cancelled: bool, main: Main,
    calls: seq<nat>, received: seq<Option<string>>, answers: seq<Option<string>>)

  datatype Action =
    | Cancel
    | ServeReturns(server: nat, err: Option<string>)
    | Send(server: nat)
    | SelectDone
    | SelectError
    | BeginShutdown
    | EndShutdown(result: Option<string>)
    | Return

  function Started(servers: nat): Service {
    Service(seq(servers, i => Serving), [], false, Selecting, [], [], [])
  }

  /** A server ends with nil only once it has been told to shut down; it may fail at any time. */
  predicate Enabled(s: Service, a: Action) {
    match a
    case Cancel => true
    case ServeReturns(i, err) => i < |s.goroutines| && s.goroutines[i].Serving? && (err.Some? || i in s.calls)
    case Send(i) => i < |s.goroutines| && s.goroutines[i].Sending? && |s.channel| < SERVER_ERROR_BUFFER_SIZE
    case SelectDone => s.main.Selecting? && s.cancelled
    case SelectError => s.main.Selecting? && s.channel != []
    case BeginShutdown => s.main.Stopping? && !s.main.calling && s.main.next < |s.goroutines|
    case EndShutdown(_) => s.main.Stopping? && s.main.calling
    case Return => s.main.Stopping? && !s.main.calling && s.main.next == |s.goroutines|
  }

  function Apply(s: Service, a: Action): Service
    requires Enabled(s, a)
  {
    match a
    case Cancel => s.(cancelled := true)
    case ServeReturns(i, err) => s.(goroutines := s.goroutines[i := Sending(err)])
    case Send(i) => s.(channel := s.channel + [s.goroutines[i].err], goroutines := s.goroutines[i := Sent])
    case SelectDone => s.(main := Stopping(0, false, []))
    case SelectError =>
      s.(main := Stopping(0, false, Join([], s.channel[0])), received := [s.channel[0]], channel := s.channel[1..])
    case BeginShutdown => s.(main := s.main.(calling := true), calls := s.calls + [s.main.next])
    case EndShutdown(result) =>
      s.(main := Stopping(s.main.next + 1, false, Join(s.main.runError, result)), answers := s.answers + [result])
    case Return => s.(main := Returned(s.main.runError))
  }

  ghost predicate Reaches(s: Service, schedule: seq<Action>, t: Service)
    decreases |schedule|
  {
    if schedule == [] then s == t
    else Enabled(s, schedule[0]) && Reaches(Apply(s, schedule[0]), schedule[1..], t)
  }

  function Reports(goroutines: seq<Goroutine>): nat {
    if goroutines == [] then 0 else (if goroutines[0].Sent? then 1 else 0) + Reports(goroutines[1..])
  }

  lemma {:induction false} ReportsUpdate(goroutines: seq<Goroutine>, i: nat, g: Goroutine)
    requires i < |goroutines|
    ensures Reports(goroutines[i := g]) == Reports(goroutines) - (if goroutines[i].Sent? then 1 else 0) + if g.Sent? then 1 else 0
  {
    if i == 0 {
      assert goroutines[i := g][1..] == goroutines[1..];
    } else {
      ReportsUpdate(goroutines[1..], i - 1, g);
      assert goroutines[i := g][1..] == goroutines[1..][i - 1 := g];
    }
  }

  lemma {:induction false} ReportsBound(goroutines: seq<Goroutine>)
    ensures Reports(goroutines) <= |goroutines|
    ensures Reports(goroutines) == |goroutines| <==> forall i :: 0 <= i < |goroutines| ==> goroutines[i].Sent?
  {
    if goroutines != [] {
      ReportsBound(goroutines[1..]);
      assert goroutines == [goroutines[0]] + goroutines[1..];
    }
  }

  lemma {:induction false} NoReports(goroutines: seq<Goroutine>)
    requires forall i :: 0 <= i < |goroutines| ==> goroutines[i].Serving?
    ensures Reports(goroutines) == 0
  {
    if goroutines != [] {
      assert goroutines[0].Serving?;
      NoReports(goroutines[1..]);
    }
  }

  /** How many servers have been told to shut down, and how many have answered. */
  function Called(s: Service): nat {
    match s.main
    case Selecting => 0
    case Stopping(next, calling, _) => if calling then next + 1 else next
    case Returned(_) => |s.goroutines|
  }

  function Answered(s: Service): nat {
    match s.main
    case Selecting => 0
    case Stopping(next, _, _) => next
    case Returned(_) => |s.goroutines|
  }

  /** The error taken from the channel, if one was taken and was not nil. */
  function ReceivedError(s: Service): Option<string> {
    if s.received == [] then None else s.received[0]
  }

  /** Every report made is in the channel or was received, and at most one was received. */
  ghost predicate ReportsKept(s: Service) {
    && Reports(s.goroutines) == |s.channel| + |s.received|
    && |s.received| <= 1 && (s.main.Selecting? ==> s.received == [])
  }

  /** The shutdown calls so far are the first servers in order. */
  ghost predicate CallsInOrder(s: Service) {
    && Called(s) <= |s.goroutines|
    && |s.calls| == Called(s) && (forall i :: 0 <= i < |s.calls| ==> s.calls[i] == i)
    && |s.answers| == Answered(s)
  }

  /** The error so far joins the one received and the answers of the calls. */
  ghost predicate ErrorsJoined(s: Service) {
    !s.main.Selecting? ==> s.main.runError == Join([], ReceivedError(s)) + Errors(s.answers)
  }

  ghost predicate Inv(s: Service) {
    ReportsKept(s) && CallsInOrder(s) && ErrorsJoined(s)
  }

  lemma StepKeepsReports(s: Service, a: Action)
    requires ReportsKept(s) && Enabled(s, a)
    ensures ReportsKept(Apply(s, a))
  {
    hide Reports, Join;
    match a
    case ServeReturns(i, err) => ReportsUpdate(s.goroutines, i, Sending(err));
    case Send(i) => ReportsUpdate(s.goroutines, i, Sent);
    case _ =>
  }

  lemma StepKeepsCalls(s: Service, a: Action)
    requires CallsInOrder(s) && Enabled(s, a)
    ensures CallsInOrder(Apply(s, a)) && |Apply(s, a).goroutines| == |s.goroutines|
  {
    hide Join;
  }

  lemma StepKeepsErrors(s: Service, a: Action)
    requires ReportsKept(s) && ErrorsJoined(s) && Enabled(s, a) && (s.main.Selecting? ==> s.answers == [])
    ensures ErrorsJoined(Apply(s, a))
  {
    hide Errors, Reports;
    NoErrors();
    if a.EndShutdown? { ErrorsSnoc(s.answers, a.result); }
  }

  lemma NoErrors()
    ensures Errors([]) == []
  {
  }

  lemma StepKeepsInv(s: Service, a: Action)
    requires Inv(s) && Enabled(s, a)
    ensures Inv(Apply(s, a)) && |Apply(s, a).goroutines| == |s.goroutines|
  {
    StepKeepsReports(s, a);
    StepKeepsCalls(s, a);
    assert s.main.Selecting? ==> s.answers == [];
    StepKeepsErrors(s, a);
    hide ReportsKept, CallsInOrder, ErrorsJoined, Apply;
  }

  lemma {:induction false} RunKeepsInv(s: Service, schedule: seq<Action>, t: Service)
    requires Inv(s) && Reaches(s, schedule, t)
    ensures Inv(t) && |t.goroutines| == |s.goroutines|
    decreases |schedule|
  {
    if schedule != [] {
      StepKeepsInv(s, schedule[0]);
      RunKeepsInv(Apply(s, schedule[0]), schedule[1..], t);
    }
  }

  lemma StartedInv(servers: nat)
    ensures Inv(Started(servers)) && |Started(servers).goroutines| == servers
  {
    NoReports(Started(servers).goroutines);
  }

  /** Whichever event fires first, a returned routine has told every server to shut down, once and in order. */
  lemma EveryServerIsStopped(servers: nat, schedule: seq<Action>, s: Service)
    requires Reaches(Started(servers), schedule, s) && s.main.Returned?
    ensures |s.calls| == |s.answers| == servers && forall i :: 0 <= i < servers ==> s.calls[i] == i
  {
    StartedInv(servers);
    RunKeepsInv(Started(servers), schedule, s);
  }

  // ---------------------------------------------------------------- where the errors come from

  /** What the servers' Serve calls returned in the course of a schedule. */
  function ReturnedErrors(schedule: seq<Action>): set<Option<string>> {
    set a | a in schedule && a.ServeReturns? :: a.err
  }

  /** What the shutdown calls answered, in order. */
  function ShutdownResults(schedule: seq<Action>): seq<Option<string>> {
    if schedule == [] then []
    else (if schedule[0].EndShutdown? then [schedule[0].result] else []) + ShutdownResults(schedule[1..])
  }

  /** Every error on its way, in the channel or received is one that a server returned. */
  ghost predicate ErrorsFrom(s: Service, returned: set<Option<string>>) {
    && (forall i :: 0 <= i < |s.goroutines| && s.goroutines[i].Sending? ==> s.goroutines[i].err in returned)
    && (forall e :: e in s.channel ==> e in returned)
    && (forall e :: e in s.received ==> e in returned)
  }

  lemma StepKeepsErrorsFrom(s: Service, a: Action, returned: set<Option<string>>)
    requires ErrorsFrom(s, returned) && Enabled(s, a) && (a.ServeReturns? ==> a.err in returned)
    ensures ErrorsFrom(Apply(s, a), returned)
  {
    hide Join;
  }

  lemma {:induction false} RunKeepsErrorsFrom(s: Service, schedule: seq<Action>, t: Service, returned: set<Option<string>>)
    requires ErrorsFrom(s, returned) && Reaches(s, schedule, t) && ReturnedErrors(schedule) <= returned
    ensures ErrorsFrom(t, returned)
    decreases |schedule|
  {
    if schedule != [] {
      assert schedule[0] in schedule;
      StepKeepsErrorsFrom(s, schedule[0], returned);
      assert forall a :: a in schedule[1..] ==> a in schedule;
      RunKeepsErrorsFrom(Apply(s, schedule[0]), schedule[1..], t, returned);
    }
  }

  lemma {:induction false} RunKeepsAnswers(s: Service, schedule: seq<Action>, t: Service)
    requires Reaches(s, schedule, t)
    ensures t.answers == s.answers + ShutdownResults(schedule)
    decreases |schedule|
  {
    if schedule != [] {
      RunKeepsAnswers(Apply(s, schedule[0]), schedule[1..], t);
    }
  }

  /**
   The result joins the error received, if any, with the shutdown errors, and nothing else; it is
   nil exactly when all of these are. At most one report is ever received, it is what some server
   returned, and the shutdown errors are what the calls answered, in order.
   */
  lemma ResultMeaning(servers: nat, schedule: seq<Action>, s: Service)
    requires Reaches(Started(servers), schedule, s) && s.main.Returned?
    ensures |s.received| <= 1 && s.main.runError == Join([], ReceivedError(s)) + Errors(s.answers)
    ensures s.main.runError == [] <==> ReceivedError(s).None? && forall i :: 0 <= i < |s.answers| ==> s.answers[i].None?
    ensures s.answers == ShutdownResults(schedule)
    ensures s.received != [] ==> s.received[0] in ReturnedErrors(schedule)
  {
    RunKeepsAnswers(Started(servers), schedule, s);
    RunKeepsErrorsFrom(Started(servers), schedule, s, ReturnedErrors(schedule));
    StartedInv(servers);
    RunKeepsInv(Started(servers), schedule, s);
    ErrorsNil(s.answers);
  }

  lemma {:induction false} ReportsLeaveRoom(goroutines: seq<Goroutine>, i: nat)
    requires i < |goroutines| && !goroutines[i].Sent?
    ensures Reports(goroutines) < |goroutines|
  {
    ReportsBound(goroutines);
  }

  /** With at most two servers every goroutine's single send goes through at once, in every reachable state. */
  lemma SendsNeverBlock(servers: nat, schedule: seq<Action>, s: Service, i: nat)
    requires servers <= SERVER_ERROR_BUFFER_SIZE && Reaches(Started(servers), schedule, s)
    requires i < servers
    ensures i < |s.goroutines| && (s.goroutines[i].Sending? ==> Enabled(s, Send(i)))
  {
    StartedInv(servers);
    RunKeepsInv(Started(servers), schedule, s);
    if s.goroutines[i].Sending? { ReportsLeaveRoom(s.goroutines, i); }
  }

  /** Once an event has fired, some step is possible until the routine has returned and every goroutine has reported. */
  lemma ShutdownNeverStuck(servers: nat, schedule: seq<Action>, s: Service)
    requires servers <= SERVER_ERROR_BUFFER_SIZE && Reaches(Started(servers), schedule, s) && !s.main.Selecting?
    ensures (s.main.Returned? && forall i :: 0 <= i < |s.goroutines| ==> s.goroutines[i].Sent?) ||
      exists a :: a != Cancel && Enabled(s, a)
  {
    StartedInv(servers);
    RunKeepsInv(Started(servers), schedule, s);
    match s.main
    case Stopping(next, calling, _) =>
      if calling { assert Enabled(s, EndShutdown(None)); }
      else if next < |s.goroutines| { assert Enabled(s, BeginShutdown); }
      else { assert Enabled(s, Return); }
    case Returned(_) =>
      if i :| 0 <= i < |s.goroutines| && !s.goroutines[i].Sent? {
        if s.goroutines[i].Sending? {
          SendsNeverBlock(servers, schedule, s, i);
          assert Enabled(s, Send(i));
        } else {
          assert s.calls[i] == i;
          assert Enabled(s, ServeReturns(i, None));
        }
      }
    case _ =>
  }

  // ---------------------------------------------------------------- every run is finite

  function Owed(g: Goroutine): nat {
    match g case Serving => 2 case Sending(_) => 1 case Sent => 0
  }

  function TotalOwed(goroutines: seq<Goroutine>): nat {
    if goroutines == [] then 0 else Owed(goroutines[0]) + TotalOwed(goroutines[1..])
  }

  lemma {:induction false} OwedUpdate(goroutines: seq<Goroutine>, i: nat, g: Goroutine)
    requires i < |goroutines|
    ensures TotalOwed(goroutines[i := g]) == TotalOwed(goroutines) - Owed(goroutines[i]) + Owed(g)
  {
    if i == 0 {
      assert goroutines[i := g][1..] == goroutines[1..];
    } else {
      OwedUpdate(goroutines[1..], i - 1, g);
      assert goroutines[i := g][1..] == goroutines[1..][i - 1 := g];
    }
  }

  lemma {:induction false} AllServing(goroutines: seq<Goroutine>)
    requires forall i :: 0 <= i < |goroutines| ==> goroutines[i].Serving?
    ensures TotalOwed(goroutines) == 2 * |goroutines|
  {
    if goroutines != [] {
      assert goroutines[0].Serving?;
      AllServing(goroutines[1..]);
    }
  }

  /** The steps the main routine still has to make. */
  function MainOwes(s: Service): int {
    var n := |s.goroutines|;
    match s.main
    case Selecting => 2 * n + 2
    case Stopping(next, calling, _) => 2 * (n - next) + if calling then 0 else 1
    case Returned(_) => 0
  }

  function Remaining(s: Service): int { TotalOwed(s.goroutines) + MainOwes(s) }

  lemma StepSpends(s: Service, a: Action)
    requires Enabled(s, a)
    ensures Remaining(Apply(s, a)) <= Remaining(s) - if a == Cancel then 0 else 1
  {
    hide Join, TotalOwed;
    match a
    case ServeReturns(i, err) => OwedUpdate(s.goroutines, i, Sending(err));
    case Send(i) => OwedUpdate(s.goroutines, i, Sent);
    case _ =>
  }

  /** The steps of a schedule other than repeated cancellations. */
  function Steps(schedule: seq<Action>): nat {
    if schedule == [] then 0 else (if schedule[0] == Cancel then 0 else 1) + Steps(schedule[1..])
  }

  lemma {:induction false} ScheduleIsFinite(s: Service, schedule: seq<Action>, t: Service)
    requires Inv(s) && Reaches(s, schedule, t)
    ensures Steps(schedule) <= Remaining(s) - Remaining(t) && Remaining(t) >= 0
    decreases |schedule|
  {
    hide Inv, Remaining, Enabled, Apply;
    if schedule == [] {
      RemainingIsNatural(s);
    } else {
      StepKeepsInv(s, schedule[0]);
      StepSpends(s, schedule[0]);
      ScheduleIsFinite(Apply(s, schedule[0]), schedule[1..], t);
    }
  }

  lemma RemainingIsNatural(s: Service)
    requires Inv(s)
    ensures Remaining(s) >= 0
  {
  }

  /** The routine has returned, every server was told to shut down, and every goroutine's send has gone through. */
  ghost predicate Complete(s: Service) {
    && s.main.Returned?
    && |s.calls| == |s.goroutines| && (forall i :: 0 <= i < |s.calls| ==> s.calls[i] == i)
    && forall i :: 0 <= i < |s.goroutines| ==> s.goroutines[i].Sent?
  }

  /**
   Every run completes: it makes at most 4 n + 2 steps, and where it can go no further once an
   event has fired, every server has been shut down and every send is done.
   */
  lemma EveryRunCompletes(servers: nat, schedule: seq<Action>, s: Service)
    requires servers <= SERVER_ERROR_BUFFER_SIZE && Reaches(Started(servers), schedule, s)
    ensures Steps(schedule) <= 4 * servers + 2
    ensures !s.main.Selecting? && (forall a :: Enabled(s, a) ==> a == Cancel) ==> Complete(s) && |s.goroutines| == servers
  {
    StartedInv(servers);
    AllServing(Started(servers).goroutines);
    ScheduleIsFinite(Started(servers), schedule, s);
    if !s.main.Selecting? && forall a :: Enabled(s, a) ==> a == Cancel {
      ShutdownNeverStuck(servers, schedule, s);
      EveryServerIsStopped(servers, schedule, s);
      RunKeepsInv(Started(servers), schedule, s);
    }
  }

  // ---------------------------------------------------------------- why two is the limit

  ghost predicate Leaks(s: Service, i: nat) {
    !s.main.Selecting? && |s.channel| >= SERVER_ERROR_BUFFER_SIZE && i < |s.goroutines| && s.goroutines[i].Sending?
  }

  lemma {:induction false} LeakIsForEver(s: Service, schedule: seq<Action>, t: Service, i: nat)
    requires Leaks(s, i) && Reaches(s, schedule, t)
    ensures Leaks(t, i)
    decreases |schedule|
  {
    if schedule != [] { LeakIsForEver(Apply(s, schedule[0]), schedule[1..], t, i); }
  }

  ghost predicate CanLeak(servers: nat) {
    exists schedule: seq<Action>, s: Service, i: nat :: Reaches(Started(servers), schedule, s) && Leaks(s, i)
  }

  lemma ReachesStep(s: Service, a: Action, rest: seq<Action>, t: Service)
    requires Enabled(s, a) && Reaches(Apply(s, a), rest, t)
    ensures Reaches(s, [a] + rest, t)
  {
  }

  lemma ThreeServersLeak(servers: nat)
    requires servers >= 3
    ensures CanLeak(servers)
  {
    var fails := Some("");
    var s0 := Started(servers);
    var s1 := Apply(s0, ServeReturns(0, fails));
    var s2 := Apply(s1, ServeReturns(1, fails));
    var s3 := Apply(s2, ServeReturns(2, fails));
    var s4 := Apply(s3, Send(0));
    var s5 := Apply(s4, Send(1));
    var s6 := Apply(s5, Cancel);
    var s7 := Apply(s6, SelectDone);
    assert Leaks(s7, 2);
    ReachesStep(s6, SelectDone, [], s7);
    var r5 := [Cancel] + ([SelectDone] + []);
    ReachesStep(s5, Cancel, [SelectDone] + [], s7);
    ReachesStep(s4, Send(1), r5, s7);
    ReachesStep(s3, Send(0), [Send(1)] + r5, s7);
    var r3 := [Send(0)] + ([Send(1)] + r5);
    ReachesStep(s2, ServeReturns(2, fails), r3, s7);
    var r2 := [ServeReturns(2, fails)] + r3;
    ReachesStep(s1, ServeReturns(1, fails), r2, s7);
    ReachesStep(s0, ServeReturns(0, fails), [ServeReturns(1, fails)] + r2, s7);
  }

  /**
   The channel size fits exactly: a serving goroutine can be left waiting on its send for ever if
   and only if there are more servers than channel slots.
   */
  lemma LeakIffMoreThanTwo(servers: nat)
    ensures CanLeak(servers) <==> servers > SERVER_ERROR_BUFFER_SIZE
  {
    if servers > SERVER_ERROR_BUFFER_SIZE {
      ThreeServersLeak(servers);
    } else if schedule: seq<Action>, s: Service, i: nat :| Reaches(Started(servers), schedule, s) && Leaks(s, i) {
      StartedInv(servers);
      RunKeepsInv(Started(servers), schedule, s);
      SendsNeverBlock(servers, schedule, s, i);
      assert false;
    }
  }
}
