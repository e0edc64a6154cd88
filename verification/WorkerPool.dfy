/**
 The load generator's worker pool as interleaved steps: a feeder hands jobs to workers over an
 unbuffered channel, workers send samples into a buffered channel, a collector drains it, and the
 feeder closes both channels with a wait group in between.
 */
module WorkerPool {
  import opened Wrappers

  /** One measured request. */
  datatype Sample = Sample(duration: int, bytes: int, status: int, error: Option<string>)

  /** A sample labelled with the job it answers; the label exists only in the model. */
  datatype Answer = Answer(job: nat, sample: Sample)

  datatype Worker = Waiting | Working(job: nat) | Sending(answer: Answer) | Exited

  datatype Feeder = Feeding | AwaitingWorkers | Closed

  datatype Pool = Pool(
    requests: nat,
    sent: nat,
    feeder: Feeder,
    workers: seq<Worker>,
    waitGroup: int,
    jobsClosed: bool,
    samplesClosed: bool,
    buffer: seq<Answer>,
    received: seq<Answer>,
    collected: bool)

  datatype Action =
    | Handoff(worker: nat)                  // jobs <- struct{}{} meets range jobs
    | CloseJobs
    | Perform(worker: nat, sample: Sample)  // performRequest returns
    | Send(worker: nat)                     // samples <- sample
    | Exit(worker: nat)                     // range jobs ends, workers.Done()
    | CloseSamples                          // workers.Wait() returns, close(samples)
    | Receive
    | Finish                                // range samples ends

  function Initial(requests: nat, concurrency: nat): Pool {
    var count := if concurrency < requests then concurrency else requests;
    Pool(requests, 0, Feeding, seq(count, i => Waiting), count, false, false, [], [], false)
  }

  predicate Enabled(p: Pool, a: Action) {
    match a
    case Handoff(w) => p.feeder.Feeding? && p.sent < p.requests && w < |p.workers| && p.workers[w].Waiting?
    case CloseJobs => p.feeder.Feeding? && p.sent == p.requests
    case Perform(w, _) => w < |p.workers| && p.workers[w].Working?
    case Send(w) => w < |p.workers| && p.workers[w].Sending? && |p.buffer| < p.requests
    case Exit(w) => w < |p.workers| && p.workers[w].Waiting? && p.jobsClosed
    case CloseSamples => p.feeder.AwaitingWorkers? && p.waitGroup == 0
    case Receive => !p.collected && p.buffer != []
    case Finish => !p.collected && p.buffer == [] && p.samplesClosed
  }

  function Apply(p: Pool, a: Action): Pool
    requires Enabled(p, a)
  {
    match a
    case Handoff(w) => p.(sent := p.sent + 1, workers := p.workers[w := Working(p.sent)])
    case CloseJobs => p.(feeder := AwaitingWorkers, jobsClosed := true)
    case Perform(w, sample) => p.(workers := p.workers[w := Sending(Answer(p.workers[w].job, sample))])
    case Send(w) => p.(workers := p.workers[w := Waiting], buffer := p.buffer + [p.workers[w].answer])
    case Exit(w) => p.(workers := p.workers[w := Exited], waitGroup := p.waitGroup - 1)
    case CloseSamples => p.(feeder := Closed, samplesClosed := true)
    case Receive => p.(buffer := p.buffer[1..], received := p.received + [p.buffer[0]])
    case Finish => p.(collected := true)
  }

  /** The states in which a goroutine's next operation would panic. */
  predicate WouldPanic(p: Pool) {
    || (p.feeder.Feeding? && p.jobsClosed)                                                   // send on, or second close of, jobs
    || (!p.feeder.Closed? && p.samplesClosed)                                                // second close of samples
    || (p.samplesClosed && exists w :: 0 <= w < |p.workers| && p.workers[w].Sending?)        // send on closed samples
    || p.waitGroup < 0
  }

  ghost predicate Reaches(p: Pool, schedule: seq<Action>, q: Pool)
    decreases |schedule|
  {
    if schedule == [] then p == q
    else Enabled(p, schedule[0]) && Reaches(Apply(p, schedule[0]), schedule[1..], q)
  }

  // ---------------------------------------------------------------- accounting

  function Total(workers: seq<Worker>, f: Worker -> int): int {
    if workers == [] then 0 else f(workers[0]) + Total(workers[1..], f)
  }

  function Alive(w: Worker): int { if w.Exited? then 0 else 1 }

  function Busy(w: Worker): int { if w.Working? || w.Sending? then 1 else 0 }

  /** 1 when the worker carries the job, else 0. */
  function Carries(job: nat): Worker -> int {
    (w: Worker) => if w == Working(job) || (w.Sending? && w.answer.job == job) then 1 else 0
  }

  /** How many answers to the job a sequence holds. */
  function AnswersTo(answers: seq<Answer>, job: nat): int {
    if answers == [] then 0 else (if answers[0].job == job then 1 else 0) + AnswersTo(answers[1..], job)
  }

  function Effort(w: Worker): int {
    match w
    case Waiting => 1
    case Working(_) => 4
    case Sending(_) => 3
    case Exited => 0
  }

  lemma {:induction false} TotalUpdate(workers: seq<Worker>, i: nat, w: Worker, f: Worker -> int)
    requires i < |workers|
    ensures Total(workers[i := w], f) == Total(workers, f) - f(workers[i]) + f(w)
  {
    var updated := workers[i := w];
    if i == 0 {
      assert updated[1..] == workers[1..];
    } else {
      TotalUpdate(workers[1..], i - 1, w, f);
      assert updated[1..] == workers[1..][i - 1 := w];
    }
  }

  lemma {:induction false} TotalBounds(workers: seq<Worker>)
    ensures 0 <= Total(workers, Alive) <= |workers| && 0 <= Total(workers, Effort)
    ensures 0 <= Total(workers, Busy)
    ensures Total(workers, Alive) == 0 <==> forall i :: 0 <= i < |workers| ==> workers[i].Exited?
  {
    if workers != [] {
      TotalBounds(workers[1..]);
      assert workers == [workers[0]] + workers[1..];
    }
  }

  lemma {:induction false} AllAlike(workers: seq<Worker>, w: Worker, f: Worker -> int)
    requires forall i :: 0 <= i < |workers| ==> workers[i] == w
    ensures Total(workers, f) == |workers| * f(w)
  {
    if workers != [] {
      assert workers[0] == w;
      AllAlike(workers[1..], w, f);
    }
  }

  lemma {:induction false} AnswersSnoc(answers: seq<Answer>, a: Answer, job: nat)
    ensures AnswersTo(answers + [a], job) == AnswersTo(answers, job) + if a.job == job then 1 else 0
  {
    if answers == [] {
      assert [a][1..] == [];
    } else {
      AnswersSnoc(answers[1..], a, job);
      assert (answers + [a])[1..] == answers[1..] + [a];
    }
  }

  lemma {:induction false} BusyCounts(workers: seq<Worker>, i: nat)
    requires i < |workers| && Busy(workers[i]) == 1
    ensures Total(workers, Busy) >= 1
  {
    TotalBounds(workers[1..]);
    if i > 0 { BusyCounts(workers[1..], i - 1); }
  }

  // ---------------------------------------------------------------- the invariant

  ghost predicate Channels(p: Pool) {
    && (p.feeder.Feeding? <==> !p.jobsClosed)
    && (p.feeder.Closed? <==> p.samplesClosed)
    && (p.jobsClosed ==> p.sent == p.requests)
    && (p.samplesClosed ==> p.waitGroup == 0)
    && (p.collected ==> p.samplesClosed && p.buffer == [])
  }

  ghost predicate Workers(p: Pool) {
    && p.waitGroup == Total(p.workers, Alive)
    && (forall w :: 0 <= w < |p.workers| && p.workers[w].Exited? ==> p.jobsClosed)
    && (p.requests > 0 ==> |p.workers| > 0)
  }

  /** Where a job is: with a worker, in the buffer, or collected. */
  function Places(p: Pool, job: nat): int {
    Total(p.workers, Carries(job)) + AnswersTo(p.buffer, job) + AnswersTo(p.received, job)
  }

  /** Every job handed out is in exactly one place, and no other job is anywhere. */
  ghost predicate Conserved(p: Pool) {
    && p.sent <= p.requests
    && (forall job: nat :: Places(p, job) == if job < p.sent then 1 else 0)
    && Total(p.workers, Busy) + |p.buffer| + |p.received| == p.sent
  }

  ghost predicate Inv(p: Pool) {
    Channels(p) && Workers(p) && Conserved(p)
  }

  lemma InitialInv(requests: nat, concurrency: nat)
    requires concurrency > 0
    ensures Inv(Initial(requests, concurrency))
  {
    var p := Initial(requests, concurrency);
    AllAlike(p.workers, Waiting, Alive);
    AllAlike(p.workers, Waiting, Busy);
    forall job: nat ensures Places(p, job) == 0 { AllAlike(p.workers, Waiting, Carries(job)); }
  }

  lemma StepMovesJob(p: Pool, a: Action, job: nat)
    requires Enabled(p, a)
    ensures Places(Apply(p, a), job) == Places(p, job) + if a.Handoff? && job == p.sent then 1 else 0
  {
    match a
    case Handoff(w) => TotalUpdate(p.workers, w, Working(p.sent), Carries(job));
    case Perform(w, sample) => TotalUpdate(p.workers, w, Sending(Answer(p.workers[w].job, sample)), Carries(job));
    case Send(w) =>
      TotalUpdate(p.workers, w, Waiting, Carries(job));
      AnswersSnoc(p.buffer, p.workers[w].answer, job);
    case Exit(w) => TotalUpdate(p.workers, w, Exited, Carries(job));
    case Receive => AnswersSnoc(p.received, p.buffer[0], job);
    case _ =>
  }

  lemma StepKeepsBusy(p: Pool, a: Action)
    requires Enabled(p, a)
    ensures var q := Apply(p, a);
      Total(q.workers, Busy) + |q.buffer| + |q.received| - q.sent == Total(p.workers, Busy) + |p.buffer| + |p.received| - p.sent
  {
    match a
    case Handoff(w) => TotalUpdate(p.workers, w, Working(p.sent), Busy);
    case Perform(w, sample) => TotalUpdate(p.workers, w, Sending(Answer(p.workers[w].job, sample)), Busy);
    case Send(w) => TotalUpdate(p.workers, w, Waiting, Busy);
    case Exit(w) => TotalUpdate(p.workers, w, Exited, Busy);
    case _ =>
  }

  lemma StepConserves(p: Pool, a: Action)
    requires Conserved(p) && Enabled(p, a)
    ensures Conserved(Apply(p, a))
  {
    StepKeepsBusy(p, a);
    forall job: nat ensures Places(Apply(p, a), job) == if job < Apply(p, a).sent then 1 else 0 { StepMovesJob(p, a, job); }
  }

  lemma StepKeepsWorkers(p: Pool, a: Action)
    requires Channels(p) && Workers(p) && Enabled(p, a)
    ensures Channels(Apply(p, a)) && Workers(Apply(p, a))
  {
    TotalBounds(p.workers);
    match a
    case Handoff(w) => TotalUpdate(p.workers, w, Working(p.sent), Alive);
    case Perform(w, sample) => TotalUpdate(p.workers, w, Sending(Answer(p.workers[w].job, sample)), Alive);
    case Send(w) => TotalUpdate(p.workers, w, Waiting, Alive);
    case Exit(w) => TotalUpdate(p.workers, w, Exited, Alive);
    case _ =>
  }

  lemma {:induction false} RunKeepsInv(p: Pool, schedule: seq<Action>, q: Pool)
    requires Inv(p) && Reaches(p, schedule, q)
    ensures Inv(q) && q.requests == p.requests && |q.workers| == |p.workers|
    decreases |schedule|
  {
    if schedule != [] {
      StepConserves(p, schedule[0]);
      StepKeepsWorkers(p, schedule[0]);
      RunKeepsInv(Apply(p, schedule[0]), schedule[1..], q);
    }
  }

  /** In every schedule, no send or close meets a closed channel and the wait group never underflows. */
  lemma NeverPanics(requests: nat, concurrency: nat, schedule: seq<Action>, p: Pool)
    requires concurrency > 0 && Reaches(Initial(requests, concurrency), schedule, p)
    ensures !WouldPanic(p)
  {
    InitialInv(requests, concurrency);
    RunKeepsInv(Initial(requests, concurrency), schedule, p);
    TotalBounds(p.workers);
  }

  lemma SendNeverBlocks(p: Pool, w: nat)
    requires Inv(p) && w < |p.workers| && p.workers[w].Sending?
    ensures Enabled(p, Send(w))
  {
    BusyCounts(p.workers, w);
  }

  lemma SomeStep(p: Pool) returns (a: Action)
    requires Inv(p) && !p.collected
    ensures Enabled(p, a)
  {
    TotalBounds(p.workers);
    if p.buffer != [] {
      a := Receive;
    } else if p.samplesClosed {
      a := Finish;
    } else if w: nat :| w < |p.workers| && p.workers[w].Working? {
      a := Perform(w, Sample(0, 0, 0, None));
    } else if w: nat :| w < |p.workers| && p.workers[w].Sending? {
      SendNeverBlocks(p, w);
      a := Send(w);
    } else if p.feeder.Feeding? {
      if p.sent < p.requests {
        assert p.workers[0].Waiting?;
        a := Handoff(0);
      } else {
        a := CloseJobs;
      }
    } else if w: nat :| w < |p.workers| && p.workers[w].Waiting? {
      a := Exit(w);
    } else {
      assert forall i :: 0 <= i < |p.workers| ==> p.workers[i].Exited?;
      a := CloseSamples;
    }
  }

  /** In every schedule, some step is enabled until the collector has finished. */
  lemma NeverStuck(requests: nat, concurrency: nat, schedule: seq<Action>, p: Pool)
    requires concurrency > 0 && Reaches(Initial(requests, concurrency), schedule, p)
    ensures !p.collected ==> exists a :: Enabled(p, a)
  {
    InitialInv(requests, concurrency);
    RunKeepsInv(Initial(requests, concurrency), schedule, p);
    if !p.collected {
      var a := SomeStep(p);
    }
  }

  /**
   The positive concurrency that the configuration demands is needed: without workers the first
   send on the unbuffered channel waits for ever.
   */
  lemma WithoutWorkersStuck(requests: nat)
    requires requests > 0
    ensures !Initial(requests, 0).collected && forall a :: !Enabled(Initial(requests, 0), a)
  {
  }

  // ---------------------------------------------------------------- every schedule is finite

  function Measure(p: Pool): int {
    5 * (p.requests - p.sent) + Total(p.workers, Effort) + |p.buffer|
    + (match p.feeder case Feeding => 2 case AwaitingWorkers => 1 case Closed => 0)
    + (if p.collected then 0 else 1)
  }

  lemma StepDecreases(p: Pool, a: Action)
    requires Conserved(p) && Enabled(p, a)
    ensures Measure(Apply(p, a)) < Measure(p)
  {
    match a
    case Handoff(w) => TotalUpdate(p.workers, w, Working(p.sent), Effort);
    case Perform(w, sample) => TotalUpdate(p.workers, w, Sending(Answer(p.workers[w].job, sample)), Effort);
    case Send(w) => TotalUpdate(p.workers, w, Waiting, Effort);
    case Exit(w) => TotalUpdate(p.workers, w, Exited, Effort);
    case _ =>
  }

  /** No schedule runs for longer than the measure of its first state. */
  lemma {:induction false} ScheduleIsFinite(p: Pool, schedule: seq<Action>, q: Pool)
    requires Inv(p) && Reaches(p, schedule, q)
    ensures 0 <= Measure(q) && |schedule| <= Measure(p) - Measure(q)
    decreases |schedule|
  {
    if schedule == [] {
      TotalBounds(p.workers);
    } else {
      StepConserves(p, schedule[0]);
      StepKeepsWorkers(p, schedule[0]);
      StepDecreases(p, schedule[0]);
      ScheduleIsFinite(Apply(p, schedule[0]), schedule[1..], q);
    }
  }

  // ---------------------------------------------------------------- what the collector ends with

  /** When the collector finishes, it holds exactly one answer for each of the requests. */
  lemma OneAnswerPerJob(requests: nat, concurrency: nat, schedule: seq<Action>, p: Pool)
    requires concurrency > 0 && Reaches(Initial(requests, concurrency), schedule, p) && p.collected
    ensures |p.received| == requests
    ensures |p.workers| == if requests < concurrency then requests else concurrency
    ensures forall job: nat :: AnswersTo(p.received, job) == if job < requests then 1 else 0
  {
    InitialInv(requests, concurrency);
    RunKeepsInv(Initial(requests, concurrency), schedule, p);
    TotalBounds(p.workers);
    assert forall i :: 0 <= i < |p.workers| ==> p.workers[i] == Exited;
    AllAlike(p.workers, Exited, Busy);
    forall job: nat ensures AnswersTo(p.received, job) == if job < requests then 1 else 0 {
      AllAlike(p.workers, Exited, Carries(job));
      assert Places(p, job) == AnswersTo(p.received, job);
    }
  }

  // ---------------------------------------------------------------- the samples that were measured

  /** What a step measures, labelled with the job the worker had been given. */
  function Measured(p: Pool, a: Action): seq<Answer>
    requires Enabled(p, a)
  {
    match a case Perform(w, sample) => [Answer(p.workers[w].job, sample)] case _ => []
  }

  ghost function Performed(p: Pool, schedule: seq<Action>): seq<Answer>
    decreases |schedule|
  {
    if schedule == [] || !Enabled(p, schedule[0]) then []
    else Measured(p, schedule[0]) + Performed(Apply(p, schedule[0]), schedule[1..])
  }

  /** The answers that workers are about to send. */
  function Outgoing(workers: seq<Worker>): seq<Answer> {
    if workers == [] then []
    else (if workers[0].Sending? then [workers[0].answer] else []) + Outgoing(workers[1..])
  }

  /** How often the answer is in the program: with a worker, in the buffer, or collected. */
  function Copies(p: Pool, x: Answer): nat {
    multiset(Outgoing(p.workers))[x] + multiset(p.buffer)[x] + multiset(p.received)[x]
  }

  function Holds(w: Worker, x: Answer): nat { if w == Sending(x) then 1 else 0 }

  lemma {:induction false} OutgoingUpdate(workers: seq<Worker>, i: nat, w: Worker, x: Answer)
    requires i < |workers|
    ensures multiset(Outgoing(workers[i := w]))[x] + Holds(workers[i], x) == multiset(Outgoing(workers))[x] + Holds(w, x)
  {
    var updated := workers[i := w];
    if i == 0 {
      assert updated[1..] == workers[1..];
    } else {
      OutgoingUpdate(workers[1..], i - 1, w, x);
      assert updated[1..] == workers[1..][i - 1 := w];
    }
  }

  lemma {:induction false} NothingOutgoing(workers: seq<Worker>)
    requires forall i :: 0 <= i < |workers| ==> !workers[i].Sending?
    ensures Outgoing(workers) == []
  {
    if workers != [] {
      assert !workers[0].Sending?;
      NothingOutgoing(workers[1..]);
    }
  }

  /** 1 when the step sends the answer into the buffer, else 0. */
  function Sends(p: Pool, a: Action, x: Answer): nat
    requires Enabled(p, a)
  {
    match a case Send(w) => Holds(p.workers[w], x) case _ => 0
  }

  lemma StepOutgoing(p: Pool, a: Action, x: Answer)
    requires Enabled(p, a)
    ensures multiset(Outgoing(Apply(p, a).workers))[x] + Sends(p, a, x) == multiset(Outgoing(p.workers))[x] + multiset(Measured(p, a))[x]
  {
    hide Outgoing;
    match a
    case Handoff(w) => OutgoingUpdate(p.workers, w, Working(p.sent), x);
    case Perform(w, sample) => OutgoingUpdate(p.workers, w, Sending(Answer(p.workers[w].job, sample)), x);
    case Send(w) => OutgoingUpdate(p.workers, w, Waiting, x);
    case Exit(w) => OutgoingUpdate(p.workers, w, Exited, x);
    case _ =>
  }

  lemma StepChannel(p: Pool, a: Action, x: Answer)
    requires Enabled(p, a)
    ensures multiset(Apply(p, a).buffer)[x] + multiset(Apply(p, a).received)[x] ==
      multiset(p.buffer)[x] + multiset(p.received)[x] + Sends(p, a, x)
  {
    if a.Receive? { assert p.buffer == [p.buffer[0]] + p.buffer[1..]; }
  }

  lemma StepKeepsCopies(p: Pool, a: Action, x: Answer)
    requires Enabled(p, a)
    ensures Copies(Apply(p, a), x) == Copies(p, x) + multiset(Measured(p, a))[x]
  {
    StepOutgoing(p, a, x);
    StepChannel(p, a, x);
    hide Apply, Measured, Sends, Outgoing;
  }

  lemma {:induction false} RunKeepsCopies(p: Pool, schedule: seq<Action>, q: Pool, x: Answer)
    requires Reaches(p, schedule, q)
    ensures Copies(q, x) == Copies(p, x) + multiset(Performed(p, schedule))[x]
    decreases |schedule|
  {
    hide Copies, Measured, Apply, Enabled;
    if schedule != [] {
      StepKeepsCopies(p, schedule[0], x);
      RunKeepsCopies(Apply(p, schedule[0]), schedule[1..], q, x);
    }
  }

  /**
   Nothing is changed, lost or invented on the way. Each answer received is one that was measured
   for its job, and the collector ends with all of them, each as often as it was measured.
   */
  lemma CollectedIsPerformed(requests: nat, concurrency: nat, schedule: seq<Action>, p: Pool)
    requires concurrency > 0 && Reaches(Initial(requests, concurrency), schedule, p)
    ensures forall x :: x in p.received ==> x in Performed(Initial(requests, concurrency), schedule)
    ensures p.collected ==> multiset(p.received) == multiset(Performed(Initial(requests, concurrency), schedule))
  {
    var start := Initial(requests, concurrency);
    var performed := Performed(start, schedule);
    InitialInv(requests, concurrency);
    RunKeepsInv(start, schedule, p);
    forall x ensures multiset(p.received)[x] <= multiset(performed)[x]
      && (p.collected ==> multiset(p.received)[x] == multiset(performed)[x])
    {
      RunKeepsCopies(start, schedule, p, x);
      StartHoldsNothing(requests, concurrency, x);
      if p.collected { EndHoldsReceived(p, x); }
    }
    hide Performed, Inv, Reaches, Initial, Copies;
    forall x | x in p.received ensures x in performed { assert x in multiset(p.received); assert x in multiset(performed); }
  }

  lemma StartHoldsNothing(requests: nat, concurrency: nat, x: Answer)
    ensures Copies(Initial(requests, concurrency), x) == 0
  {
    NothingOutgoing(Initial(requests, concurrency).workers);
  }

  lemma EndHoldsReceived(p: Pool, x: Answer)
    requires Inv(p) && p.collected
    ensures Copies(p, x) == multiset(p.received)[x]
  {
    TotalBounds(p.workers);
    NothingOutgoing(p.workers);
  }
}
