/**
 The logger always shuts down: under every fair schedule all pushes complete, the destructor returns and
 the background thread exits, whatever the queue capacity and however long the messages are.
 */
module LoggerLiveness {
  import opened Sequences
  import opened SpscQueue
  import opened LogElements
  import opened LoggerProtocol

  // ---- Measures ----

  function PushesDone(p: Producer<LogElement>): nat {
    match p
    case PIdle => 0
    case PGranted => 1
    case PSlot(_) => 2
    case PWriting(_, _) => 3
    case PWritten(_) => 4
    case PLoaded(_, _) => 5
    case PStored(_) => 6
  }

  /** Steps the application still has to take, not counting the turns it spends waiting. */
  function AppWork(l: Logger): int {
    match l.app
    case Pushing => 7 * |l.todo| - PushesDone(l.q.producer) + 4
    case Draining => 3
    case Stopping => 2
    case Joining => 1
    case Closed => 0
  }

  /** Elements whose slot the background thread has not given back yet. */
  function Unreleased(l: Logger, job: Job): int {
    |job.program| - l.q.released + CPending(l.q)
  }

  function Work(l: Logger, job: Job): int {
    AppWork(l) + Unreleased(l, job)
  }

  /** Turns the background thread needs to give back the next slot when the queue is not empty. */
  function ToRelease(l: Logger): nat {
    match l.background
    case Sleeping => 9
    case Testing => 8
    case Exited => 0
    case Flushing =>
      match l.q.consumer
      case CIdle => 7
      case CGranted => 6
      case CSlot(_) => 5
      case CReading(_, _) => 4
      case CRead(_) => 3
      case CLoaded(_, _) => 2
      case CStored(_) => 1
  }

  /** Turns the background thread needs to exit once the running flag is false and the queue empty. */
  function ToExit(l: Logger): nat {
    match l.background
    case Flushing => 3
    case Sleeping => 2
    case Testing => 1
    case Exited => 0
  }

  function Delay(l: Logger): nat {
    if l.app == Joining then ToExit(l) else ToRelease(l)
  }

  /** The application's next step would leave everything as it is. */
  predicate Waiting(l: Logger) {
    || (l.app == Pushing && l.todo != [] && l.q.producer.PIdle? && l.q.ring.count == |l.q.ring.store|)
    || (l.app == Draining && l.q.ring.count != 0)
    || (l.app == Joining && l.background != Exited)
  }

  lemma WorkIsNatural(l: Logger, job: Job)
    requires LoggerProtocol.Inv(l, job)
    ensures Work(l, job) >= 0
    ensures Waiting(l) ==> Delay(l) > 0
  {
  }

  /** An application turn either does one of the remaining steps or waits without changing anything. */
  lemma AppTurn(l: Logger, job: Job)
    requires InBounds(l.q) && Lags(l.q) && Pushed(l, job.program) && l.app != Closed
    ensures var l' := AppStep(l);
      if Waiting(l) then l' == l else Work(l', job) == Work(l, job) - 1
  {
  }

  /** A background turn never adds work; while the application waits it gets closer to letting it go on. */
  lemma WorkerTurn(l: Logger, job: Job)
    requires InBounds(l.q) && Lags(l.q) && Handshake(l)
    ensures var l' := WorkerStep(l, job.number);
      && Work(l', job) <= Work(l, job)
      && (Work(l', job) == Work(l, job) ==>
            && l'.app == l.app
            && (Waiting(l') ==> Waiting(l))
            && (Waiting(l) ==> Delay(l') <= Delay(l) - 1))
  {
  }

  lemma AnyTurn(l: Logger, job: Job, t: Thread)
    requires InBounds(l.q) && Lags(l.q) && Pushed(l, job.program) && Handshake(l)
    ensures var l' := LoggerProtocol.Step(l, t, job.number);
      Work(l', job) <= Work(l, job) && (l.app == Closed ==> l'.app == Closed)
  {
    if t == Worker {
      WorkerTurn(l, job);
    } else if l.app != Closed {
      AppTurn(l, job);
    }
  }

  lemma {:induction false} WorkNeverGrows(l: Logger, job: Job, schedule: seq<Thread>)
    requires LoggerProtocol.Inv(l, job)
    ensures Work(Run(l, job, schedule), job) <= Work(l, job)
    ensures l.app == Closed ==> Run(l, job, schedule).app == Closed
    decreases |schedule|
  {
    if schedule != [] {
      LoggerProtocol.StepInv(l, job, schedule[0]);
      AnyTurn(l, job, schedule[0]);
      WorkNeverGrows(LoggerProtocol.Step(l, schedule[0], job.number), job, schedule[1..]);
    }
  }

  // ---- Fair rounds ----

  function WorkerTurns(schedule: seq<Thread>): nat {
    if schedule == [] then 0 else (if schedule[0] == Worker then 1 else 0) + WorkerTurns(schedule[1..])
  }

  /** A stretch of a schedule in which the background thread gets nine turns and the application the last one. */
  predicate FairRound(round: seq<Thread>) {
    round != [] && round[|round| - 1] == Application && WorkerTurns(round) >= 9
  }

  lemma {:induction false} RoundProgress(l: Logger, job: Job, round: seq<Thread>)
    requires LoggerProtocol.Inv(l, job) && l.app != Closed
    requires round != [] && round[|round| - 1] == Application
    requires Waiting(l) ==> WorkerTurns(round) >= Delay(l)
    ensures Work(Run(l, job, round), job) < Work(l, job)
    decreases |round|
  {
    var t, rest := round[0], round[1..];
    LoggerProtocol.StepInv(l, job, t);
    WorkIsNatural(l, job);
    var l' := LoggerProtocol.Step(l, t, job.number);
    if t == Application {
      AppTurn(l, job);
      if Waiting(l) {
        assert rest != [] ==> rest[|rest| - 1] == Application;
        RoundProgress(l, job, rest);
      } else {
        WorkNeverGrows(l', job, rest);
      }
    } else {
      WorkerTurn(l, job);
      assert rest[|rest| - 1] == Application;
      if Work(l', job) < Work(l, job) {
        WorkNeverGrows(l', job, rest);
      } else {
        RoundProgress(l', job, rest);
      }
    }
  }

  lemma {:induction false} RunAppend(l: Logger, job: Job, a: seq<Thread>, b: seq<Thread>)
    requires LoggerProtocol.Inv(l, job)
    ensures Run(l, job, a + b) == Run(Run(l, job, a), job, b)
    decreases |a|
  {
    if a == [] {
      assert a + b == b;
    } else {
      LoggerProtocol.StepInv(l, job, a[0]);
      assert (a + b)[1..] == a[1..] + b && (a + b)[0] == a[0];
      RunAppend(LoggerProtocol.Step(l, a[0], job.number), job, a[1..], b);
    }
  }

  /**
   From every reachable state, every schedule made of as many fair rounds as there is work left ends with
   the destructor returned, the background thread gone and the complete text in the file.
   */
  lemma {:induction false} FairTermination(l: Logger, job: Job, rounds: seq<seq<Thread>>)
    requires LoggerProtocol.Inv(l, job)
    requires forall k :: 0 <= k < |rounds| ==> FairRound(rounds[k])
    requires |rounds| >= Work(l, job)
    ensures var l' := Run(l, job, Flatten(rounds));
      && l'.app == Closed && l'.background == Exited
      && l'.file == Render(job.program, job.number)
    decreases |rounds|
  {
    WorkIsNatural(l, job);
    if l.app == Closed {
      WorkNeverGrows(l, job, Flatten(rounds));
      FileIs(Run(l, job, Flatten(rounds)), job);
    } else {
      OpenHasWork(l, job);
      var first, rest := rounds[0], rounds[1..];
      RoundProgress(l, job, first);
      RunAppend(l, job, first, Flatten(rest));
      FairTermination(Run(l, job, first), job, rest);
    }
  }

  lemma OpenHasWork(l: Logger, job: Job)
    requires LoggerProtocol.Inv(l, job) && l.app != Closed
    ensures Work(l, job) > 0
  {
  }

  /** No reachable state is stuck: some finite schedule completes the shutdown from it. */
  lemma NeverStuck(l: Logger, job: Job)
    requires LoggerProtocol.Inv(l, job)
    ensures exists schedule :: Run(l, job, schedule).app == Closed
  {
    WorkIsNatural(l, job);
    var round := [Worker, Worker, Worker, Worker, Worker, Worker, Worker, Worker, Worker, Application];
    NineTurns(round);
    var rounds := seq(Work(l, job), _ => round);
    FairTermination(l, job, rounds);
    assert Run(l, job, Flatten(rounds)).app == Closed;
  }

  lemma NineTurns(round: seq<Thread>)
    requires |round| == 10 && round[9] == Application
    requires forall k :: 0 <= k < 9 ==> round[k] == Worker
    ensures FairRound(round)
  {
    WorkersCount(round, 9);
  }

  lemma {:induction false} WorkersCount(round: seq<Thread>, n: nat)
    requires n <= |round| && forall k :: 0 <= k < n ==> round[k] == Worker
    ensures WorkerTurns(round) >= n
  {
    if n > 0 {
      WorkersCount(round[1..], n - 1);
    }
  }
}
