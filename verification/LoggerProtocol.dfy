/**
 The asynchronous logger of src/logger.cpp as two threads over the step-level queue.

 The application thread pushes the elements of its log calls one by one, spinning while the queue is
 full, and then runs the destructor: wait for an empty queue, clear the running flag, join.  The
 background thread runs flushQueue.  Each step of a thread is one atomic access, or one half of a plain
 slot access.
 */
module LoggerProtocol {
  import opened SpscQueue
  import opened LogElements

  datatype App =
    | Pushing      // inside log calls
    | Draining     // destructor: waiting until size() is zero
    | Stopping     // destructor: about to clear the running flag
    | Joining      // destructor: waiting for the background thread
    | Closed       // file closed, destructor returned

  datatype Background =
    | Testing      // about to load the running flag
    | Flushing     // inside the inner loop; the consumer's program counter says where
    | Sleeping
    | Exited

  datatype Logger = Logger(
    q: State<LogElement>,
    todo: seq<LogElement>,
    app: App,
    background: Background,
    running: bool,
    file: string,
    fault: bool)               // a torn slot was read, or a union member other than the one written

  datatype Thread = Application | Worker

  /** Everything the application will push, and how the stream formats numbers. */
  datatype Job = Job(program: seq<LogElement>, number: Payload -> string)

  ghost function Start(store: seq<Slot<LogElement>>, job: Job): Logger {
    Logger(Init(store), job.program, Pushing, Testing, true, "", false)
  }

  ghost function AppStep(l: Logger): Logger
    requires InBounds(l.q)
  {
    match l.app
    case Pushing =>
      if l.todo == [] then l.(app := Draining)
      else
        l.(q := ProducerStep(l.q, l.todo[0]),
           todo := if l.q.producer.PStored? then l.todo[1..] else l.todo)
    case Draining => if l.q.ring.count == 0 then l.(app := Stopping) else l
    case Stopping => l.(app := Joining, running := false)
    case Joining => if l.background == Exited then l.(app := Closed) else l
    case Closed => l
  }

  /** The switch of flushQueue: the tag comes from the first half of the read, the value from the second. */
  ghost function Emit(l: Logger, seen: Seen<LogElement>, number: Payload -> string): Logger {
    if seen.first.Whole? && seen.last.Whole? && Selects(seen.first.value.tag, seen.last.value.payload) then
      l.(file := l.file + Show(seen.last.value.payload, number))
    else
      l.(fault := true)
  }

  ghost function WorkerStep(l: Logger, number: Payload -> string): Logger
    requires InBounds(l.q)
  {
    match l.background
    case Testing => l.(background := if l.running then Flushing else Exited)
    case Flushing =>
      if l.q.consumer.CIdle? && l.q.ring.count == 0 then l.(background := Sleeping)
      else
        var l' := l.(q := ConsumerStep(l.q));
        if l.q.consumer.CReading? then Emit(l', l'.q.consumer.seen, number) else l'
    case Sleeping => l.(background := Testing)
    case Exited => l
  }

  ghost function Step(l: Logger, t: Thread, number: Payload -> string): Logger
    requires InBounds(l.q)
  {
    if t == Application then AppStep(l) else WorkerStep(l, number)
  }

  // ---- The invariant ----

  /** The application has pushed exactly the beginning of its program and is working on the next element. */
  ghost predicate Pushed(l: Logger, program: seq<LogElement>)
    requires Lags(l.q)
  {
    var q := l.q;
    && q.written <= program
    && l.todo == program[|q.written| - PPending(q)..]
    && (q.producer.PWriting? || q.producer.PWritten? || q.producer.PLoaded? ==>
          l.todo != [] && q.producer.value == l.todo[0])
    && (!q.producer.PIdle? ==> l.todo != [])
    && (l.app != Pushing ==> l.todo == [])
  }

  /** The shutdown handshake. */
  ghost predicate Handshake(l: Logger) {
    && (l.app == Stopping || l.app == Joining || l.app == Closed ==> l.q.ring.count == 0)
    && (l.running <==> l.app == Pushing || l.app == Draining || l.app == Stopping)
    && (l.background != Flushing ==> l.q.consumer.CIdle?)
    && (l.background == Exited ==> !l.running)
    && (l.app == Closed ==> l.background == Exited)
  }

  ghost predicate Inv(l: Logger, job: Job) {
    && SpscQueue.Inv(l.q)
    && WellTagged(job.program)
    && Pushed(l, job.program)
    && Handshake(l)
    && !l.fault
    && l.file == Render(job.program[..|l.q.outputs|], job.number)
  }

  lemma StartInv(store: seq<Slot<LogElement>>, job: Job)
    requires |store| > 0 && WellTagged(job.program)
    ensures Inv(Start(store, job), job)
  {
    InitInv(store);
    var l := Start(store, job);
    assert SpscQueue.Inv(l.q);
    assert Pushed(l, job.program) by {
      assert job.program[0..] == job.program;
    }
    assert job.program[..0] == [];
    assert Render([], job.number) == "";
  }

  lemma PublishKeepsPushed(l: Logger, program: seq<LogElement>)
    requires l.app == Pushing && l.todo != [] && InBounds(l.q)
    requires Lags(l.q) && Lags(ProducerStep(l.q, l.todo[0])) && Pushed(l, program)
    requires l.q.producer.PLoaded? || l.q.producer.PStored?
    ensures Pushed(AppStep(l), program)
  {
    var w := |l.q.written|;
    if l.q.producer.PLoaded? {
      assert l.todo[0] == program[w];
      assert program[..w + 1] == program[..w] + [program[w]];
    } else {
      assert program[w - 1..][1..] == program[w..];
    }
  }

  lemma PushKeepsPushed(l: Logger, program: seq<LogElement>)
    requires l.app == Pushing && l.todo != [] && InBounds(l.q)
    requires Lags(l.q) && Lags(ProducerStep(l.q, l.todo[0])) && Pushed(l, program)
    ensures Pushed(AppStep(l), program)
  {
    if l.q.producer.PLoaded? || l.q.producer.PStored? {
      PublishKeepsPushed(l, program);
    } else {
      var l' := AppStep(l);
      assert l'.todo == l.todo && l'.q.written == l.q.written;
      assert PPending(l'.q) == PPending(l.q) == 0;
    }
  }

  lemma PushKeepsRest(l: Logger, v: LogElement)
    requires InBounds(l.q) && l.app == Pushing && Handshake(l)
    ensures Handshake(l.(q := ProducerStep(l.q, v)))
    ensures ProducerStep(l.q, v).outputs == l.q.outputs
  {
  }

  lemma AppStepInv(l: Logger, job: Job)
    requires Inv(l, job)
    ensures InBounds(l.q) && Inv(AppStep(l), job)
  {
    InvInBounds(l.q);
    if l.app == Pushing && l.todo != [] {
      ProducerStepInv(l.q, l.todo[0]);
      PushKeepsPushed(l, job.program);
      PushKeepsRest(l, l.todo[0]);
    }
  }

  lemma ConsumeKeepsPushed(l: Logger, program: seq<LogElement>)
    requires InBounds(l.q) && Lags(l.q) && Lags(ConsumerStep(l.q)) && Pushed(l, program)
    requires l.background == Flushing && Handshake(l)
    requires l.q.ring.count != 0
    ensures Pushed(l.(q := ConsumerStep(l.q)), program)
    ensures Handshake(l.(q := ConsumerStep(l.q)))
  {
    var q' := ConsumerStep(l.q);
    assert q'.written == l.q.written && q'.producer == l.q.producer;
  }

  /** Finishing a read writes the next element of the program to the file. */
  lemma EmitWritesNext(l: Logger, job: Job, seen: Seen<LogElement>, k: nat)
    requires WellTagged(job.program) && k < |job.program|
    requires !l.fault && l.file == Render(job.program[..k], job.number)
    requires seen == Clean(job.program[k])
    ensures Emit(l, seen, job.number) == l.(file := Render(job.program[..k + 1], job.number))
  {
    var p := job.program;
    assert p[..k + 1] == p[..k] + [p[k]];
    RenderAppend(p[..k], [p[k]], job.number);
    assert Render([p[k]], job.number) == Show(p[k].payload, job.number) + Render([p[k]][1..], job.number);
  }

  lemma ConsumeOutputs(q: State<LogElement>)
    requires InBounds(q)
    ensures ConsumerStep(q).outputs ==
      if q.consumer.CReading? then q.outputs + [ConsumerStep(q).consumer.seen] else q.outputs
  {
  }

  lemma EmitStepInv(l: Logger, job: Job)
    requires Inv(l, job) && InBounds(l.q) && l.background == Flushing && l.q.consumer.CReading?
    ensures Inv(WorkerStep(l, job.number), job)
  {
    ConsumerStepInv(l.q);
    ConsumeKeepsPushed(l, job.program);
    ConsumeOutputs(l.q);
    var k, l' := |l.q.outputs|, l.(q := ConsumerStep(l.q));
    assert l'.q.outputs[k] == Clean(l'.q.written[k]);
    EmitWritesNext(l', job, l'.q.consumer.seen, k);
  }

  lemma ConsumeStepInv(l: Logger, job: Job)
    requires Inv(l, job) && InBounds(l.q) && l.background == Flushing
    requires l.q.ring.count != 0 && !l.q.consumer.CReading?
    ensures Inv(WorkerStep(l, job.number), job)
  {
    ConsumerStepInv(l.q);
    ConsumeKeepsPushed(l, job.program);
    ConsumeOutputs(l.q);
    assert WorkerStep(l, job.number) == l.(q := ConsumerStep(l.q));
  }

  lemma WorkerStepInv(l: Logger, job: Job)
    requires Inv(l, job)
    ensures InBounds(l.q) && Inv(WorkerStep(l, job.number), job)
  {
    InvInBounds(l.q);
    if l.background == Flushing && l.q.ring.count != 0 {
      if l.q.consumer.CReading? {
        EmitStepInv(l, job);
      } else {
        ConsumeStepInv(l, job);
      }
    } else {
      assert WorkerStep(l, job.number).q == l.q;
    }
  }

  lemma StepInv(l: Logger, job: Job, t: Thread)
    requires Inv(l, job)
    ensures InBounds(l.q) && Inv(Step(l, t, job.number), job)
  {
    if t == Application {
      AppStepInv(l, job);
    } else {
      WorkerStepInv(l, job);
    }
  }

  /** The state after the threads take turns as the schedule says. */
  ghost function Run(l: Logger, job: Job, schedule: seq<Thread>): (l': Logger)
    requires Inv(l, job)
    ensures Inv(l', job)
    decreases |schedule|
  {
    if schedule == [] then l
    else
      StepInv(l, job, schedule[0]);
      Run(Step(l, schedule[0], job.number), job, schedule[1..])
  }

  // ---- Safety ----

  /**
   For every schedule the file is the beginning of the program's text and no read was torn or used the
   wrong union member; once the destructor has returned it is the whole text.
   */
  lemma NothingLost(store: seq<Slot<LogElement>>, job: Job, schedule: seq<Thread>)
    requires |store| > 0 && WellTagged(job.program)
    ensures Inv(Start(store, job), job)
    ensures var l := Run(Start(store, job), job, schedule);
      && !l.fault
      && l.file <= Render(job.program, job.number)
      && (l.app == Closed ==> l.background == Exited && l.file == Render(job.program, job.number))
  {
    StartInv(store, job);
    FileIs(Run(Start(store, job), job, schedule), job);
  }

  lemma FileIs(l: Logger, job: Job)
    requires Inv(l, job)
    ensures l.file <= Render(job.program, job.number)
    ensures l.app == Closed ==> l.file == Render(job.program, job.number)
  {
    var p, k := job.program, |l.q.outputs|;
    assert p == p[..k] + p[k..];
    RenderAppend(p[..k], p[k..], job.number);
    if l.app == Closed {
      assert p[k..] == [];
    }
  }
}
