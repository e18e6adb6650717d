/** From log calls to file contents: the format expander, the queue and both threads together. */
module LoggerEndToEnd {
  import opened Sequences
  import opened SpscQueue
  import opened LogElements
  import opened LogFormat
  import opened LoggerProtocol
  import LoggerLiveness

  datatype Call = Call(format: string, args: seq<Arg>)

  /** In a debug build a call must have as many arguments as holes; a release build accepts any call. */
  predicate Admissible(calls: seq<Call>, debug: bool) {
    debug ==> forall k :: 0 <= k < |calls| ==> Holes(Parse(calls[k].format)) == |calls[k].args|
  }

  /** Everything the application thread pushes for a list of calls. */
  ghost function Program(calls: seq<Call>, debug: bool): seq<LogElement> {
    if calls == [] then []
    else Expand(Parse(calls[0].format), calls[0].args, debug).pushed + Program(calls[1..], debug)
  }

  /** The texts of the calls, one after the other. */
  ghost function Text(calls: seq<Call>, number: Payload -> string): string {
    if calls == [] then ""
    else CallText(calls[0].format, calls[0].args, number) + Text(calls[1..], number)
  }

  lemma {:induction false} ProgramText(calls: seq<Call>, debug: bool, number: Payload -> string)
    requires Admissible(calls, debug)
    ensures WellTagged(Program(calls, debug))
    ensures Render(Program(calls, debug), number) == Text(calls, number)
  {
    if calls != [] {
      var c, rest := calls[0], calls[1..];
      var segs := Parse(c.format);
      ProgramText(rest, debug, number);
      ExpandIsWellTagged(segs, c.args, debug);
      Arity(segs, c.args);
      BuildsAgree(segs, c.args);
      LogRendersCall(c.format, c.args, number);
      RenderAppend(Expand(segs, c.args, debug).pushed, Program(rest, debug), number);
    }
  }

  ghost function JobOf(calls: seq<Call>, debug: bool, number: Payload -> string): Job {
    Job(Program(calls, debug), number)
  }

  /**
   Safety, end to end: for every list of calls, every capacity, every number format and every
   interleaving, the file is always a beginning of the calls' texts in order, and all of it once the
   destructor has returned.
   */
  lemma EndToEnd(store: seq<Slot<LogElement>>, calls: seq<Call>, debug: bool, number: Payload -> string,
                 schedule: seq<Thread>)
    requires |store| > 0 && Admissible(calls, debug)
    ensures var job := JobOf(calls, debug, number);
      && LoggerProtocol.Inv(Start(store, job), job)
      && var l := Run(Start(store, job), job, schedule);
      && !l.fault
      && l.file <= Text(calls, number)
      && (l.app == Closed ==> l.file == Text(calls, number))
  {
    ProgramText(calls, debug, number);
    NothingLost(store, JobOf(calls, debug, number), schedule);
  }

  /** Total correctness: a fair schedule of that many rounds completes with the whole text in the file. */
  lemma EndToEndTotal(store: seq<Slot<LogElement>>, calls: seq<Call>, debug: bool, number: Payload -> string,
                      rounds: seq<seq<Thread>>)
    requires |store| > 0 && Admissible(calls, debug)
    requires forall k :: 0 <= k < |rounds| ==> LoggerLiveness.FairRound(rounds[k])
    requires |rounds| >= 8 * |Program(calls, debug)| + 4
    ensures var job := JobOf(calls, debug, number);
      && LoggerProtocol.Inv(Start(store, job), job)
      && var l := Run(Start(store, job), job, Flatten(rounds));
      && l.app == Closed && l.background == Exited
      && l.file == Text(calls, number)
  {
    var job := JobOf(calls, debug, number);
    ProgramText(calls, debug, number);
    StartInv(store, job);
    LoggerLiveness.FairTermination(Start(store, job), job, rounds);
  }
}
