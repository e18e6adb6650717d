/**
 Exactly what accept, poll and listen do with what the kernel and the allocator hand them, told from the answers
 alone, and what becomes of every descriptor and allocation handed over in a run.
 */
module TcpServerExact {
  import opened Sequences
  import opened Wrappers
  import opened TcpSocketSpec
  import opened TcpServerSpec
  import opened TcpServerRuns

  // ---- The two halves of a trace ----

  /** What a trace acquired, in order. */
  ghost function Acquisitions(trace: seq<Event>): seq<Resource> {
    if trace == [] then []
    else
      var last := trace[|trace| - 1];
      Acquisitions(trace[..|trace| - 1]) + if last.Acquired? then [last.r] else []
  }

  /** What a trace gave back, in order. */
  ghost function Releases(trace: seq<Event>): seq<Resource> {
    if trace == [] then []
    else
      var last := trace[|trace| - 1];
      Releases(trace[..|trace| - 1]) + if last.Released? then [last.r] else []
  }

  lemma AcquisitionsSnoc(trace: seq<Event>, e: Event)
    ensures Acquisitions(trace + [e]) == Acquisitions(trace) + if e.Acquired? then [e.r] else []
  {
    assert (trace + [e])[..|trace|] == trace;
  }

  lemma HeldAfter(held: set<Resource>, e: Event)
    requires Next(Some(held), e).Some?
    ensures var held' := Next(Some(held), e).value;
      if e.Acquired? then multiset(held') == multiset(held) + multiset{e.r}
      else multiset(held) == multiset(held') + multiset{e.r}
  {
  }

  /** In a legal trace everything acquired was given back, once for each time it was acquired, or is still held. */
  lemma {:induction false} LegalTraceBalances(trace: seq<Event>)
    requires Replay(trace).Some?
    ensures multiset(Acquisitions(trace)) == multiset(Releases(trace)) + multiset(Replay(trace).value)
  {
    if trace != [] {
      var before, e := trace[..|trace| - 1], trace[|trace| - 1];
      LegalTraceBalances(before);
      HeldAfter(Replay(before).value, e);
      BalanceStep(Acquisitions(before), Releases(before), multiset(Replay(before).value),
                  multiset(Replay(trace).value), e);
    }
  }

  lemma BalanceStep(
      acquired: seq<Resource>, released: seq<Resource>,
      held: multiset<Resource>, held': multiset<Resource>, e: Event)
    requires multiset(acquired) == multiset(released) + held
    requires if e.Acquired? then held' == held + multiset{e.r} else held == held' + multiset{e.r}
    ensures multiset(acquired + if e.Acquired? then [e.r] else []) ==
      multiset(released + if e.Released? then [e.r] else []) + held'
  {
    if e.Acquired? {
      assert multiset(acquired + [e.r]) == multiset(acquired) + multiset{e.r};
      assert released + [] == released;
    } else {
      assert multiset(released + [e.r]) == multiset(released) + multiset{e.r};
      assert acquired + [] == acquired;
    }
  }

  // ---- Giving back acquires nothing ----

  lemma DeleteAcquires(s: Server, a: Addr)
    requires a in s.heap
    ensures Acquisitions(Delete(s, a).trace) == Acquisitions(s.trace)
  {
    var fd := s.heap[a].fd;
    AcquisitionsSnoc(s.trace, Released(Desc(fd)));
    AcquisitionsSnoc(s.trace, Released(Mem(a)));
    AcquisitionsSnoc(s.trace + [Released(Desc(fd))], Released(Mem(a)));
  }

  lemma {:induction false} DeleteAllAcquires(s: Server, list: seq<Addr>)
    requires AllLive(s, list)
    ensures Acquisitions(DeleteAll(s, list).trace) == Acquisitions(s.trace)
    decreases |list|
  {
    if list != [] {
      DeleteAcquires(s, list[0]);
      DelKeepsOthers(s, list);
      DeleteAllAcquires(Delete(s, list[0]), list[1..]);
    }
  }

  lemma {:induction false} ReapAcquires(s: Server, gone: seq<Addr>)
    requires AllLive(s, gone)
    ensures Acquisitions(Reap(s, gone).trace) == Acquisitions(s.trace)
    decreases |gone|
  {
    if gone != [] {
      DeleteAcquires(Unlisted(s, gone[0]), gone[0]);
      DelKeepsOthers(s, gone);
      ReapAcquires(Del(s, gone[0]), gone[1..]);
    }
  }

  lemma CloseEpollAcquires(s: Server)
    ensures Acquisitions(CloseEpoll(s).trace) == Acquisitions(s.trace)
  {
    AcquisitionsSnoc(s.trace, Released(Desc(s.efd)));
  }

  lemma CloseListenerAcquires(s: Server)
    ensures Acquisitions(CloseListener(s).trace) == Acquisitions(s.trace)
  {
    AcquisitionsSnoc(s.trace, Released(Desc(s.listener.fd)));
  }

  lemma DestroyAcquires(s: Server)
    requires AllLive(s, s.sockets)
    ensures Acquisitions(TcpServerSpec.Destroy(s).trace) == Acquisitions(s.trace)
  {
    DeleteAllAcquires(s, s.sockets);
    CloseEpollAcquires(Emptied(s));
    CloseListenerAcquires(CloseEpoll(Emptied(s)));
  }

  // ---- listen ----

  /** What the kernel hands over in listen. */
  function ListenGrants(answer: ListenAnswer): seq<Resource> {
    if answer.efd < 0 then []
    else if answer.fd < 0 || answer.fd == answer.efd then [Desc(answer.efd)]
    else [Desc(answer.efd), Desc(answer.fd)]
  }

  lemma OpenAcquires(s: Server, answer: ListenAnswer)
    requires s.sockets == []
    ensures Acquisitions(Open(s, answer).0.trace) == Acquisitions(s.trace) + ListenGrants(answer)
  {
    if answer.efd >= 0 {
      var s1 := s.(efd := answer.efd, trace := s.trace + [Acquired(Desc(answer.efd))]);
      AcquisitionsSnoc(s.trace, Acquired(Desc(answer.efd)));
      if answer.fd < 0 || answer.fd == answer.efd {
        DestroyAcquires(s1);
      } else {
        var s2 := s1.(listener := NewSocket().(fd := answer.fd),
                      trace := s1.trace + [Acquired(Desc(answer.fd))]);
        AcquisitionsSnoc(s1.trace, Acquired(Desc(answer.fd)));
        DestroyAcquires(EpollAdd(s2, LISTENER, answer.fd, answer.added).0);
      }
    }
  }

  /** listen records every descriptor it is given, on its failing paths too. */
  lemma ListenAcquires(s: Server, answer: ListenAnswer)
    requires AllLive(s, s.sockets)
    ensures Acquisitions(Listen(s, answer).0.trace) == Acquisitions(s.trace) + ListenGrants(answer)
  {
    DestroyAcquires(s);
    OpenAcquires(TcpServerSpec.Destroy(s), answer);
  }

  // ---- accept ----

  /** What the kernel and the allocator hand over with one connection. */
  function Grants(x: AcceptAnswer): seq<Resource> {
    [Desc(x.fd)] + if x.configured then [Mem(x.addr)] else []
  }

  lemma AcquisitionsOfTwo(trace: seq<Event>, e: Event, f: Event)
    ensures Acquisitions(trace + [e, f]) ==
      Acquisitions(trace) + (if e.Acquired? then [e.r] else []) + (if f.Acquired? then [f.r] else [])
  {
    AcquisitionsSnoc(trace, e);
    AcquisitionsSnoc(trace + [e], f);
    assert trace + [e, f] == trace + [e] + [f];
  }

  lemma AcceptAcquires(s: Server, x: AcceptAnswer)
    requires Acceptable(s, x) && s.efd >= 0
    ensures Acquisitions(AcceptOne(s, x).trace) == Acquisitions(s.trace) + Grants(x)
  {
    AcceptTrace(s, x);
    EventsAcquire(s.trace, x);
  }

  lemma EventsAcquire(trace: seq<Event>, x: AcceptAnswer)
    ensures Acquisitions(trace + AcceptEvents(x)) == Acquisitions(trace) + Grants(x)
  {
    var d, m := Desc(x.fd), Mem(x.addr);
    if !x.configured {
      AcquisitionsOfTwo(trace, Acquired(d), Released(d));
    } else {
      AcquisitionsOfTwo(trace, Acquired(d), Acquired(m));
      AcquisitionsOfTwo(trace + [Acquired(d), Acquired(m)], Released(d), Released(m));
      assert !x.added ==>
        trace + AcceptEvents(x) == trace + [Acquired(d), Acquired(m)] + [Released(d), Released(m)];
    }
  }

  /** The connections that accept hands over before it stops, given what is in use. */
  function Accepted(answers: seq<AcceptAnswer>, fds: set<int>, addrs: set<Addr>): seq<AcceptAnswer> {
    if answers == [] then []
    else
      var x := answers[0];
      if x.fd < 0 || x.fd in fds || x.addr in addrs then []
      else if Admits(x) then [x] + Accepted(answers[1..], fds + {x.fd}, addrs + {x.addr})
      else [x] + Accepted(answers[1..], fds, addrs)
  }

  function FdsInUse(s: Server): set<int> {
    {s.efd, s.listener.fd} + Descriptors(s.heap)
  }

  function AddrsInUse(s: Server): set<Addr> {
    {NULL, LISTENER} + s.heap.Keys
  }

  /** The addresses of those that become clients, in order. */
  function Newcomers(xs: seq<AcceptAnswer>): seq<Addr> {
    if xs == [] then []
    else (if Admits(xs[0]) then [xs[0].addr] else []) + Newcomers(xs[1..])
  }

  function AllGrants(xs: seq<AcceptAnswer>): seq<Resource> {
    if xs == [] then [] else Grants(xs[0]) + AllGrants(xs[1..])
  }

  /** Each of those that become clients is a new socket on its own descriptor. */
  ghost predicate Installed(s: Server, xs: seq<AcceptAnswer>) {
    forall k :: 0 <= k < |xs| && Admits(xs[k]) ==>
      xs[k].addr in s.heap && s.heap[xs[k].addr] == NewSocket().(fd := xs[k].fd)
  }

  /** The accept loop turned these connections into clients, in order, and recorded all they brought. */
  ghost predicate Admitted(s: Server, s': Server, xs: seq<AcceptAnswer>) {
    && s'.sockets == s.sockets + Newcomers(xs)
    && Installed(s', xs)
    && Acquisitions(s'.trace) == Acquisitions(s.trace) + AllGrants(xs)
  }

  lemma OneAdmitted(s: Server, s': Server, x: AcceptAnswer)
    requires s'.sockets == s.sockets + (if Admits(x) then [x.addr] else [])
    requires Admits(x) ==> x.addr in s'.heap && s'.heap[x.addr] == NewSocket().(fd := x.fd)
    requires Acquisitions(s'.trace) == Acquisitions(s.trace) + Grants(x)
    ensures Admitted(s, s', [x])
  {
    assert AllGrants([x]) == Grants(x) + AllGrants([]) == Grants(x);
    assert Newcomers([x]) == (if Admits(x) then [x.addr] else []) + Newcomers([]);
  }

  /** What is in use after one connection. */
  lemma InUseAfterAccept(s: Server, x: AcceptAnswer)
    requires Inv(s) && s.efd >= 0 && Acceptable(s, x)
    ensures var s' := AcceptOne(s, x);
      && FdsInUse(s') == (if Admits(x) then FdsInUse(s) + {x.fd} else FdsInUse(s))
      && AddrsInUse(s') == (if Admits(x) then AddrsInUse(s) + {x.addr} else AddrsInUse(s))
  {
    if Admits(x) {
      AcceptAdmitted(s, x);
      DescriptorsUpdate(s.heap, x.addr, NewSocket().(fd := x.fd));
    } else {
      AcceptRefused(s, x);
    }
  }

  lemma AcceptOneExact(s: Server, x: AcceptAnswer)
    requires Inv(s) && s.efd >= 0 && Acceptable(s, x)
    ensures Admitted(s, AcceptOne(s, x), [x])
  {
    AcceptAcquires(s, x);
    if Admits(x) {
      AcceptAdmitted(s, x);
    } else {
      AcceptRefused(s, x);
    }
    OneAdmitted(s, AcceptOne(s, x), x);
  }

  lemma NewcomersCons(x: AcceptAnswer, xs: seq<AcceptAnswer>)
    ensures Newcomers([x] + xs) == Newcomers([x]) + Newcomers(xs)
    ensures AllGrants([x] + xs) == AllGrants([x]) + AllGrants(xs)
  {
    assert ([x] + xs)[1..] == xs;
    assert Newcomers([x]) == (if Admits(x) then [x.addr] else []) + Newcomers([]);
    assert AllGrants([x]) == Grants(x) + AllGrants([]);
  }

  /** Two stretches of admissions make one. */
  lemma AdmittedCons(s: Server, t: Server, u: Server, x: AcceptAnswer, xs: seq<AcceptAnswer>)
    requires Admitted(s, t, [x]) && Extends(t, u) && Admitted(t, u, xs)
    ensures Admitted(s, u, [x] + xs)
  {
    NewcomersCons(x, xs);
    AppendAssoc(s.sockets, Newcomers([x]), Newcomers(xs));
    AppendAssoc(Acquisitions(s.trace), AllGrants([x]), AllGrants(xs));
    InstalledCons(t, u, x, xs);
  }

  lemma InstalledCons(t: Server, u: Server, x: AcceptAnswer, xs: seq<AcceptAnswer>)
    requires Installed(t, [x]) && Extends(t, u) && Installed(u, xs)
    ensures Installed(u, [x] + xs)
  {
    assert [x][0] == x;
  }

  /** The loop's own test for a connection, in terms of what is in use. */
  lemma AcceptableIff(s: Server, x: AcceptAnswer)
    ensures Acceptable(s, x) <==> x.fd >= 0 && x.fd !in FdsInUse(s) && x.addr !in AddrsInUse(s)
  {
  }

  /** The accept loop stops at the first answer that is none, and admits everything before it that can be set up. */
  lemma {:induction false} AcceptsExact(s: Server, answers: seq<AcceptAnswer>)
    requires Inv(s) && s.efd >= 0
    ensures Extends(s, Accepts(s, answers))
    ensures Admitted(s, Accepts(s, answers), Accepted(answers, FdsInUse(s), AddrsInUse(s)))
    decreases |answers|
  {
    if answers != [] {
      var x, rest := answers[0], answers[1..];
      AcceptableIff(s, x);
      if Acceptable(s, x) {
        var t := AcceptOne(s, x);
        var xs := Accepted(rest, FdsInUse(t), AddrsInUse(t));
        AcceptOneInv(s, x);
        AcceptOneExact(s, x);
        InUseAfterAccept(s, x);
        AcceptsExact(t, rest);
        ExtendsTrans(s, t, Accepts(t, rest));
        AdmittedCons(s, t, Accepts(t, rest), x, xs);
        assert Accepted(answers, FdsInUse(s), AddrsInUse(s)) == [x] + xs;
      }
    }
  }

  // ---- poll ----

  /** A client that is not scheduled for removal and so survives the next poll. */
  predicate Stays(s: Server, a: Addr) {
    a in s.heap && a !in s.disconnected
  }

  /** One of the events that fit in the event array announces a connection. */
  ghost predicate Announced(answer: PollAnswer) {
    answer.Waited? && exists k ::
      0 <= k < |answer.events| && k < MAX_EPOLL_EVENTS && AnnouncesConnection(answer.events[k])
  }

  /** One of the events that fit in the event array reports this of the client. */
  ghost predicate Reports(answer: PollAnswer, a: Addr, error: bool, writable: bool) {
    answer.Waited? && exists k ::
      && 0 <= k < |answer.events| && k < MAX_EPOLL_EVENTS
      && answer.events[k].ptr == a && answer.events[k].error == error && (writable ==> answer.events[k].writable)
  }

  /** The connections that the kernel hands over in this poll. */
  ghost function Pending(s: Server, answer: PollAnswer): seq<AcceptAnswer> {
    if Announced(answer)
    then Accepted(answer.accepts,
                  {s.efd, s.listener.fd} + (set a | a in s.heap && a !in s.disconnected :: s.heap[a].fd),
                  {NULL, LISTENER} + (set a | a in s.heap && a !in s.disconnected))
    else []
  }

  /** On an open server epoll can report the listener and exactly the clients. */
  lemma ReportableIff(s: Server, e: EpollEvent)
    requires Registered(s) && Phase(s) && s.efd >= 0
    ensures Reportable(s, e) <==>
      && (e.ptr == LISTENER || e.ptr in s.heap)
      && !(e.ptr == LISTENER && !e.error && !e.readable && e.writable)
  {
  }

  lemma ReportedIff(s: Server, answer: PollAnswer, a: Addr, error: bool, writable: bool)
    requires Registered(s) && Phase(s) && s.efd >= 0 && answer.Waited? && a != LISTENER
    ensures Reported(s, Limit(answer.events), a, error, writable) <==>
      a in s.heap && Reports(answer, a, error, writable)
  {
    var events, first := answer.events, Limit(answer.events);
    assert forall k :: 0 <= k < |first| ==> first[k] == events[k];
    forall k | 0 <= k < |first| && first[k].ptr == a
      ensures Reportable(s, first[k]) <==> a in s.heap
    {
      ReportableIff(s, first[k]);
    }
    if a in s.heap && Reports(answer, a, error, writable) {
      var k :| 0 <= k < |events| && k < MAX_EPOLL_EVENTS
        && events[k].ptr == a && events[k].error == error && (writable ==> events[k].writable);
      assert first[k] == events[k];
    }
  }

  lemma AnnouncedIff(s: Server, answer: PollAnswer)
    requires Registered(s) && Phase(s) && s.efd >= 0 && answer.Waited?
    ensures HandleEvents(s, Limit(answer.events)).1 <==> Announced(answer)
  {
    var events, first := answer.events, Limit(answer.events);
    ConnectionAnnounced(s, first);
    forall k | 0 <= k < |first| && AnnouncesConnection(first[k])
      ensures Reportable(s, first[k])
    {
      ReportableIff(s, first[k]);
    }
    if Announced(answer) {
      var k :| 0 <= k < |events| && k < MAX_EPOLL_EVENTS && AnnouncesConnection(events[k]);
      assert first[k] == events[k];
    }
  }

  /** What the events of a poll do to the lists. */
  lemma EventsExact(s: Server, answer: PollAnswer, a: Addr)
    requires Inv(s) && s.efd >= 0 && answer.Waited?
    ensures var s' := HandleEvents(s, Limit(answer.events)).0;
      && (a in s'.disconnected <==> a in s.disconnected || (a in s.heap && Reports(answer, a, true, false)))
      && (a in s'.send <==> a in s.send || (a in s.heap && Reports(answer, a, false, true)))
  {
    HandleEventsInv(s, Limit(answer.events));
    if a != NULL && a != LISTENER {
      EventsRecorded(s, Limit(answer.events), a);
      ReportedIff(s, answer, a, true, false);
      ReportedIff(s, answer, a, false, true);
    }
  }

  /** What is in use after the removals is what belongs to the listener and to the clients that stay. */
  lemma InUseAfterReap(s: Server, s1: Server)
    requires s1.efd == s.efd && s1.listener == s.listener
    requires forall a :: a in s1.heap <==> a in s.heap && a !in s.disconnected
    requires forall a :: a in s1.heap ==> s1.heap[a] == s.heap[a]
    ensures FdsInUse(s1) ==
      {s.efd, s.listener.fd} + (set a | a in s.heap && a !in s.disconnected :: s.heap[a].fd)
    ensures AddrsInUse(s1) == {NULL, LISTENER} + (set a | a in s.heap && a !in s.disconnected)
  {
    var left := set a | a in s.heap && a !in s.disconnected;
    assert left == s1.heap.Keys by {
      assert forall a :: a in left <==> a in s1.heap;
    }
    forall fd | fd in Descriptors(s1.heap)
      ensures fd in (set a | a in s.heap && a !in s.disconnected :: s.heap[a].fd)
    {
      var a :| a in s1.heap && s1.heap[a].fd == fd;
      assert a in s.heap && a !in s.disconnected && s.heap[a].fd == fd;
    }
    forall a | a in s.heap && a !in s.disconnected
      ensures s.heap[a].fd in Descriptors(s1.heap)
    {
      OwnDescriptor(s1.heap, a);
    }
  }

  /** poll admits the pending connections after the clients that stay. */
  ghost predicate Polled(s: Server, s': Server, pending: seq<AcceptAnswer>) {
    && s'.efd == s.efd && s'.listener == s.listener
    && s'.sockets == Keep(s.sockets, s.disconnected) + Newcomers(pending)
    && Installed(s', pending)
    && Acquisitions(s'.trace) == Acquisitions(s.trace) + AllGrants(pending)
  }

  /** The clients left by the removals, and nobody pending so far. */
  lemma ReapedIs(s: Server)
    requires Inv(s) && s.efd >= 0
    ensures AllLive(s, s.disconnected)
    ensures Polled(s, Reap(s.(disconnected := []), s.disconnected), [])
  {
    ReapScheduled(s);
    ReapAcquires(s.(disconnected := []), s.disconnected);
  }

  lemma PolledThenAdmitted(s: Server, t: Server, u: Server, xs: seq<AcceptAnswer>)
    requires Polled(s, t, []) && Extends(t, u) && Admitted(t, u, xs)
    ensures Polled(s, u, xs)
  {
  }

  /**
   The connections poll admits: if an event announces one, all that the kernel hands over before it stops and
   that can be set up, in order, as new sockets on their own descriptors; otherwise none.
   */
  lemma PollAdmits(s: Server, answer: PollAnswer)
    requires Inv(s) && s.efd >= 0
    ensures AllLive(s, s.disconnected)
    ensures Polled(s, Poll(s, answer), Pending(s, answer))
  {
    ReapedIs(s);
    ReapScheduled(s);
    var s1 := Reap(s.(disconnected := []), s.disconnected);
    if answer.Waited? {
      var s2 := HandleEvents(s1, Limit(answer.events)).0;
      HandleEventsInv(s1, Limit(answer.events));
      AnnouncedIff(s1, answer);
      assert Polled(s, s2, []);
      if Announced(answer) {
        InUseAfterReap(s, s1);
        AcceptsExact(s2, answer.accepts);
        PolledThenAdmitted(s, s2, Accepts(s2, answer.accepts), Pending(s, answer));
      }
    }
  }

  /** What poll does after the removals to the marks. */
  lemma RestMarks(s: Server, answer: PollAnswer, a: Addr)
    requires Inv(s) && s.efd >= 0 && answer.Waited?
    ensures var (s2, announced) := HandleEvents(s, Limit(answer.events));
      var s' := if announced then Accepts(s2, answer.accepts) else s2;
      && (a in s'.disconnected <==> a in s.disconnected || (a in s.heap && Reports(answer, a, true, false)))
      && (a in s'.send <==> a in s.send || (a in s.heap && Reports(answer, a, false, true)))
  {
    var s2 := HandleEvents(s, Limit(answer.events)).0;
    HandleEventsInv(s, Limit(answer.events));
    EventsExact(s, answer, a);
    AcceptsInv(s2, answer.accepts);
  }

  /**
   The marks poll leaves: a client is scheduled for removal exactly when it stayed and an event reports it failed,
   and listed as writable exactly when it stayed and was listed already or an event reports it writable.
   */
  lemma PollMarks(s: Server, answer: PollAnswer, a: Addr)
    requires Inv(s) && s.efd >= 0
    ensures AllLive(s, s.disconnected)
    ensures var s' := Poll(s, answer);
      && (a in s'.disconnected <==> Stays(s, a) && Reports(answer, a, true, false))
      && (a in s'.send <==> Stays(s, a) && (a in s.send || Reports(answer, a, false, true)))
  {
    ReapScheduled(s);
    KeepIs(s.send, s.disconnected, a);
    ListedIsLive(s, s.send, a);
    if answer.Waited? {
      RestMarks(Reap(s.(disconnected := []), s.disconnected), answer, a);
    }
  }

  lemma ListedIsLive(s: Server, list: seq<Addr>, a: Addr)
    requires AllLive(s, list)
    ensures a in list ==> a in s.heap
  {
  }

  // ---- Runs ----

  /** What the kernel and the allocator hand over in one call. */
  ghost function Handed(s: Server, op: Op): seq<Resource> {
    match op
    case ListenOp(answer) => ListenGrants(answer)
    case PollOp(answer) => if s.efd < 0 then [] else AllGrants(Pending(s, answer))
    case _ => []
  }

  /** What they hand over in a run, in order. */
  ghost function HandedOver(ops: seq<Op>): seq<Resource> {
    if ops == [] then []
    else
      var before, op := ops[..|ops| - 1], ops[|ops| - 1];
      HandedOver(before) + Handed(TcpServerRuns.Run(before), op)
  }

  lemma StepAcquires(s: Server, op: Op)
    requires Inv(s)
    ensures Acquisitions(Step(s, op).trace) == Acquisitions(s.trace) + Handed(s, op)
  {
    ListsLive(s);
    match op
    case ListenOp(answer) => ListenAcquires(s, answer);
    case PollOp(answer) =>
      if s.efd >= 0 {
        PollAdmits(s, answer);
      }
    case RoundOp(turns, finished) => RoundServicesEach(s, turns, finished);
    case AppSend(m) => QueueEachIs(s, [m]);
    case DestroyOp => DestroyAcquires(s);
  }

  /** Nothing handed over in a run goes unrecorded: the trace acquires exactly that, in that order. */
  lemma {:induction false} EveryGrantIsRecorded(ops: seq<Op>)
    ensures Acquisitions(TcpServerRuns.Run(ops).trace) == HandedOver(ops)
  {
    if ops != [] {
      var before, op := ops[..|ops| - 1], ops[|ops| - 1];
      EveryGrantIsRecorded(before);
      StepAcquires(TcpServerRuns.Run(before), op);
    }
  }

  lemma DestroyReturns(s: Server)
    requires Inv(s)
    ensures AllLive(s, s.sockets)
    ensures var s' := TcpServerSpec.Destroy(s);
      && Clean(s') && Replay(s'.trace) == Some({})
      && multiset(Releases(s'.trace)) == multiset(Acquisitions(s.trace))
  {
    InvDestroyable(s);
    DestroyCleans(s);
    DestroyAcquires(s);
    LegalTraceBalances(TcpServerSpec.Destroy(s).trace);
  }

  /**
   Over every run that ends in destroy: the descriptors closed and the sockets freed are exactly what the kernel
   and the allocator handed over, each as often as it was handed over and never while it was not held.
   */
  lemma EveryRunBalances(ops: seq<Op>)
    ensures var s := TcpServerRuns.Run(ops);
      && AllLive(s, s.sockets)
      && var s' := TcpServerSpec.Destroy(s);
         && Clean(s') && Replay(s'.trace) == Some({})
         && multiset(Releases(s'.trace)) == multiset(HandedOver(ops))
  {
    EveryGrantIsRecorded(ops);
    DestroyReturns(TcpServerRuns.Run(ops));
  }
}
