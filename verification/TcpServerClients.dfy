/**
 Every client of every run seen as one connection: which socket calls were made on it since it was accepted, and
 what the socket theorems therefore say about it while other clients come, go and exchange messages with it.
 */
module TcpServerClients {
  import opened Sequences
  import opened TcpSocketSpec
  import opened TcpServerSpec
  import opened TcpServerRuns

  /** The client at address a is still the same connection after the call. */
  predicate Survives(s: Server, op: Op, a: Addr) {
    && a in s.heap
    && !op.ListenOp? && !op.DestroyOp?
    && (op.PollOp? ==> a !in s.disconnected)
  }

  /** The socket calls that one server call makes on the client at address a. */
  ghost function Calls(s: Server, op: Op, a: Addr): (calls: seq<Call>)
    requires Serviceable(s, s.receive)
    ensures AllLegal(calls)
  {
    match op
    case RoundOp(turns, finished) => RoundCalls(s, turns, finished, a)
    case AppSend(m) => SendCalls(To([m], a))
    case _ => []
  }

  /** The socket calls made on the client at address a since it was accepted. */
  ghost function History(ops: seq<Op>, a: Addr): (calls: seq<Call>)
    ensures AllLegal(calls)
  {
    if ops == [] || a !in TcpServerRuns.Run(ops).heap then []
    else
      var before, op := ops[..|ops| - 1], ops[|ops| - 1];
      var s := TcpServerRuns.Run(before);
      ListsLive(s);
      if Survives(s, op, a) then History(before, a) + Calls(s, op, a)
      else [ConnectCall(TcpServerRuns.Run(ops).heap[a].fd)]
  }

  /** The connection of the client at address a: its socket with the bytes that have crossed it. */
  ghost function Connection(ops: seq<Op>, a: Addr): Session {
    TcpSocketSpec.Run(Fresh, History(ops, a))
  }

  // ---- One call ----

  /** Sends and I/O turns: the calls that neither open nor close the connection. */
  predicate Ordinary(calls: seq<Call>) {
    forall k :: 0 <= k < |calls| ==> calls[k].SendCall? || calls[k].IoCall?
  }

  lemma {:induction false} LoopIsOrdinary(
      heap: map<Addr, Socket>, list: seq<Addr>, turns: seq<ClientTurn>, k: nat, a: Addr)
    requires forall j :: 0 <= j < |list| ==> list[j] in heap
    ensures Ordinary(LoopCalls(heap, list, turns, k, a))
    decreases |list|
  {
    if list != [] {
      SendCallsAreSends(To(TurnFor(turns, k).messages, a));
      LoopIsOrdinary(heap, list[1..], turns, k + 1, a);
    }
  }

  lemma CallsAreOrdinary(s: Server, op: Op, a: Addr)
    requires Serviceable(s, s.receive)
    ensures Ordinary(Calls(s, op, a))
  {
    if op.RoundOp? {
      LoopIsOrdinary(s.heap, s.receive, op.turns, 0, a);
      SendCallsAreSends(To(op.finished, a));
    } else if op.AppSend? {
      SendCallsAreSends(To([op.message], a));
    }
  }

  /** A surviving client is in the state that the calls made on it lead to. */
  lemma SurvivorStep(s: Server, op: Op, a: Addr, c: Session)
    requires Inv(s) && Survives(s, op, a) && c.socket == s.heap[a]
    ensures Serviceable(s, s.receive)
    ensures a in Step(s, op).heap && TcpSocketSpec.Run(c, Calls(s, op, a)).socket == Step(s, op).heap[a]
  {
    ListsLive(s);
    assert s.efd >= 0;
    match op
    case PollOp(answer) => PollInv(s, answer);
    case RoundOp(turns, finished) => RoundEffect(s, turns, finished, a, c);
    case AppSend(m) =>
      QueueEachIs(s, [m]);
      SendEachIsRun(c, To([m], a));
  }

  /** A client that is not a survivor was accepted in this call. */
  lemma NewcomerStep(s: Server, op: Op, a: Addr)
    requires Inv(s) && !Survives(s, op, a) && a in Step(s, op).heap
    ensures IsNew(Step(s, op).heap[a])
  {
    ListsLive(s);
    match op
    case ListenOp(answer) => ListenInv(s, answer);
    case PollOp(answer) => PollInv(s, answer);
    case RoundOp(turns, finished) => RoundServicesEach(s, turns, finished);
    case AppSend(m) => QueueEachIs(s, [m]);
    case DestroyOp =>
      InvDestroyable(s);
      DestroyCleans(s);
  }

  // ---- Whole runs ----

  /** Neither sends nor I/O turns move a socket to another descriptor. */
  lemma {:induction false} OrdinaryKeepsDescriptor(c: Session, calls: seq<Call>)
    requires Fits(c.socket) && AllLegal(calls) && Ordinary(calls)
    ensures TcpSocketSpec.Run(c, calls).socket.fd == c.socket.fd
    decreases |calls|
  {
    if calls != [] {
      var before, last := calls[..|calls| - 1], calls[|calls| - 1];
      OrdinaryKeepsDescriptor(c, before);
      if last.IoCall? {
        KeepsDescriptor(TcpSocketSpec.Run(c, before).socket, last.turn);
      }
    }
  }

  /** A history of one connection on descriptor fd. */
  ghost predicate OneConnection(calls: seq<Call>, fd: int) {
    && |calls| > 0 && calls[0] == ConnectCall(fd) && Ordinary(calls[1..])
  }

  /** The history h leads to socket c, over one connection. */
  ghost predicate Leads(h: seq<Call>, c: Socket) {
    && AllLegal(h) && OneConnection(h, c.fd)
    && TcpSocketSpec.Run(Fresh, h).socket == c
  }

  lemma Begins(c: Socket)
    requires IsNew(c)
    ensures Leads([ConnectCall(c.fd)], c)
  {
    RunOne(Fresh, ConnectCall(c.fd));
  }

  lemma Continues(h: seq<Call>, c: Socket, calls: seq<Call>, c': Socket)
    requires Leads(h, c) && AllLegal(calls) && Ordinary(calls)
    requires TcpSocketSpec.Run(TcpSocketSpec.Run(Fresh, h), calls).socket == c'
    ensures Leads(h + calls, c')
  {
    TcpSocketSpec.RunAppend(Fresh, h, calls);
    OrdinaryKeepsDescriptor(TcpSocketSpec.Run(Fresh, h), calls);
    SameConnection(h, c.fd, calls);
  }

  lemma SameConnection(h: seq<Call>, fd: int, calls: seq<Call>)
    requires OneConnection(h, fd) && Ordinary(calls)
    ensures OneConnection(h + calls, fd)
  {
    assert (h + calls)[1..] == h[1..] + calls;
  }

  /** One call carries the histories of all clients on. */
  lemma HistoryStep(s: Server, op: Op, a: Addr, h: seq<Call>)
    requires Inv(s) && a in Step(s, op).heap
    requires a in s.heap ==> Leads(h, s.heap[a])
    ensures Serviceable(s, s.receive)
    ensures Leads(if Survives(s, op, a) then h + Calls(s, op, a) else [ConnectCall(Step(s, op).heap[a].fd)],
                  Step(s, op).heap[a])
  {
    ListsLive(s);
    if Survives(s, op, a) {
      SurvivorStep(s, op, a, TcpSocketSpec.Run(Fresh, h));
      CallsAreOrdinary(s, op, a);
      Continues(h, s.heap[a], Calls(s, op, a), Step(s, op).heap[a]);
    } else {
      NewcomerStep(s, op, a);
      Begins(Step(s, op).heap[a]);
    }
  }

  /**
   After every run the socket of every client is the result of exactly the calls made on it since it was
   accepted: one connection on the descriptor it is registered under, then sends and I/O turns.
   */
  lemma {:induction false} ClientIsItsHistory(ops: seq<Op>, a: Addr)
    requires a in TcpServerRuns.Run(ops).heap
    ensures Leads(History(ops, a), TcpServerRuns.Run(ops).heap[a])
  {
    var before, op := ops[..|ops| - 1], ops[|ops| - 1];
    var s := TcpServerRuns.Run(before);
    if a in s.heap {
      ClientIsItsHistory(before, a);
    }
    HistoryStep(s, op, a, History(before, a));
  }

  /**
   Send conservation for every client of every run: the bytes the kernel accepted on its descriptor followed by
   its send buffer are the payloads of the successful sends to it, in order, whoever made them: the application,
   its own callback, another client's callback or the receive-finished callback.
   */
  lemma EveryClientConserves(ops: seq<Op>, a: Addr)
    requires a in TcpServerRuns.Run(ops).heap
    ensures var c := Connection(ops, a);
      c.transmitted + TcpServerRuns.Run(ops).heap[a].outgoing == c.accepted
  {
    ClientIsItsHistory(ops, a);
    SendConservation(History(ops, a));
  }

  /** A client is flagged exactly when one of its own turns since it was accepted broke one of its sides. */
  lemma EveryFlagHasACause(ops: seq<Op>, a: Addr)
    requires a in TcpServerRuns.Run(ops).heap
    ensures Flagged(TcpServerRuns.Run(ops).heap[a]) <==>
      BrokenSince(History(ops, a), true) || BrokenSince(History(ops, a), false)
  {
    ClientIsItsHistory(ops, a);
    FlagsSinceOpening(History(ops, a));
  }

  // ---- Receiving ----

  predicate AllDrain(ops: seq<Op>) {
    forall k :: 0 <= k < |ops| ==> Drains(ops[k])
  }

  predicate Drains(op: Op) {
    op.RoundOp? ==> forall j :: 0 <= j < |op.turns| ==> op.turns[j].keep == 0
  }

  predicate DrainingCalls(calls: seq<Call>) {
    forall k :: 0 <= k < |calls| ==> Draining(calls[k])
  }

  lemma {:induction false} LoopDrains(
      heap: map<Addr, Socket>, list: seq<Addr>, turns: seq<ClientTurn>, k: nat, a: Addr)
    requires forall j :: 0 <= j < |list| ==> list[j] in heap
    requires forall j :: 0 <= j < |turns| ==> turns[j].keep == 0
    ensures DrainingCalls(LoopCalls(heap, list, turns, k, a))
    decreases |list|
  {
    if list != [] {
      SendCallsAreSends(To(TurnFor(turns, k).messages, a));
      LoopDrains(heap, list[1..], turns, k + 1, a);
    }
  }

  lemma CallsDrain(s: Server, op: Op, a: Addr)
    requires Serviceable(s, s.receive) && Drains(op)
    ensures DrainingCalls(Calls(s, op, a))
  {
    if op.RoundOp? {
      LoopDrains(s.heap, s.receive, op.turns, 0, a);
      SendCallsAreSends(To(op.finished, a));
    } else if op.AppSend? {
      SendCallsAreSends(To([op.message], a));
    }
  }

  lemma {:induction false} HistoryDrains(ops: seq<Op>, a: Addr)
    requires AllDrain(ops)
    ensures DrainingCalls(History(ops, a))
  {
    if ops != [] {
      var before, op := ops[..|ops| - 1], ops[|ops| - 1];
      assert AllDrain(before) && Drains(op);
      HistoryDrains(before, a);
      DrainStep(TcpServerRuns.Run(before), op, a, History(before, a));
    }
  }

  lemma DrainStep(s: Server, op: Op, a: Addr, h: seq<Call>)
    requires Inv(s) && Drains(op) && DrainingCalls(h)
    ensures Serviceable(s, s.receive) && DrainingCalls(h + Calls(s, op, a))
  {
    ListsLive(s);
    CallsDrain(s, op, a);
  }

  /**
   With callbacks that consume everything, each client's callback has been shown exactly the bytes its connection
   delivered, in order and without mixing, and its receive buffer is empty between calls.
   */
  lemma EveryClientIsShownItsStream(ops: seq<Op>, a: Addr)
    requires AllDrain(ops) && a in TcpServerRuns.Run(ops).heap
    ensures var c := Connection(ops, a);
      && Flatten(c.shown) == c.taken
      && TcpServerRuns.Run(ops).heap[a].incoming == []
  {
    ClientIsItsHistory(ops, a);
    HistoryDrains(ops, a);
    DrainingShowsStream(History(ops, a));
  }
}
