/** The server object of src/tcp_server.cpp, updated in place and proved against TcpServerSpec. */
module TcpServer {
  import opened Sequences
  import opened Wrappers
  import opened TcpSocketSpec
  import opened TcpServerSpec
  import opened TcpServerRuns
  import opened TcpServerExact

  class TCPServer {
    var efd: int
    var listener: Socket
    var sockets: seq<Addr>
    var receiveSockets: seq<Addr>
    var sendSockets: seq<Addr>
    var disconnectedSockets: seq<Addr>
    var heap: map<Addr, Socket>
    var epoll: map<int, Addr>
    var trace: seq<Event>

    ghost function State(): Server
      reads this
    {
      Server(efd, listener, sockets, receiveSockets, sendSockets, disconnectedSockets, heap, epoll, trace)
    }

    ghost predicate Valid()
      reads this
    {
      Inv(State())
    }

    constructor ()
      ensures Valid() && State() == NewServer()
    {
      efd, listener := -1, NewSocket();
      sockets, receiveSockets, sendSockets, disconnectedSockets := [], [], [], [];
      heap, epoll, trace := map[], map[], [];
      new;
      NewServerInv();
    }

    // ---- Descriptors and memory ----

    method CloseDescriptor(fd: int)
      modifies this`epoll, this`trace
      ensures State() == Close(old(State()), fd)
    {
      epoll := epoll - {fd};
      trace := trace + [Released(Desc(fd))];
    }

    method DeleteSocket(a: Addr)
      requires a in heap
      modifies this`heap, this`epoll, this`trace
      ensures State() == Delete(old(State()), a)
    {
      if heap[a].fd >= 0 {
        CloseDescriptor(heap[a].fd);
      }
      heap := heap - {a};
      trace := trace + [Released(Mem(a))];
    }

    method AddToEpoll(a: Addr, fd: int, added: bool) returns (ok: bool)
      modifies this`epoll
      ensures State() == EpollAdd(old(State()), a, fd, added).0
      ensures ok == EpollAdd(old(State()), a, fd, added).1
    {
      if efd < 0 || fd < 0 || !added {
        return false;
      }
      epoll := epoll[fd := a];
      ok := true;
    }

    method Unlink(a: Addr)
      requires a in heap
      modifies this
      ensures State() == TcpServerSpec.Del(old(State()), a)
    {
      var fd := heap[a].fd;
      if efd >= 0 && fd >= 0 {
        epoll := epoll - {fd};
      }
      sockets := EraseRemove(sockets, a);
      receiveSockets := EraseRemove(receiveSockets, a);
      sendSockets := EraseRemove(sendSockets, a);
      disconnectedSockets := EraseRemove(disconnectedSockets, a);
      DeleteSocket(a);
    }

    /** Removes a client completely; the null pointer and the listener are ignored. */
    method Del(a: Addr)
      requires Core(State()) && (a == NULL || a == LISTENER || a in heap)
      modifies this
      ensures Core(State())
      ensures a == NULL || a == LISTENER ==> State() == old(State())
      ensures a in old(heap) ==>
        Removed(old(State()), State(), a) && State() == TcpServerSpec.Del(old(State()), a)
    {
      if a == NULL || a == LISTENER {
        return;
      }
      DelCore(State(), a);
      Unlink(a);
    }

    // ---- destroy and listen ----

    method DeleteClients()
      requires AllLive(State(), sockets)
      modifies this`heap, this`epoll, this`trace
      ensures State() == DeleteAll(old(State()), sockets)
    {
      ghost var goal := DeleteAll(State(), sockets);
      for i := 0 to |sockets|
        invariant AllLive(State(), sockets[i..])
        invariant DeleteAll(State(), sockets[i..]) == goal
      {
        ghost var rest := sockets[i..];
        assert rest[0] == sockets[i] && rest[1..] == sockets[i + 1..];
        DelKeepsOthers(State(), rest);
        DeleteSocket(sockets[i]);
      }
    }

    method DestroyParts()
      requires AllLive(State(), sockets)
      modifies this
      ensures State() == TcpServerSpec.Destroy(old(State()))
    {
      DeleteClients();
      sockets := [];
      receiveSockets := [];
      sendSockets := [];
      disconnectedSockets := [];
      if efd >= 0 {
        trace := trace + [Released(Desc(efd))];
        epoll := map[];
        efd := -1;
      }
      var (l, closed) := TcpSocketSpec.Destroy(listener);
      if closed.Some? {
        CloseDescriptor(closed.value);
      }
      listener := l;
    }

    /** Everything is given back: the trace replays to nothing held. */
    method Destroy()
      requires Valid()
      modifies this
      ensures Valid() && State() == TcpServerSpec.Destroy(old(State()))
      ensures Clean(State()) && Replay(trace) == Some({})
    {
      InvDestroyable(State());
      DestroyCleans(State());
      DestroyParts();
    }

    method OpenParts(answer: ListenAnswer) returns (ok: bool)
      requires AllLive(State(), sockets)
      modifies this
      ensures State() == TcpServerSpec.Listen(old(State()), answer).0
      ensures ok == TcpServerSpec.Listen(old(State()), answer).1
    {
      DestroyParts();
      efd := if answer.efd < 0 then -1 else answer.efd;
      if efd < 0 {
        return false;
      }
      trace := trace + [Acquired(Desc(efd))];
      if answer.fd < 0 || answer.fd == answer.efd {
        DestroyParts();
        return false;
      }
      listener := NewSocket().(fd := answer.fd);
      trace := trace + [Acquired(Desc(answer.fd))];
      ok := AddToEpoll(LISTENER, answer.fd, answer.added);
      if !ok {
        DestroyParts();
      }
    }

    /** Opens the server, or leaves it clean. */
    method Listen(answer: ListenAnswer) returns (ok: bool)
      requires Valid()
      modifies this
      ensures Valid() && State() == TcpServerSpec.Listen(old(State()), answer).0
      ensures ok == TcpServerSpec.Listen(old(State()), answer).1
      ensures ok <==> answer.efd >= 0 && answer.fd >= 0 && answer.fd != answer.efd && answer.added
      ensures ok ==> efd == answer.efd && listener == NewSocket().(fd := answer.fd)
      ensures ok ==> epoll == map[answer.fd := LISTENER] && sockets == []
      ensures !ok ==> Clean(State()) && Replay(trace) == Some({})
    {
      ListenInv(State(), answer);
      ListenExact(State(), answer);
      ok := OpenParts(answer);
    }

    // ---- poll ----

    method ReapDisconnected()
      requires Core(State())
      modifies this
      ensures State() == Reap(old(State()).(disconnected := []), old(disconnectedSockets))
    {
      ListsLive(State());
      ClearedCore(State());
      var disconnected := disconnectedSockets;
      disconnectedSockets := [];
      ghost var goal := Reap(State(), disconnected);
      for i := 0 to |disconnected|
        invariant Core(State()) && AllLive(State(), disconnected[i..])
        invariant Reap(State(), disconnected[i..]) == goal
      {
        ghost var rest := disconnected[i..];
        assert rest[0] == disconnected[i] && rest[1..] == disconnected[i + 1..];
        DelKeepsOthers(State(), rest);
        Del(disconnected[i]);
      }
    }

    method InterpretEvents(events: seq<EpollEvent>) returns (haveNewConnection: bool)
      modifies this`receiveSockets, this`sendSockets, this`disconnectedSockets
      ensures State() == HandleEvents(old(State()), events).0
      ensures haveNewConnection == HandleEvents(old(State()), events).1
    {
      haveNewConnection := false;
      ghost var goal := HandleEvents(State(), events);
      for i := 0 to |events|
        invariant goal.0 == HandleEvents(State(), events[i..]).0
        invariant goal.1 == (haveNewConnection || HandleEvents(State(), events[i..]).1)
      {
        var e := events[i];
        ghost var rest := events[i..];
        assert rest[0] == e && rest[1..] == events[i + 1..];
        if e.ptr == NULL || !(exists fd :: fd in epoll && epoll[fd] == e.ptr)
           || (e.ptr == LISTENER && !e.error && !e.readable && e.writable) {
          continue;
        }
        if e.error {
          if e.ptr != LISTENER {
            disconnectedSockets := PushUnique(disconnectedSockets, e.ptr);
          }
          continue;
        }
        if e.readable {
          if e.ptr == LISTENER {
            haveNewConnection := true;
            continue;
          }
          receiveSockets := PushUnique(receiveSockets, e.ptr);
        }
        if e.writable {
          sendSockets := PushUnique(sendSockets, e.ptr);
        }
      }
    }

    method AcceptConnection(x: AcceptAnswer)
      requires Acceptable(State(), x)
      modifies this
      ensures State() == AcceptOne(old(State()), x)
    {
      trace := trace + [Acquired(Desc(x.fd))];
      if !x.configured {
        CloseDescriptor(x.fd);
        return;
      }
      heap := heap[x.addr := NewSocket().(fd := x.fd)];
      trace := trace + [Acquired(Mem(x.addr))];
      var ok := AddToEpoll(x.addr, x.fd, x.added);
      if !ok {
        DeleteSocket(x.addr);
        return;
      }
      sockets := PushUnique(sockets, x.addr);
      receiveSockets := PushUnique(receiveSockets, x.addr);
    }

    method AcceptPending(answers: seq<AcceptAnswer>)
      modifies this
      ensures State() == Accepts(old(State()), answers)
    {
      ghost var goal := Accepts(State(), answers);
      var i := 0;
      while i < |answers|
        invariant 0 <= i <= |answers|
        invariant Accepts(State(), answers[i..]) == goal
      {
        var x := answers[i];
        ghost var rest := answers[i..];
        assert rest[0] == x && rest[1..] == answers[i + 1..];
        if !(x.fd >= 0 && x.fd != efd && x.fd != listener.fd && x.fd !in Descriptors(heap)
             && x.addr != NULL && x.addr != LISTENER && x.addr !in heap) {
          break;
        }
        AcceptConnection(x);
        i := i + 1;
      }
    }

    /**
     Removes scheduled clients, reads events, accepts connections: the clients that stay are followed by those
     admitted, each on its own descriptor, and no client has a disconnect flag.
     */
    method Poll(answer: PollAnswer)
      requires Valid()
      modifies this
      ensures Valid() && State() == TcpServerSpec.Poll(old(State()), answer)
      ensures old(efd) >= 0 ==> forall a :: a in heap ==> !Flagged(heap[a])
      ensures old(efd) >= 0 ==> Polled(old(State()), State(), Pending(old(State()), answer))
      ensures old(efd) >= 0 ==>
        forall a :: a in disconnectedSockets <==> Stays(old(State()), a) && Reports(answer, a, true, false)
    {
      PollInv(State(), answer);
      PollPromises(State(), answer);
      if efd < 0 {
        return;
      }
      ReapDisconnected();
      if answer.WaitFailed? {
        return;
      }
      var haveNewConnection := InterpretEvents(Limit(answer.events));
      if haveNewConnection {
        AcceptPending(answer.accepts);
      }
    }

    // ---- sendAndRecv ----

    /** Send calls of the application, in order. */
    method QueueMessages(messages: seq<Message>)
      modifies this`heap
      ensures State() == QueueEach(old(State()), messages)
    {
      ghost var goal := QueueEach(State(), messages);
      for i := 0 to |messages|
        invariant QueueEach(State(), messages[i..]) == goal
      {
        var m := messages[i];
        ghost var rest := messages[i..];
        assert rest[0] == m && rest[1..] == messages[i + 1..];
        if m.to in heap {
          heap := heap[m.to := Send(heap[m.to], Some(m.data), |m.data|).0];
        }
      }
    }

    method ServiceOne(a: Addr, turn: ClientTurn) returns (received: bool)
      requires a in heap && Fits(heap[a])
      modifies this`heap, this`disconnectedSockets
      ensures State() == Service(old(State()), a, turn).0
      ensures received == Service(old(State()), a, turn).1
    {
      var io := TcpSocketSpec.SendAndRecv(heap[a], OwnTurn(turn, a));
      heap := heap[a := io.socket];
      received := io.received;
      if Flagged(io.socket) {
        disconnectedSockets := PushUnique(disconnectedSockets, a);
      }
      if received {
        QueueMessages(Others(turn.messages, a));
      }
    }

    method ServiceReceivers(turns: seq<ClientTurn>) returns (serviced: seq<Addr>, receivedAnything: bool)
      requires Serviceable(State(), receiveSockets)
      modifies this`heap, this`disconnectedSockets
      ensures var r := ReceiveRound(old(State()), receiveSockets, turns, 0);
        State() == r.server && serviced == r.serviced && receivedAnything == r.received
    {
      serviced, receivedAnything := [], false;
      ghost var goal := ReceiveRound(State(), receiveSockets, turns, 0);
      for i := 0 to |receiveSockets|
        invariant Serviceable(State(), receiveSockets[i..])
        invariant Done(goal, ReceiveRound(State(), receiveSockets[i..], turns, i), serviced, receivedAnything)
      {
        ghost var s, rest := State(), receiveSockets[i..];
        var a := receiveSockets[i];
        assert rest[0] == a && rest[1..] == receiveSockets[i + 1..];
        ServiceKeeps(s, a, TurnFor(turns, i), rest[1..]);
        ReceiveStep(goal, s, rest, turns, i, serviced, receivedAnything);
        var received := ServiceOne(a, TurnFor(turns, i));
        serviced := serviced + [a];
        receivedAnything := receivedAnything || received;
      }
    }

    method ServiceSenders(turns: seq<ClientTurn>, k: nat) returns (serviced: seq<Addr>)
      requires Serviceable(State(), sendSockets)
      modifies this`heap, this`disconnectedSockets
      ensures var r := SendRound(old(State()), sendSockets, turns, k);
        State() == r.server && serviced == r.serviced
    {
      serviced := [];
      ghost var goal := SendRound(State(), sendSockets, turns, k);
      for i := 0 to |sendSockets|
        invariant Serviceable(State(), sendSockets[i..])
        invariant Done(goal, SendRound(State(), sendSockets[i..], turns, k + |serviced|), serviced, false)
      {
        ghost var s, rest := State(), sendSockets[i..];
        var a := sendSockets[i];
        assert rest[0] == a && rest[1..] == sendSockets[i + 1..];
        if a !in receiveSockets {
          ServiceKeeps(s, a, TurnFor(turns, k + |serviced|), rest[1..]);
          SendStep(goal, s, rest, turns, k + |serviced|, serviced);
          var _ := ServiceOne(a, TurnFor(turns, k + |serviced|));
          serviced := serviced + [a];
        } else {
          SkipStep(s, rest, turns, k + |serviced|);
        }
      }
    }

    method BothRounds(turns: seq<ClientTurn>, finished: seq<Message>)
      returns (serviced: seq<Addr>, receiveFinished: bool)
      requires Serviceable(State(), receiveSockets) && Serviceable(State(), sendSockets)
      modifies this`heap, this`disconnectedSockets
      ensures var r := TcpServerSpec.SendAndRecv(old(State()), turns, finished);
        State() == r.server && serviced == r.serviced && receiveFinished == r.received
    {
      if efd < 0 {
        return [], false;
      }
      ReceiveRoundKeeps(State(), receiveSockets, turns, 0, sendSockets);
      FinishKeeps(ReceiveRound(State(), receiveSockets, turns, 0), finished, sendSockets);
      serviced, receiveFinished := ServiceReceivers(turns);
      if receiveFinished {
        QueueMessages(finished);
      }
      var more := ServiceSenders(turns, |serviced|);
      serviced := serviced + more;
    }

    /**
     One round of I/O: every owned client once, in the order in which they were accepted.  finished is what the
     receive-finished callback sends if it runs.
     */
    method SendAndRecv(turns: seq<ClientTurn>, finished: seq<Message>)
      returns (serviced: seq<Addr>, receiveFinished: bool)
      requires Valid()
      modifies this
      ensures Valid()
      ensures Serviceable(old(State()), receiveSockets) && Serviceable(old(State()), sendSockets)
      ensures receiveSockets == old(receiveSockets) && sendSockets == old(sendSockets)
      ensures var r := TcpServerSpec.SendAndRecv(old(State()), turns, finished);
        State() == r.server && serviced == r.serviced && receiveFinished == r.received
      ensures serviced == Owned(trace) && trace == old(trace)
      ensures sockets == old(sockets)
      ensures forall a :: a in heap && Flagged(heap[a]) ==> a in disconnectedSockets
    {
      RoundServicesEach(State(), turns, finished);
      serviced, receiveFinished := BothRounds(turns, finished);
    }
  }

  lemma PollPromises(s: Server, answer: PollAnswer)
    requires Inv(s)
    ensures AllLive(s, s.disconnected)
    ensures s.efd >= 0 ==> Polled(s, TcpServerSpec.Poll(s, answer), Pending(s, answer))
    ensures s.efd >= 0 ==> forall a ::
      a in TcpServerSpec.Poll(s, answer).disconnected <==> Stays(s, a) && Reports(answer, a, true, false)
  {
    ListsLive(s);
    if s.efd >= 0 {
      PollAdmits(s, answer);
      forall a
        ensures a in TcpServerSpec.Poll(s, answer).disconnected <==> Stays(s, a) && Reports(answer, a, true, false)
      {
        PollMarks(s, answer, a);
      }
    }
  }

  // ---- List operations ----

  /** addUnique: looks the pointer up and appends it if it is missing. */
  method PushUnique(list: seq<Addr>, a: Addr) returns (r: seq<Addr>)
    ensures r == AddUnique(list, a)
    ensures a in r && list <= r && |r| == |list| + (if a in list then 0 else 1)
    ensures NoDup(list) ==> NoDup(r)
  {
    var i := 0;
    while i < |list| && list[i] != a
      invariant 0 <= i <= |list|
      invariant a !in list[..i]
    {
      i := i + 1;
    }
    if i == |list| {
      assert list[..i] == list;
      r := list + [a];
    } else {
      r := list;
    }
  }

  /** erase-remove: keeps what differs from the pointer, in order. */
  method EraseRemove(list: seq<Addr>, a: Addr) returns (r: seq<Addr>)
    ensures r == Without(list, a)
    ensures r == Keep(list, [a]) && a !in r
  {
    WithoutKeeps(list, a);
    r := [];
    for i := 0 to |list|
      invariant r + Without(list[i..], a) == Without(list, a)
    {
      ghost var rest := list[i..];
      assert rest[0] == list[i] && rest[1..] == list[i + 1..];
      if list[i] != a {
        AppendAssoc(r, [list[i]], Without(rest[1..], a));
        r := r + [list[i]];
      }
    }
  }

  /** The part of a round already done, put in front of the rest, is the whole round. */
  ghost predicate Done(goal: Round, rest: Round, serviced: seq<Addr>, received: bool) {
    && goal.server == rest.server
    && goal.serviced == serviced + rest.serviced
    && goal.received == (received || rest.received)
  }

  lemma ReceiveStep(goal: Round, s: Server, list: seq<Addr>, turns: seq<ClientTurn>, k: nat, done: seq<Addr>, got: bool)
    requires Serviceable(s, list) && list != []
    requires Done(goal, ReceiveRound(s, list, turns, k), done, got)
    ensures var (s', received) := Service(s, list[0], TurnFor(turns, k));
      && Serviceable(s', list[1..])
      && Done(goal, ReceiveRound(s', list[1..], turns, k + 1), done + [list[0]], got || received)
  {
    ServiceKeeps(s, list[0], TurnFor(turns, k), list[1..]);
    var s' := Service(s, list[0], TurnFor(turns, k)).0;
    AppendAssoc(done, [list[0]], ReceiveRound(s', list[1..], turns, k + 1).serviced);
  }

  lemma SkipStep(s: Server, list: seq<Addr>, turns: seq<ClientTurn>, k: nat)
    requires Serviceable(s, list) && list != [] && list[0] in s.receive
    ensures Serviceable(s, list[1..]) && SendRound(s, list, turns, k) == SendRound(s, list[1..], turns, k)
  {
  }

  lemma SendStep(goal: Round, s: Server, list: seq<Addr>, turns: seq<ClientTurn>, k: nat, done: seq<Addr>)
    requires Serviceable(s, list) && list != [] && list[0] !in s.receive
    requires Done(goal, SendRound(s, list, turns, k), done, false)
    ensures var s' := Service(s, list[0], TurnFor(turns, k)).0;
      && Serviceable(s', list[1..])
      && Done(goal, SendRound(s', list[1..], turns, k + 1), done + [list[0]], false)
  {
    ServiceKeeps(s, list[0], TurnFor(turns, k), list[1..]);
    var s' := Service(s, list[0], TurnFor(turns, k)).0;
    AppendAssoc(done, [list[0]], SendRound(s', list[1..], turns, k + 1).serviced);
  }
}
