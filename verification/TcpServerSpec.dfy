/**
 The epoll server of src/tcp_server.cpp as a value: its lists, the sockets it owns, its epoll registrations,
 and a trace of every descriptor and allocation it acquires and gives back.

 What the kernel and the allocator decide is an input.  An answer that their contract excludes (a descriptor
 that is already open, an address that is already live, an event for a pointer that is not registered) is
 read as a failed call or skipped, so every function is total.  Freed addresses and closed descriptors may
 be handed out again.
 */
module TcpServerSpec {
  import opened Wrappers
  import opened TcpSocketSpec

  type Addr = int

  const NULL: Addr := 0
  const LISTENER: Addr := 1

  datatype Resource = Desc(fd: int) | Mem(a: Addr)

  datatype Event = Acquired(r: Resource) | Released(r: Resource)

  datatype Server = Server(
    efd: int,
    listener: Socket,
    sockets: seq<Addr>,
    receive: seq<Addr>,
    send: seq<Addr>,
    disconnected: seq<Addr>,
    heap: map<Addr, Socket>,     // live client sockets by address
    epoll: map<int, Addr>,       // registered descriptors and the pointer stored with each
    trace: seq<Event>)

  function NewServer(): Server {
    Server(-1, NewSocket(), [], [], [], [], map[], map[], [])
  }

  // ---- Lists ----

  function AddUnique(list: seq<Addr>, a: Addr): seq<Addr> {
    if a in list then list else list + [a]
  }

  /** erase-remove */
  function Without(list: seq<Addr>, a: Addr): seq<Addr> {
    if list == [] then []
    else (if list[0] == a then [] else [list[0]]) + Without(list[1..], a)
  }

  // ---- Descriptors and memory ----

  /** Closing a descriptor also takes it out of the epoll set. */
  function Close(s: Server, fd: int): Server {
    s.(epoll := s.epoll - {fd}, trace := s.trace + [Released(Desc(fd))])
  }

  /** delete socket: the destructor closes the descriptor, then the memory is freed. */
  function Delete(s: Server, a: Addr): Server
    requires a in s.heap
  {
    var s1 := if s.heap[a].fd >= 0 then Close(s, s.heap[a].fd) else s;
    s1.(heap := s1.heap - {a}, trace := s1.trace + [Released(Mem(a))])
  }

  function DeleteAll(s: Server, list: seq<Addr>): Server
    requires AllLive(s, list)
    decreases |list|
  {
    if list == [] then s else DeleteAll(Delete(s, list[0]), list[1..])
  }

  /** Every pointer in the list is live, and none occurs twice. */
  predicate AllLive(s: Server, list: seq<Addr>) {
    && (forall k :: 0 <= k < |list| ==> list[k] in s.heap)
    && NoDup(list)
  }

  predicate NoDup(list: seq<Addr>) {
    forall i, j :: 0 <= i < j < |list| ==> list[i] != list[j]
  }

  function EpollAdd(s: Server, a: Addr, fd: int, ok: bool): (Server, bool) {
    if s.efd < 0 || fd < 0 || !ok then (s, false)
    else (s.(epoll := s.epoll[fd := a]), true)
  }

  function EpollDel(s: Server, fd: int): Server {
    if s.efd < 0 || fd < 0 then s else s.(epoll := s.epoll - {fd})
  }

  function Del(s: Server, a: Addr): Server
    requires a in s.heap
  {
    var s1 := EpollDel(s, s.heap[a].fd);
    Delete(s1.(sockets := Without(s.sockets, a), receive := Without(s.receive, a),
               send := Without(s.send, a), disconnected := Without(s.disconnected, a)), a)
  }

  // ---- destroy and listen ----

  /** The first part of destroy: every client deleted, every list cleared. */
  function Emptied(s: Server): Server
    requires AllLive(s, s.sockets)
  {
    DeleteAll(s, s.sockets).(sockets := [], receive := [], send := [], disconnected := [])
  }

  function CloseEpoll(s: Server): Server {
    if s.efd >= 0
    then s.(efd := -1, epoll := map[], trace := s.trace + [Released(Desc(s.efd))])
    else s
  }

  function CloseListener(s: Server): Server {
    var (l, closed) := TcpSocketSpec.Destroy(s.listener);
    (if closed.Some? then Close(s, closed.value) else s).(listener := l)
  }

  function Destroy(s: Server): Server
    requires AllLive(s, s.sockets)
  {
    CloseListener(CloseEpoll(Emptied(s)))
  }

  /** What epoll_create1, createSocket and epoll_ctl answer. */
  datatype ListenAnswer = ListenAnswer(efd: int, fd: int, added: bool)

  /** listen after its initial destroy. */
  function Open(s: Server, answer: ListenAnswer): (Server, bool)
    requires AllLive(s, s.sockets)
  {
    if answer.efd < 0 then (s.(efd := -1), false)
    else
      var s1 := s.(efd := answer.efd, trace := s.trace + [Acquired(Desc(answer.efd))]);
      if answer.fd < 0 || answer.fd == answer.efd then (Destroy(s1), false)
      else
        var s2 := s1.(listener := NewSocket().(fd := answer.fd),
                      trace := s1.trace + [Acquired(Desc(answer.fd))]);
        var (s3, ok) := EpollAdd(s2, LISTENER, answer.fd, answer.added);
        if ok then (s3, true) else (Destroy(s3), false)
  }

  function Listen(s: Server, answer: ListenAnswer): (Server, bool)
    requires AllLive(s, s.sockets)
  {
    Open(Destroy(s), answer)
  }

  // ---- poll ----

  /** Deletes the sockets scheduled in the previous pass. */
  function Reap(s: Server, gone: seq<Addr>): Server
    requires AllLive(s, gone)
    decreases |gone|
  {
    if gone == [] then s
    else
      DelKeepsOthers(s, gone);
      Reap(Del(s, gone[0]), gone[1..])
  }

  lemma DelKeepsOthers(s: Server, gone: seq<Addr>)
    requires gone != [] && AllLive(s, gone)
    ensures AllLive(Del(s, gone[0]), gone[1..])
    ensures AllLive(Delete(s, gone[0]), gone[1..])
  {
  }

  datatype EpollEvent = EpollEvent(ptr: Addr, error: bool, readable: bool, writable: bool)

  const MAX_EPOLL_EVENTS: nat := 1024

  /**
   epoll reports registered pointers only, and never reports a listening socket as writable and nothing else:
   that event was not requested for it.
   */
  predicate Reportable(s: Server, e: EpollEvent) {
    && (exists fd :: fd in s.epoll && s.epoll[fd] == e.ptr)
    && !(e.ptr == LISTENER && !e.error && !e.readable && e.writable)
  }

  function HandleEvent(s: Server, e: EpollEvent): Server {
    if e.ptr == NULL then s
    else if e.error then
      if e.ptr != LISTENER then s.(disconnected := AddUnique(s.disconnected, e.ptr)) else s
    else if e.readable && e.ptr == LISTENER then s
    else
      s.(receive := if e.readable then AddUnique(s.receive, e.ptr) else s.receive,
         send := if e.writable then AddUnique(s.send, e.ptr) else s.send)
  }

  predicate AnnouncesConnection(e: EpollEvent) {
    e.ptr == LISTENER && !e.error && e.readable
  }

  function HandleEvents(s: Server, events: seq<EpollEvent>): (Server, bool)
    decreases |events|
  {
    if events == [] then (s, false)
    else
      var e := events[0];
      var here := Reportable(s, e);
      var (s', more) := HandleEvents(if here then HandleEvent(s, e) else s, events[1..]);
      (s', more || (here && AnnouncesConnection(e)))
  }

  /** accept's descriptor, whether it could be configured, where new puts the socket, and epoll's answer. */
  datatype AcceptAnswer = AcceptAnswer(fd: int, configured: bool, addr: Addr, added: bool)

  function Descriptors(heap: map<Addr, Socket>): set<int> {
    set a | a in heap :: heap[a].fd
  }

  predicate Acceptable(s: Server, x: AcceptAnswer) {
    && x.fd >= 0 && x.fd != s.efd && x.fd != s.listener.fd && x.fd !in Descriptors(s.heap)
    && x.addr != NULL && x.addr != LISTENER && x.addr !in s.heap
  }

  function AcceptOne(s: Server, x: AcceptAnswer): Server
    requires Acceptable(s, x)
  {
    var s1 := s.(trace := s.trace + [Acquired(Desc(x.fd))]);
    if !x.configured then Close(s1, x.fd)
    else
      var s2 := s1.(heap := s1.heap[x.addr := NewSocket().(fd := x.fd)],
                    trace := s1.trace + [Acquired(Mem(x.addr))]);
      var (s3, ok) := EpollAdd(s2, x.addr, x.fd, x.added);
      if !ok then Delete(s3, x.addr)
      else s3.(sockets := AddUnique(s3.sockets, x.addr), receive := AddUnique(s3.receive, x.addr))
  }

  function Accepts(s: Server, answers: seq<AcceptAnswer>): Server
    decreases |answers|
  {
    if answers == [] || !Acceptable(s, answers[0]) then s
    else Accepts(AcceptOne(s, answers[0]), answers[1..])
  }

  datatype PollAnswer = WaitFailed | Waited(events: seq<EpollEvent>, accepts: seq<AcceptAnswer>)

  function Limit(events: seq<EpollEvent>): seq<EpollEvent> {
    if |events| <= MAX_EPOLL_EVENTS then events else events[..MAX_EPOLL_EVENTS]
  }

  function Poll(s: Server, answer: PollAnswer): Server
    requires AllLive(s, s.disconnected)
  {
    if s.efd < 0 then s
    else
      var s1 := Reap(s.(disconnected := []), s.disconnected);
      if answer.WaitFailed? then s1
      else
        var (s2, newConnection) := HandleEvents(s1, Limit(answer.events));
        if newConnection then Accepts(s2, answer.accepts) else s2
  }

  // ---- sendAndRecv ----

  predicate Flagged(c: Socket) {
    c.recvDisconnected || c.sendDisconnected
  }

  /** The state after servicing, the sockets serviced in order, and whether any received data. */
  datatype Round = Round(server: Server, serviced: seq<Addr>, received: bool)

  /** A send call of the application on one client. */
  datatype Message = Message(to: Addr, data: Bytes)

  /** The message queued on a client the application was shown; other pointers are not its to use. */
  function Queue(s: Server, m: Message): Server {
    if m.to in s.heap then s.(heap := s.heap[m.to := Send(s.heap[m.to], Some(m.data), |m.data|).0]) else s
  }

  function QueueEach(s: Server, messages: seq<Message>): Server
    decreases |messages|
  {
    if messages == [] then s else QueueEach(Queue(s, messages[0]), messages[1..])
  }

  /** The messages for one client, in order. */
  function To(messages: seq<Message>, a: Addr): seq<Bytes> {
    if messages == [] then []
    else (if messages[0].to == a then [messages[0].data] else []) + To(messages[1..], a)
  }

  function Others(messages: seq<Message>, a: Addr): seq<Message> {
    if messages == [] then []
    else (if messages[0].to == a then [] else [messages[0]]) + Others(messages[1..], a)
  }

  /**
   What the environment decides while one client is serviced: the answers of recvmsg and ::send, the messages
   the receive callback sends to this or to any other client, and how much of the buffer it leaves.
   */
  datatype ClientTurn = ClientTurn(recv: RecvAnswer, messages: seq<Message>, keep: nat, sends: seq<SendAnswer>)

  /** The part of it that concerns the client itself. */
  function OwnTurn(turn: ClientTurn, a: Addr): Turn {
    Turn(turn.recv, Callback(To(turn.messages, a), turn.keep), turn.sends)
  }

  /**
   I/O on one client, which is scheduled for removal if it turns out disconnected.  If its callback runs, the
   messages for other clients go to those clients' buffers.
   */
  function Service(s: Server, a: Addr, turn: ClientTurn): (Server, bool)
    requires a in s.heap && Fits(s.heap[a])
  {
    var io := TcpSocketSpec.SendAndRecv(s.heap[a], OwnTurn(turn, a));
    var s1 := s.(heap := s.heap[a := io.socket],
                 disconnected := if Flagged(io.socket) then AddUnique(s.disconnected, a) else s.disconnected);
    (if io.received then QueueEach(s1, Others(turn.messages, a)) else s1, io.received)
  }

  /** The decisions for the k-th client serviced; by default there is nothing to read and no room to write. */
  function TurnFor(turns: seq<ClientTurn>, k: nat): ClientTurn {
    if k < |turns| then turns[k] else ClientTurn(RecvBlocked, [], 0, [])
  }

  // ---- What queueing and servicing do to each client ----

  predicate SameKeys(h: map<Addr, Socket>, h': map<Addr, Socket>) {
    h.Keys == h'.Keys
  }

  /** Queueing appends to each client exactly the messages addressed to it, and changes nothing else. */
  lemma {:induction false} QueueEachIs(s: Server, messages: seq<Message>)
    ensures var s' := QueueEach(s, messages);
      && s' == s.(heap := s'.heap) && SameKeys(s.heap, s'.heap)
      && forall b :: b in s.heap ==> s'.heap[b] == SendEach(s.heap[b], To(messages, b)).0
    decreases |messages|
  {
    if messages != [] {
      var s1, rest := Queue(s, messages[0]), messages[1..];
      QueueEachIs(s1, rest);
      forall b | b in s.heap
        ensures SendEach(s1.heap[b], To(rest, b)).0 == SendEach(s.heap[b], To(messages, b)).0
      {
        if b == messages[0].to {
          assert To(messages, b)[1..] == To(rest, b);
        } else {
          assert To(messages, b) == To(rest, b);
        }
      }
    }
  }

  lemma {:induction false} OthersIs(messages: seq<Message>, a: Addr, b: Addr)
    ensures To(Others(messages, a), b) == if b == a then [] else To(messages, b)
  {
    if messages != [] {
      OthersIs(messages[1..], a, b);
      var rest := Others(messages[1..], a);
      if messages[0].to != a {
        assert Others(messages, a)[1..] == rest;
      } else {
        assert Others(messages, a) == rest;
      }
    }
  }

  /** The socket of client b after client a was serviced. */
  function After(heap: map<Addr, Socket>, a: Addr, turn: ClientTurn, b: Addr): Socket
    requires a in heap && Fits(heap[a]) && b in heap
  {
    if b == a then TcpSocketSpec.SendAndRecv(heap[a], OwnTurn(turn, a)).socket
    else if Delivers(heap[a], turn.recv) then SendEach(heap[b], To(turn.messages, b)).0
    else heap[b]
  }

  /** Servicing gives the client its own turn and the others the messages its callback sent them. */
  lemma ServiceIs(s: Server, a: Addr, turn: ClientTurn)
    requires a in s.heap && Fits(s.heap[a])
    ensures var (s', received) := Service(s, a, turn);
      && s' == s.(heap := s'.heap, disconnected := s'.disconnected) && SameKeys(s.heap, s'.heap)
      && (forall b :: b in s.heap ==> s'.heap[b] == After(s.heap, a, turn, b))
      && s'.disconnected == (if Flagged(s'.heap[a]) then AddUnique(s.disconnected, a) else s.disconnected)
      && (received <==> Delivers(s.heap[a], turn.recv))
  {
    var io := TcpSocketSpec.SendAndRecv(s.heap[a], OwnTurn(turn, a));
    ReceivedIff(s.heap[a], OwnTurn(turn, a));
    var s1 := s.(heap := s.heap[a := io.socket],
                 disconnected := if Flagged(io.socket) then AddUnique(s.disconnected, a) else s.disconnected);
    QueueEachIs(s1, Others(turn.messages, a));
    forall b
      ensures To(Others(turn.messages, a), b) == if b == a then [] else To(turn.messages, b)
    {
      OthersIs(turn.messages, a, b);
    }
  }

  /** Neither its own turn nor a message takes a client out of its buffer limits or changes its descriptor. */
  lemma AfterKeeps(heap: map<Addr, Socket>, a: Addr, turn: ClientTurn, b: Addr)
    requires a in heap && Fits(heap[a]) && b in heap && Fits(heap[b])
    ensures var c := After(heap, a, turn, b);
      && Fits(c) && c.fd == heap[b].fd
      && (b != a ==> c == heap[b].(outgoing := c.outgoing))
  {
    if b == a {
      SendAndRecvConserves(heap[a], OwnTurn(turn, a));
      KeepsDescriptor(heap[a], OwnTurn(turn, a));
    } else {
      SendEachAppends(heap[b], To(turn.messages, b));
    }
  }

  // ---- The two loops ----

  predicate Serviceable(s: Server, list: seq<Addr>) {
    forall k :: 0 <= k < |list| ==> list[k] in s.heap && Fits(s.heap[list[k]])
  }

  lemma ServiceKeeps(s: Server, a: Addr, turn: ClientTurn, list: seq<Addr>)
    requires a in s.heap && Fits(s.heap[a]) && Serviceable(s, list)
    ensures Serviceable(Service(s, a, turn).0, list)
  {
    ServiceIs(s, a, turn);
    forall k | 0 <= k < |list|
      ensures Fits(After(s.heap, a, turn, list[k]))
    {
      AfterKeeps(s.heap, a, turn, list[k]);
    }
  }

  /** The first loop: every socket of the receive list. */
  function ReceiveRound(s: Server, list: seq<Addr>, turns: seq<ClientTurn>, k: nat): Round
    requires Serviceable(s, list)
    decreases |list|
  {
    if list == [] then Round(s, [], false)
    else
      ServiceKeeps(s, list[0], TurnFor(turns, k), list[1..]);
      var (s', received) := Service(s, list[0], TurnFor(turns, k));
      var rest := ReceiveRound(s', list[1..], turns, k + 1);
      Round(rest.server, [list[0]] + rest.serviced, received || rest.received)
  }

  /** The second loop: the writable sockets that the first loop did not service. */
  function SendRound(s: Server, list: seq<Addr>, turns: seq<ClientTurn>, k: nat): Round
    requires Serviceable(s, list)
    decreases |list|
  {
    if list == [] then Round(s, [], false)
    else if list[0] in s.receive then SendRound(s, list[1..], turns, k)
    else
      ServiceKeeps(s, list[0], TurnFor(turns, k), list[1..]);
      var (s', _) := Service(s, list[0], TurnFor(turns, k));
      var rest := SendRound(s', list[1..], turns, k + 1);
      rest.(serviced := [list[0]] + rest.serviced)
  }

  /** The receive-finished callback, which runs if anything was received: its messages are queued. */
  function Finish(r: Round, finished: seq<Message>): Server {
    if r.received then QueueEach(r.server, finished) else r.server
  }

  /** The whole round; received says whether the receive-finished callback runs. */
  function SendAndRecv(s: Server, turns: seq<ClientTurn>, finished: seq<Message>): Round
    requires Serviceable(s, s.receive) && Serviceable(s, s.send)
  {
    if s.efd < 0 then Round(s, [], false)
    else
      var r1 := ReceiveRound(s, s.receive, turns, 0);
      ReceiveRoundKeeps(s, s.receive, turns, 0, s.send);
      FinishKeeps(r1, finished, s.send);
      var s2 := Finish(r1, finished);
      var r2 := SendRound(s2, s2.send, turns, |r1.serviced|);
      Round(r2.server, r1.serviced + r2.serviced, r1.received)
  }

  lemma {:induction false} ReceiveRoundKeeps(
      s: Server, list: seq<Addr>, turns: seq<ClientTurn>, k: nat, other: seq<Addr>)
    requires Serviceable(s, list) && Serviceable(s, other)
    ensures var s' := ReceiveRound(s, list, turns, k).server;
      && Serviceable(s', other)
      && s' == s.(heap := s'.heap, disconnected := s'.disconnected)
    decreases |list|
  {
    if list != [] {
      ServiceKeeps(s, list[0], TurnFor(turns, k), list[1..]);
      ServiceKeeps(s, list[0], TurnFor(turns, k), other);
      ServiceIs(s, list[0], TurnFor(turns, k));
      ReceiveRoundKeeps(Service(s, list[0], TurnFor(turns, k)).0, list[1..], turns, k + 1, other);
    }
  }

  lemma FinishKeeps(r: Round, finished: seq<Message>, list: seq<Addr>)
    requires Serviceable(r.server, list)
    ensures var s' := Finish(r, finished); Serviceable(s', list) && s' == r.server.(heap := s'.heap)
  {
    QueueEachIs(r.server, finished);
    forall k | 0 <= k < |list|
      ensures Fits(SendEach(r.server.heap[list[k]], To(finished, list[k])).0)
    {
      SendEachAppends(r.server.heap[list[k]], To(finished, list[k]));
    }
  }
}
