/**
 One TCP connection's buffers as a value (src/tcp_socket.cpp).

 The kernel and the application callback are inputs.  An input is a list of answers that is cut down to
 what the kernel's contract allows (never more bytes than asked for), so every function is total and a
 statement for all inputs covers every behaviour of the kernel and of the callback.
 */
module TcpSocketSpec {
  import opened Sequences
  import opened Wrappers

  newtype byte = x: int | 0 <= x < 256

  type Bytes = seq<byte>

  const TCP_BUFFER_SIZE: nat := 65536

  datatype Socket = Socket(
    fd: int,
    outgoing: Bytes,
    incoming: Bytes,
    sendDisconnected: bool,
    recvDisconnected: bool)

  function NewSocket(): Socket {
    Socket(-1, [], [], false, false)
  }

  predicate Fits(s: Socket) {
    |s.outgoing| <= TCP_BUFFER_SIZE && |s.incoming| <= TCP_BUFFER_SIZE
  }

  /** Answer of recvmsg: data on offer (none at all means the peer closed), nothing yet, or an error. */
  datatype RecvAnswer = Data(bytes: Bytes) | RecvBlocked | RecvBroken

  /** Answer of one ::send: how many bytes the kernel is ready to take, or no room, or an error. */
  datatype SendAnswer = Accept(n: nat) | SendBlocked | SendBroken

  /** What the receive callback does: messages it sends, and how much of the buffer it leaves. */
  datatype Callback = Callback(sends: seq<Bytes>, keep: nat)

  /** Everything the environment decides in one sendAndRecv. */
  datatype Turn = Turn(recv: RecvAnswer, callback: Callback, sends: seq<SendAnswer>)

  function Min(a: nat, b: nat): nat {
    if a < b then a else b
  }

  // ---- Operations ----

  /** destroy: the descriptor to close, if one is open, and a socket ready for reuse. */
  function Destroy(s: Socket): (Socket, Option<int>) {
    if s.fd >= 0 then (NewSocket(), Some(s.fd)) else (NewSocket().(fd := s.fd), None)
  }

  /** send: append to the outgoing bytes if the whole message fits. */
  function Send(s: Socket, data: Option<Bytes>, len: nat): (Socket, bool)
    requires data.Some? ==> len <= |data.value|
  {
    if len == 0 then (s, true)
    else if data.None? || |s.outgoing| > TCP_BUFFER_SIZE || len > TCP_BUFFER_SIZE - |s.outgoing| then (s, false)
    else (s.(outgoing := s.outgoing + data.value[..len]), true)
  }

  /** The bytes that a send adds to the stream: all of the message or nothing. */
  function Added(s: Socket, data: Option<Bytes>, len: nat): Bytes
    requires data.Some? ==> len <= |data.value|
  {
    if len > 0 && Send(s, data, len).1 then data.value[..len] else []
  }

  /** The callback's messages in order; those that do not fit are refused. */
  function SendEach(s: Socket, messages: seq<Bytes>): (Socket, Bytes)
    decreases |messages|
  {
    if messages == [] then (s, [])
    else
      var m := messages[0];
      var (s', queued) := SendEach(Send(s, Some(m), |m|).0, messages[1..]);
      (s', Added(s, Some(m), |m|) + queued)
  }

  datatype Received = Received(socket: Socket, taken: Bytes, shown: Option<Bytes>, queued: Bytes)

  /** The receiving half: append what arrived, let the callback look at the whole buffer. */
  function Receive(s: Socket, recv: RecvAnswer, callback: Callback): Received
    requires Fits(s)
  {
    match recv
    case RecvBlocked => Received(s, [], None, [])
    case RecvBroken => Received(s.(recvDisconnected := true), [], None, [])
    case Data(bytes) =>
      var taken := bytes[..Min(|bytes|, TCP_BUFFER_SIZE - |s.incoming|)];
      if taken == [] then Received(s.(recvDisconnected := true), [], None, [])
      else
        var all := s.incoming + taken;
        var (s', queued) := SendEach(s.(incoming := all), callback.sends);
        Received(s'.(incoming := all[..Min(callback.keep, |all|)]), taken, Some(all), queued)
  }

  datatype Flushed = Flushed(sent: Bytes, rest: Bytes, broken: bool)

  /** The send loop: hand the kernel everything that is left until it stops taking bytes. */
  function Flush(out: Bytes, answers: seq<SendAnswer>): Flushed {
    if out == [] || answers == [] then Flushed([], out, false)
    else
      match answers[0]
      case SendBlocked => Flushed([], out, false)
      case SendBroken => Flushed([], out, true)
      case Accept(n) =>
        var k := Min(n, |out|);
        if k == 0 then Flushed([], out, false)
        else
          var f := Flush(out[k..], answers[1..]);
          f.(sent := out[..k] + f.sent)
  }

  /** The result of sendAndRecv, with what crossed each boundary of the socket. */
  datatype Io = Io(
    socket: Socket,
    received: bool,          // the return value
    asked: Option<nat>,      // length passed to recvmsg, if it was called
    taken: Bytes,            // bytes taken from the kernel
    shown: Option<Bytes>,    // buffer contents shown to the callback, if it was called
    queued: Bytes,           // bytes the callback sent successfully
    transmitted: Bytes)      // bytes the kernel accepted

  function SendAndRecv(s: Socket, turn: Turn): Io
    requires Fits(s)
  {
    if s.fd < 0 then Io(s, false, None, [], None, [], [])
    else if |s.incoming| >= TCP_BUFFER_SIZE then
      Io(s.(recvDisconnected := true), false, None, [], None, [], [])
    else
      var r := Receive(s, turn.recv, turn.callback);
      var f := Flush(r.socket.outgoing, turn.sends);
      Io(r.socket.(outgoing := f.rest, sendDisconnected := r.socket.sendDisconnected || f.broken),
         r.taken != [],
         Some(TCP_BUFFER_SIZE - |s.incoming|),
         r.taken, r.shown, r.queued, f.sent)
  }

  // ---- What each operation does, told without the operation ----

  /** Whatever came before, a destroyed socket is closed, empty and unflagged; an open descriptor is closed. */
  lemma DestroyExact(s: Socket)
    ensures var (s', closed) := Destroy(s);
      && s'.fd < 0 && s'.outgoing == [] && s'.incoming == []
      && !s'.sendDisconnected && !s'.recvDisconnected
      && closed == if s.fd >= 0 then Some(s.fd) else None
  {
  }

  /** send succeeds exactly on an empty message and on a real one that fits, and appends it whole. */
  lemma SendExact(s: Socket, data: Option<Bytes>, len: nat)
    requires Fits(s) && (data.Some? ==> len <= |data.value|)
    ensures var (s', ok) := Send(s, data, len);
      && (ok <==> len == 0 || (data.Some? && |s.outgoing| + len <= TCP_BUFFER_SIZE))
      && s' == s.(outgoing := s.outgoing + Added(s, data, len))
      && Added(s, data, len) == if ok && data.Some? then data.value[..len] else []
  {
    assert s.outgoing + [] == s.outgoing;
  }

  /** The messages queued when this much room is left: each one whole, unless it no longer fits. */
  function Admitted(room: nat, messages: seq<Bytes>): seq<Bytes> {
    if messages == [] then []
    else if |messages[0]| <= room then [messages[0]] + Admitted(room - |messages[0]|, messages[1..])
    else Admitted(room, messages[1..])
  }

  lemma {:induction false} AdmittedFits(room: nat, messages: seq<Bytes>)
    ensures |Flatten(Admitted(room, messages))| <= room
    decreases |messages|
  {
    if messages != [] {
      var m := messages[0];
      AdmittedFits(if |m| <= room then room - |m| else room, messages[1..]);
    }
  }

  lemma {:induction false} SendEachExact(s: Socket, messages: seq<Bytes>)
    requires Fits(s)
    ensures SendEach(s, messages).1 == Flatten(Admitted(TCP_BUFFER_SIZE - |s.outgoing|, messages))
    decreases |messages|
  {
    if messages != [] {
      var m := messages[0];
      var s' := Send(s, Some(m), |m|).0;
      SendExact(s, Some(m), |m|);
      assert m[..|m|] == m;
      SendEachExact(s', messages[1..]);
    }
  }

  // ---- One call ----

  lemma {:induction false} SendEachAppends(s: Socket, messages: seq<Bytes>)
    requires Fits(s)
    ensures var (s', queued) := SendEach(s, messages);
      s' == s.(outgoing := s.outgoing + queued) && Fits(s')
    decreases |messages|
  {
    if messages != [] {
      var m := messages[0];
      SendEachAppends(Send(s, Some(m), |m|).0, messages[1..]);
    }
  }

  /** Messages that fit together are all queued, whole and in order. */
  lemma {:induction false} SendEachFits(s: Socket, messages: seq<Bytes>)
    requires |s.outgoing| + |Flatten(messages)| <= TCP_BUFFER_SIZE
    ensures SendEach(s, messages).1 == Flatten(messages)
    decreases |messages|
  {
    if messages != [] {
      var m := messages[0];
      assert m[..|m|] == m;
      SendEachFits(Send(s, Some(m), |m|).0, messages[1..]);
    }
  }

  lemma {:induction false} FlushSplits(out: Bytes, answers: seq<SendAnswer>)
    ensures var f := Flush(out, answers); f.sent + f.rest == out
  {
    if out != [] && answers != [] && answers[0].Accept? {
      var k := Min(answers[0].n, |out|);
      if k > 0 {
        FlushSplits(out[k..], answers[1..]);
        assert out == out[..k] + out[k..];
      }
    }
  }

  // ---- Exactly how much is sent, and which flags are raised ----

  /** Bytes the kernel would take before its first answer that takes none. */
  function Offered(answers: seq<SendAnswer>): nat {
    if answers == [] || !answers[0].Accept? then 0
    else if answers[0].n == 0 then 0
    else answers[0].n + Offered(answers[1..])
  }

  /** The first answer that takes no bytes. */
  function Stopper(answers: seq<SendAnswer>): Option<SendAnswer> {
    if answers == [] then None
    else if answers[0].Accept? && answers[0].n > 0 then Stopper(answers[1..])
    else Some(answers[0])
  }

  /** The loop sends as much as is offered and waiting, and fails exactly when an error comes while bytes wait. */
  lemma {:induction false} FlushExact(out: Bytes, answers: seq<SendAnswer>)
    ensures var f := Flush(out, answers);
      && |f.sent| == Min(Offered(answers), |out|)
      && (f.broken <==> Offered(answers) < |out| && Stopper(answers) == Some(SendBroken))
  {
    if out != [] && answers != [] && answers[0].Accept? {
      var k := Min(answers[0].n, |out|);
      if k > 0 {
        FlushExact(out[k..], answers[1..]);
      }
    }
  }

  /** The disconnect flags are sticky, and each is raised by exactly these outcomes. */
  lemma FlagsExact(s: Socket, turn: Turn)
    requires Fits(s) && s.fd >= 0
    ensures var io := SendAndRecv(s, turn);
      && (io.socket.recvDisconnected <==>
            || s.recvDisconnected
            || |s.incoming| == TCP_BUFFER_SIZE
            || turn.recv.RecvBroken?
            || turn.recv == Data([]))
      && (io.socket.sendDisconnected <==>
            || s.sendDisconnected
            || (io.asked.Some?
                && Offered(turn.sends) < |s.outgoing + io.queued|
                && Stopper(turn.sends) == Some(SendBroken)))
      && io.socket.fd == s.fd
  {
    if |s.incoming| < TCP_BUFFER_SIZE {
      if turn.recv.Data? {
        var bytes := turn.recv.bytes;
        var taken := bytes[..Min(|bytes|, TCP_BUFFER_SIZE - |s.incoming|)];
        SendEachAppends(s.(incoming := s.incoming + taken), turn.callback.sends);
      }
      FlushExact(Receive(s, turn.recv, turn.callback).socket.outgoing, turn.sends);
    }
  }

  /** A call takes bytes, and so runs the callback, exactly when the kernel has some and there is room. */
  predicate Delivers(s: Socket, recv: RecvAnswer) {
    s.fd >= 0 && |s.incoming| < TCP_BUFFER_SIZE && recv.Data? && recv.bytes != []
  }

  lemma ReceivedIff(s: Socket, turn: Turn)
    requires Fits(s)
    ensures SendAndRecv(s, turn).received <==> Delivers(s, turn.recv)
  {
  }

  lemma KeepsDescriptor(s: Socket, turn: Turn)
    requires Fits(s)
    ensures SendAndRecv(s, turn).socket.fd == s.fd
  {
    if s.fd >= 0 {
      FlagsExact(s, turn);
    }
  }

  /** The socket is open and its receive buffer has room, so a call performs I/O. */
  predicate Attempts(s: Socket) {
    s.fd >= 0 && |s.incoming| < TCP_BUFFER_SIZE
  }

  /** The bytes a call takes: as many of those on offer as there is room for. */
  function Arriving(s: Socket, recv: RecvAnswer): Bytes
    requires Fits(s)
  {
    if Attempts(s) && recv.Data? then recv.bytes[..Min(|recv.bytes|, TCP_BUFFER_SIZE - |s.incoming|)] else []
  }

  /** The bytes the callback queues: its messages that fit, if it runs. */
  function Replies(s: Socket, turn: Turn): Bytes
    requires Fits(s)
  {
    if Arriving(s, turn.recv) == [] then []
    else Flatten(Admitted(TCP_BUFFER_SIZE - |s.outgoing|, turn.callback.sends))
  }

  lemma ReceiveExact(s: Socket, turn: Turn)
    requires Fits(s) && Attempts(s)
    ensures var r := Receive(s, turn.recv, turn.callback); var taken := Arriving(s, turn.recv);
      && r.taken == taken && r.queued == Replies(s, turn)
      && r.shown == (if taken == [] then None else Some(s.incoming + taken))
      && r.socket.outgoing == s.outgoing + Replies(s, turn)
      && r.socket.incoming ==
         (if taken == [] then s.incoming
          else (s.incoming + taken)[..Min(turn.callback.keep, |s.incoming + taken|)])
  {
    var taken := Arriving(s, turn.recv);
    if taken == [] {
      assert s.outgoing + [] == s.outgoing;
    } else {
      var s1 := s.(incoming := s.incoming + taken);
      SendEachAppends(s1, turn.callback.sends);
      SendEachExact(s1, turn.callback.sends);
    }
  }

  /**
   Everything one call does, told from the socket, the kernel's answers and the callback: what it takes, shows,
   queues and transmits, and what stays in the two buffers.  FlagsExact tells the flags.
   */
  lemma TurnExact(s: Socket, turn: Turn)
    requires Fits(s)
    ensures var io := SendAndRecv(s, turn);
      var taken, out := Arriving(s, turn.recv), s.outgoing + Replies(s, turn);
      var n := if Attempts(s) then Min(Offered(turn.sends), |out|) else 0;
      && io.asked == (if Attempts(s) then Some(TCP_BUFFER_SIZE - |s.incoming|) else None)
      && io.taken == taken && io.received == (taken != [])
      && io.shown == (if taken == [] then None else Some(s.incoming + taken))
      && io.queued == Replies(s, turn)
      && io.transmitted == out[..n] && io.socket.outgoing == out[n..]
      && io.socket.incoming ==
         (if taken == [] then s.incoming
          else (s.incoming + taken)[..Min(turn.callback.keep, |s.incoming + taken|)])
      && (s.fd < 0 ==> io.socket == s)
  {
    if Attempts(s) {
      ReceiveExact(s, turn);
      var out := s.outgoing + Replies(s, turn);
      FlushExact(out, turn.sends);
      FlushSplits(out, turn.sends);
    } else {
      assert s.outgoing + [] == s.outgoing;
    }
  }

  /**
   Conservation in one call: what the kernel accepted followed by what is still buffered is what was
   buffered before followed by the callback's messages that fit; both buffers keep within their size,
   and recvmsg is never asked for zero bytes.
   */
  lemma SendAndRecvConserves(s: Socket, turn: Turn)
    requires Fits(s)
    ensures var io := SendAndRecv(s, turn);
      && io.transmitted + io.socket.outgoing == s.outgoing + io.queued
      && io.queued == Replies(s, turn)
      && Fits(io.socket)
      && (io.asked.Some? ==> 0 < io.asked.value && |io.taken| <= io.asked.value)
      && (io.shown.Some? ==>
            && io.shown.value == s.incoming + io.taken
            && io.socket.incoming == io.shown.value[..Min(turn.callback.keep, |io.shown.value|)])
      && (io.received <==> io.shown.Some?)
      && (io.shown.None? ==> io.taken == [] && io.socket.incoming == s.incoming)
  {
    AdmittedFits(TCP_BUFFER_SIZE - |s.outgoing|, turn.callback.sends);
    TurnExact(s, turn);
  }

  /** Replies that fit together with what is already waiting are all queued. */
  lemma RepliesFit(s: Socket, turn: Turn)
    requires Fits(s) && Delivers(s, turn.recv)
    requires |s.outgoing| + |Flatten(turn.callback.sends)| <= TCP_BUFFER_SIZE
    ensures SendAndRecv(s, turn).queued == Flatten(turn.callback.sends)
  {
    TurnExact(s, turn);
    SendEachExact(s, turn.callback.sends);
    SendEachFits(s, turn.callback.sends);
  }

  // ---- Whole connections ----

  /** A connection with its history since the last destroy. */
  datatype Session = Session(
    socket: Socket,
    accepted: Bytes,         // payloads of successful sends, in order
    transmitted: Bytes,      // bytes the kernel accepted, in order
    taken: Bytes,            // bytes taken from the kernel, in order
    shown: seq<Bytes>)       // buffer contents at each callback

  datatype Call =
    | SendCall(data: Option<Bytes>, len: nat)
    | IoCall(turn: Turn)
    | DestroyCall
    | ConnectCall(fd: int)

  predicate Legal(op: Call) {
    op.SendCall? && op.data.Some? ==> op.len <= |op.data.value|
  }

  predicate AllLegal(ops: seq<Call>) {
    forall k :: 0 <= k < |ops| ==> Legal(ops[k])
  }

  const Fresh: Session := Session(NewSocket(), [], [], [], [])

  function Apply(c: Session, op: Call): Session
    requires Fits(c.socket) && Legal(op)
  {
    match op
    case SendCall(data, len) =>
      c.(socket := Send(c.socket, data, len).0,
         accepted := c.accepted + Added(c.socket, data, len))
    case IoCall(turn) =>
      var io := SendAndRecv(c.socket, turn);
      c.(socket := io.socket,
         accepted := c.accepted + io.queued,
         transmitted := c.transmitted + io.transmitted,
         taken := c.taken + io.taken,
         shown := if io.shown.Some? then c.shown + [io.shown.value] else c.shown)
    case DestroyCall => Fresh.(socket := Destroy(c.socket).0)
    case ConnectCall(fd) => Fresh.(socket := Destroy(c.socket).0.(fd := fd))
  }

  lemma ApplyFits(c: Session, op: Call)
    requires Fits(c.socket) && Legal(op)
    ensures Fits(Apply(c, op).socket)
  {
    if op.IoCall? {
      SendAndRecvConserves(c.socket, op.turn);
    }
  }

  /** The session after a list of calls. */
  function Run(c: Session, ops: seq<Call>): (c': Session)
    requires Fits(c.socket) && AllLegal(ops)
    ensures Fits(c'.socket)
    decreases |ops|
  {
    if ops == [] then c
    else
      var c', op := Run(c, ops[..|ops| - 1]), ops[|ops| - 1];
      ApplyFits(c', op);
      Apply(c', op)
  }

  lemma {:induction false} RunAppend(c: Session, a: seq<Call>, b: seq<Call>)
    requires Fits(c.socket) && AllLegal(a) && AllLegal(b)
    ensures AllLegal(a + b) && Run(c, a + b) == Run(Run(c, a), b)
    decreases |b|
  {
    if b == [] {
      assert a + b == a;
    } else {
      RunAppend(c, a, b[..|b| - 1]);
      assert (a + b)[..|a + b| - 1] == a + b[..|b| - 1];
    }
  }

  lemma RunOne(c: Session, op: Call)
    requires Fits(c.socket) && Legal(op)
    ensures Run(c, [op]) == Apply(c, op)
  {
    assert [op][..0] == [];
    assert Run(c, []) == c;
  }

  /** Separate send calls, one for each message. */
  function SendCalls(messages: seq<Bytes>): (ops: seq<Call>)
    ensures AllLegal(ops)
  {
    if messages == [] then []
    else [SendCall(Some(messages[0]), |messages[0]|)] + SendCalls(messages[1..])
  }

  /** The messages of a callback are queued as by separate send calls. */
  lemma {:induction false} SendEachIsRun(c: Session, messages: seq<Bytes>)
    requires Fits(c.socket)
    ensures Run(c, SendCalls(messages)).socket == SendEach(c.socket, messages).0
    decreases |messages|
  {
    if messages != [] {
      var op := SendCall(Some(messages[0]), |messages[0]|);
      ApplyFits(c, op);
      RunOne(c, op);
      RunAppend(c, [op], SendCalls(messages[1..]));
      SendEachIsRun(Apply(c, op), messages[1..]);
    }
  }

  lemma ApplyConserves(c: Session, op: Call)
    requires Fits(c.socket) && Legal(op)
    requires c.transmitted + c.socket.outgoing == c.accepted
    ensures var c' := Apply(c, op); c'.transmitted + c'.socket.outgoing == c'.accepted
  {
    if op.SendCall? {
      AppendAssoc(c.transmitted, c.socket.outgoing, Added(c.socket, op.data, op.len));
    } else if op.IoCall? {
      SendAndRecvConserves(c.socket, op.turn);
      var io := SendAndRecv(c.socket, op.turn);
      AppendAssoc(c.transmitted, io.transmitted, io.socket.outgoing);
      AppendAssoc(c.transmitted, c.socket.outgoing, io.queued);
    }
  }

  /**
   Send conservation: after any run of sends, I/O turns and reconnections, the bytes the kernel accepted
   followed by the send buffer are exactly the payloads of the successful sends, in order.
   */
  lemma {:induction false} SendConservation(ops: seq<Call>)
    requires AllLegal(ops)
    ensures var c := Run(Fresh, ops); c.transmitted + c.socket.outgoing == c.accepted
  {
    if ops != [] {
      SendConservation(ops[..|ops| - 1]);
      ApplyConserves(Run(Fresh, ops[..|ops| - 1]), ops[|ops| - 1]);
    }
  }

  // ---- Receiving ----

  predicate Draining(op: Call) {
    op.IoCall? ==> op.turn.callback.keep == 0
  }

  predicate Hoarding(op: Call) {
    op.IoCall? ==> op.turn.callback.keep >= TCP_BUFFER_SIZE
  }

  /**
   With callbacks that consume everything, the ranges shown concatenate to exactly the bytes taken from
   the kernel, and the buffer is empty between calls, so it is never found full.
   */
  lemma {:induction false} DrainingShowsStream(ops: seq<Call>)
    requires forall k :: 0 <= k < |ops| ==> Legal(ops[k]) && Draining(ops[k])
    ensures var c := Run(Fresh, ops); Flatten(c.shown) == c.taken && c.socket.incoming == []
  {
    if ops != [] {
      var c, op := Run(Fresh, ops[..|ops| - 1]), ops[|ops| - 1];
      DrainingShowsStream(ops[..|ops| - 1]);
      if op.IoCall? {
        SendAndRecvConserves(c.socket, op.turn);
        var io := SendAndRecv(c.socket, op.turn);
        if io.shown.Some? {
          FlattenSnoc(c.shown, io.shown.value);
        }
      }
    }
  }

  /** With callbacks that consume nothing, the buffer and the last range shown are the whole stream so far. */
  lemma {:induction false} HoardingKeepsStream(ops: seq<Call>)
    requires forall k :: 0 <= k < |ops| ==> Legal(ops[k]) && Hoarding(ops[k])
    ensures var c := Run(Fresh, ops);
      && c.socket.incoming == c.taken
      && (c.shown != [] ==> c.shown[|c.shown| - 1] == c.taken)
  {
    if ops != [] {
      var c, op := Run(Fresh, ops[..|ops| - 1]), ops[|ops| - 1];
      HoardingKeepsStream(ops[..|ops| - 1]);
      if op.IoCall? {
        SendAndRecvConserves(c.socket, op.turn);
        HoardingReceive(c.socket, op.turn);
      }
    }
  }

  lemma HoardingReceive(s: Socket, turn: Turn)
    requires Fits(s) && turn.callback.keep >= TCP_BUFFER_SIZE
    ensures var io := SendAndRecv(s, turn); io.socket.incoming == s.incoming + io.taken
  {
    SendAndRecvConserves(s, turn);
    if SendAndRecv(s, turn).shown.Some? {
      var all := SendAndRecv(s, turn).shown.value;
      assert all[..|all|] == all;
    }
  }

  /**
   When a call finds the receive buffer full it marks the receive side broken and does nothing else.  With
   draining callbacks that never happens; with hoarding ones it happens exactly once 65536 bytes have arrived.
   */
  lemma FullBuffer(ops: seq<Call>, turn: Turn)
    requires AllLegal(ops)
    requires Run(Fresh, ops).socket.fd >= 0
    ensures var c := Run(Fresh, ops); var io := SendAndRecv(c.socket, turn);
      && (io.asked.None? ==> io == Io(c.socket.(recvDisconnected := true), false, None, [], None, [], []))
      && ((forall k :: 0 <= k < |ops| ==> Draining(ops[k])) ==> io.asked == Some(TCP_BUFFER_SIZE))
      && ((forall k :: 0 <= k < |ops| ==> Hoarding(ops[k])) ==>
            (io.asked.None? <==> |c.taken| == TCP_BUFFER_SIZE))
  {
    if forall k :: 0 <= k < |ops| ==> Draining(ops[k]) {
      DrainingShowsStream(ops);
    }
    if forall k :: 0 <= k < |ops| ==> Hoarding(ops[k]) {
      HoardingKeepsStream(ops);
    }
  }

  // ---- Disconnect flags over runs ----

  /** How many calls were made up to and including the last one that opened or closed the socket. */
  function Opened(calls: seq<Call>): (n: nat)
    ensures n <= |calls|
  {
    if calls == [] then 0
    else
      var last := calls[|calls| - 1];
      if last.DestroyCall? || last.ConnectCall? then |calls| else Opened(calls[..|calls| - 1])
  }

  predicate RecvBreaks(s: Socket, turn: Turn) {
    s.fd >= 0 && (|s.incoming| == TCP_BUFFER_SIZE || turn.recv.RecvBroken? || turn.recv == Data([]))
  }

  predicate SendBreaks(s: Socket, turn: Turn)
    requires Fits(s)
  {
    && Attempts(s) && Stopper(turn.sends) == Some(SendBroken)
    && Offered(turn.sends) < |s.outgoing + Replies(s, turn)|
  }

  lemma IoFlags(s: Socket, turn: Turn)
    requires Fits(s)
    ensures var s' := SendAndRecv(s, turn).socket;
      && (s'.recvDisconnected <==> s.recvDisconnected || RecvBreaks(s, turn))
      && (s'.sendDisconnected <==> s.sendDisconnected || SendBreaks(s, turn))
  {
    TurnExact(s, turn);
    if s.fd >= 0 {
      FlagsExact(s, turn);
    }
  }

  /** The k-th call is an I/O turn that breaks the receive side, or the send side. */
  predicate BreaksAt(calls: seq<Call>, k: nat, receiving: bool)
    requires AllLegal(calls) && k < |calls|
  {
    && calls[k].IoCall?
    && var s := Run(Fresh, calls[..k]).socket;
       if receiving then RecvBreaks(s, calls[k].turn) else SendBreaks(s, calls[k].turn)
  }

  /** Some I/O turn since the socket was last opened or closed broke that side. */
  predicate BrokenSince(calls: seq<Call>, receiving: bool)
    requires AllLegal(calls)
  {
    exists k :: Opened(calls) <= k < |calls| && BreaksAt(calls, k, receiving)
  }

  /** Whether a call breaks a side does not depend on the calls after it. */
  lemma BreaksPrefix(calls: seq<Call>, k: nat, receiving: bool)
    requires AllLegal(calls) && k < |calls| - 1
    ensures BreaksAt(calls[..|calls| - 1], k, receiving) == BreaksAt(calls, k, receiving)
  {
    assert calls[..|calls| - 1][..k] == calls[..k];
  }

  lemma BrokenBy(calls: seq<Call>, k: nat, receiving: bool)
    requires AllLegal(calls) && Opened(calls) <= k < |calls| && BreaksAt(calls, k, receiving)
    ensures BrokenSince(calls, receiving)
  {
  }

  lemma OpenedBefore(calls: seq<Call>)
    requires calls != [] && Opened(calls) < |calls|
    ensures Opened(calls[..|calls| - 1]) == Opened(calls)
  {
  }

  lemma BrokenBefore(calls: seq<Call>, receiving: bool)
    requires AllLegal(calls) && calls != [] && Opened(calls) < |calls|
    requires BrokenSince(calls[..|calls| - 1], receiving)
    ensures BrokenSince(calls, receiving)
  {
    var before := calls[..|calls| - 1];
    var k :| Opened(before) <= k < |before| && BreaksAt(before, k, receiving);
    OpenedBefore(calls);
    BreaksPrefix(calls, k, receiving);
    BrokenBy(calls, k, receiving);
  }

  lemma BrokenEarlier(calls: seq<Call>, k: nat, receiving: bool)
    requires AllLegal(calls) && Opened(calls) <= k < |calls| - 1 && BreaksAt(calls, k, receiving)
    ensures BrokenSince(calls[..|calls| - 1], receiving)
  {
    OpenedBefore(calls);
    BreaksPrefix(calls, k, receiving);
    BrokenBy(calls[..|calls| - 1], k, receiving);
  }

  lemma BrokenSnoc(calls: seq<Call>, receiving: bool)
    requires AllLegal(calls) && calls != []
    ensures var before := calls[..|calls| - 1];
      BrokenSince(calls, receiving) <==>
        Opened(calls) < |calls| && (BrokenSince(before, receiving) || BreaksAt(calls, |calls| - 1, receiving))
  {
    var n := |calls| - 1;
    if Opened(calls) < |calls| {
      if BreaksAt(calls, n, receiving) {
        BrokenBy(calls, n, receiving);
      } else if BrokenSince(calls[..n], receiving) {
        BrokenBefore(calls, receiving);
      } else {
        forall k | Opened(calls) <= k < |calls|
          ensures !BreaksAt(calls, k, receiving)
        {
          if k < n && BreaksAt(calls, k, receiving) {
            BrokenEarlier(calls, k, receiving);
          }
        }
      }
    }
  }

  /** After any run each flag is set exactly when a turn since the last opening or closing broke that side. */
  lemma {:induction false} FlagsSinceOpening(calls: seq<Call>)
    requires AllLegal(calls)
    ensures Run(Fresh, calls).socket.recvDisconnected <==> BrokenSince(calls, true)
    ensures Run(Fresh, calls).socket.sendDisconnected <==> BrokenSince(calls, false)
  {
    if calls != [] {
      var before, last := calls[..|calls| - 1], calls[|calls| - 1];
      FlagsSinceOpening(before);
      BrokenSnoc(calls, true);
      BrokenSnoc(calls, false);
      if last.IoCall? {
        IoFlags(Run(Fresh, before).socket, last.turn);
      }
    }
  }
}
