/** Two sockets joined by the two byte streams of one TCP connection. */
module TcpLink {
  import opened Sequences
  import opened TcpSocketSpec
  import opened Wrappers

  /** A and B with their histories, and the bytes in flight in each direction. */
  datatype Link = Link(a: Session, b: Session, ab: Bytes, ba: Bytes)

  datatype Side = A | B

  /** What the network lets one receive call see: up to n bytes of what is in flight, nothing, or an error. */
  datatype Net = Chunk(n: nat) | NetBlocked | NetBroken

  datatype LinkOp =
    | SendBy(side: Side, data: Option<Bytes>, len: nat)
    | TurnBy(side: Side, net: Net, callback: Callback, sends: seq<SendAnswer>)

  predicate Ok(op: LinkOp) {
    op.SendBy? && op.data.Some? ==> op.len <= |op.data.value|
  }

  predicate AllOk(ops: seq<LinkOp>) {
    forall k :: 0 <= k < |ops| ==> Ok(ops[k])
  }

  function Connected(fdA: int, fdB: int): Link {
    Link(Fresh.(socket := NewSocket().(fd := fdA)), Fresh.(socket := NewSocket().(fd := fdB)), [], [])
  }

  function Answer(net: Net, pipe: Bytes): RecvAnswer {
    match net
    case NetBlocked => RecvBlocked
    case NetBroken => RecvBroken
    case Chunk(n) => if Min(n, |pipe|) == 0 then RecvBlocked else Data(pipe[..Min(n, |pipe|)])
  }

  /** One sendAndRecv of an end: its session, what is left of the incoming pipe, the outgoing pipe. */
  function EndTurn(c: Session, op: LinkOp, incoming: Bytes, outgoing: Bytes): (Session, Bytes, Bytes)
    requires Fits(c.socket) && op.TurnBy?
  {
    var turn := Turn(Answer(op.net, incoming), op.callback, op.sends);
    var io := SendAndRecv(c.socket, turn);
    (Apply(c, IoCall(turn)),
     if |io.taken| <= |incoming| then incoming[|io.taken|..] else [],
     outgoing + io.transmitted)
  }

  function ApplyLink(l: Link, op: LinkOp): Link
    requires Fits(l.a.socket) && Fits(l.b.socket) && Ok(op)
  {
    match op
    case SendBy(side, data, len) =>
      if side == A then l.(a := Apply(l.a, SendCall(data, len)))
      else l.(b := Apply(l.b, SendCall(data, len)))
    case TurnBy(side, _, _, _) =>
      if side == A then
        var (a, ba, ab) := EndTurn(l.a, op, l.ba, l.ab);
        Link(a, l.b, ab, ba)
      else
        var (b, ab, ba) := EndTurn(l.b, op, l.ab, l.ba);
        Link(l.a, b, ab, ba)
  }

  /** Everything an end's kernel accepted has either arrived at the other end or is in flight. */
  ghost predicate Stream(from: Session, pipe: Bytes, to: Session) {
    && from.transmitted == to.taken + pipe
    && from.transmitted + from.socket.outgoing == from.accepted
  }

  ghost predicate Inv(l: Link) {
    && Fits(l.a.socket) && Fits(l.b.socket)
    && Stream(l.a, l.ab, l.b)
    && Stream(l.b, l.ba, l.a)
  }

  /** An end takes a beginning of its incoming pipe and puts what it transmits at the end of the other. */
  lemma EndTurnStreams(c: Session, op: LinkOp, incoming: Bytes, outgoing: Bytes, peer: Session)
    requires Fits(c.socket) && op.TurnBy?
    requires Stream(peer, incoming, c) && Stream(c, outgoing, peer)
    ensures var (c', incoming', outgoing') := EndTurn(c, op, incoming, outgoing);
      Fits(c'.socket) && Stream(peer, incoming', c') && Stream(c', outgoing', peer)
  {
    var turn := Turn(Answer(op.net, incoming), op.callback, op.sends);
    var io := SendAndRecv(c.socket, turn);
    ApplyFits(c, IoCall(turn));
    ApplyConserves(c, IoCall(turn));
    TakenIsPrefix(c.socket, op, incoming);
    assert incoming == io.taken + incoming[|io.taken|..];
    AppendAssoc(c.taken, io.taken, incoming[|io.taken|..]);
    AppendAssoc(peer.taken, outgoing, io.transmitted);
  }

  lemma TakenIsPrefix(s: Socket, op: LinkOp, incoming: Bytes)
    requires Fits(s) && op.TurnBy?
    ensures SendAndRecv(s, Turn(Answer(op.net, incoming), op.callback, op.sends)).taken <= incoming
  {
  }

  lemma ApplyLinkInv(l: Link, op: LinkOp)
    requires Inv(l) && Ok(op)
    ensures Inv(ApplyLink(l, op))
  {
    match op
    case SendBy(side, data, len) =>
      var c := if side == A then l.a else l.b;
      ApplyFits(c, SendCall(data, len));
      ApplyConserves(c, SendCall(data, len));
    case TurnBy(side, _, _, _) =>
      if side == A {
        EndTurnStreams(l.a, op, l.ba, l.ab, l.b);
      } else {
        EndTurnStreams(l.b, op, l.ab, l.ba, l.a);
      }
  }

  ghost function Run(l: Link, ops: seq<LinkOp>): (l': Link)
    requires Inv(l) && AllOk(ops)
    ensures Inv(l')
    decreases |ops|
  {
    if ops == [] then l
    else
      ApplyLinkInv(l, ops[0]);
      Run(ApplyLink(l, ops[0]), ops[1..])
  }

  /** The callback of this call, if it runs, consumes everything. */
  predicate Drains(op: LinkOp) {
    op.TurnBy? ==> op.callback.keep == 0
  }

  predicate AllDrain(ops: seq<LinkOp>) {
    forall k :: 0 <= k < |ops| ==> Drains(ops[k])
  }

  /** Both ends have shown their callbacks everything they took. */
  ghost predicate Drained(l: Link) {
    && Flatten(l.a.shown) == l.a.taken && l.a.socket.incoming == []
    && Flatten(l.b.shown) == l.b.taken && l.b.socket.incoming == []
  }

  lemma DrainStep(c: Session, op: Call)
    requires Fits(c.socket) && Legal(op) && (op.IoCall? || op.SendCall?)
    requires op.IoCall? ==> op.turn.callback.keep == 0
    requires Flatten(c.shown) == c.taken && c.socket.incoming == []
    ensures var c' := Apply(c, op); Flatten(c'.shown) == c'.taken && c'.socket.incoming == []
  {
    if op.IoCall? {
      SendAndRecvConserves(c.socket, op.turn);
      var io := SendAndRecv(c.socket, op.turn);
      if io.shown.Some? {
        FlattenSnoc(c.shown, io.shown.value);
      }
    }
  }

  lemma DrainLinkStep(l: Link, op: LinkOp)
    requires Inv(l) && Ok(op) && Drained(l)
    requires Drains(op)
    ensures Drained(ApplyLink(l, op))
  {
    match op
    case SendBy(side, data, len) => DrainStep(if side == A then l.a else l.b, SendCall(data, len));
    case TurnBy(side, net, callback, sends) =>
      if side == A {
        DrainStep(l.a, IoCall(Turn(Answer(net, l.ba), callback, sends)));
      } else {
        DrainStep(l.b, IoCall(Turn(Answer(net, l.ab), callback, sends)));
      }
  }

  lemma {:induction false} RunDrained(l: Link, ops: seq<LinkOp>)
    requires Inv(l) && Drained(l) && AllDrain(ops)
    requires AllOk(ops)
    ensures Drained(Run(l, ops))
    decreases |ops|
  {
    if ops != [] {
      DrainLinkStep(l, ops[0]);
      ApplyLinkInv(l, ops[0]);
      RunDrained(ApplyLink(l, ops[0]), ops[1..]);
    }
  }

  /**
   The whole connection, both ways at once: for any interleaving of sends and turns, any chunking, refusals
   and errors, what B took, then what is in flight, then A's send buffer is exactly the concatenation of A's
   successful sends, and the same from B to A.  With draining callbacks "took" is "was shown to the callback".
   */
  lemma ConnectionIsFaithful(fdA: int, fdB: int, ops: seq<LinkOp>)
    requires AllOk(ops)
    ensures Inv(Connected(fdA, fdB))
    ensures var l := Run(Connected(fdA, fdB), ops);
      && l.b.taken + l.ab + l.a.socket.outgoing == l.a.accepted
      && l.a.taken + l.ba + l.b.socket.outgoing == l.b.accepted
      && (AllDrain(ops) ==>
            && Flatten(l.b.shown) + l.ab + l.a.socket.outgoing == l.a.accepted
            && Flatten(l.a.shown) + l.ba + l.b.socket.outgoing == l.b.accepted)
  {
    assert Inv(Connected(fdA, fdB));
    if AllDrain(ops) {
      RunDrained(Connected(fdA, fdB), ops);
    }
  }

  // ---- Delivery under every fair schedule ----

  lemma {:induction false} StaysOpen(l: Link, ops: seq<LinkOp>)
    requires Inv(l) && AllOk(ops)
    ensures Run(l, ops).a.socket.fd == l.a.socket.fd && Run(l, ops).b.socket.fd == l.b.socket.fd
    decreases |ops|
  {
    if ops != [] {
      var op := ops[0];
      if op.TurnBy? && op.side == A {
        KeepsDescriptor(l.a.socket, Turn(Answer(op.net, l.ba), op.callback, op.sends));
      } else if op.TurnBy? {
        KeepsDescriptor(l.b.socket, Turn(Answer(op.net, l.ab), op.callback, op.sends));
      }
      ApplyLinkInv(l, op);
      StaysOpen(ApplyLink(l, op), ops[1..]);
    }
  }

  function Other(side: Side): Side {
    if side == A then B else A
  }

  function End(l: Link, side: Side): Session {
    if side == A then l.a else l.b
  }

  function Pipe(l: Link, from: Side): Bytes {
    if from == A then l.ab else l.ba
  }

  /** How many of the first n bytes are not there yet. */
  function Missing(n: nat, bytes: Bytes): nat {
    if |bytes| < n then n - |bytes| else 0
  }

  /** Bytes to transmit and bytes to take until the other end has the first n bytes sent. */
  function Work(l: Link, from: Side, n: nat): nat {
    Missing(n, End(l, from).transmitted) + Missing(n, End(l, Other(from)).taken)
  }

  /** A turn of this end in which the kernel has room for at least one byte. */
  predicate Writes(op: LinkOp, side: Side) {
    op.TurnBy? && op.side == side && op.sends != [] && op.sends[0].Accept? && op.sends[0].n > 0
  }

  /** A turn of this end in which the network hands over at least one byte if one is in flight. */
  predicate Reads(op: LinkOp, side: Side) {
    op.TurnBy? && op.side == side && op.net.Chunk? && op.net.n > 0
  }

  predicate SomeWrites(ops: seq<LinkOp>, side: Side) {
    exists k :: 0 <= k < |ops| && Writes(ops[k], side)
  }

  predicate SomeReads(ops: seq<LinkOp>, side: Side) {
    exists k :: 0 <= k < |ops| && Reads(ops[k], side)
  }

  /** The sender gets room once and the receiver gets data once, in either order, among any other calls. */
  predicate FairRound(ops: seq<LinkOp>, from: Side) {
    && AllOk(ops) && AllDrain(ops)
    && SomeWrites(ops, from) && SomeReads(ops, Other(from))
  }

  /** An open connection whose callbacks have consumed everything so far. */
  ghost predicate Live(l: Link) {
    Inv(l) && Drained(l) && l.a.socket.fd >= 0 && l.b.socket.fd >= 0
  }

  lemma LiveStep(l: Link, op: LinkOp)
    requires Live(l) && Ok(op) && Drains(op)
    ensures Live(ApplyLink(l, op))
  {
    ApplyLinkInv(l, op);
    DrainLinkStep(l, op);
    StaysOpen(l, [op]);
    assert [op][1..] == [];
    assert Run(l, [op]) == Run(ApplyLink(l, op), []);
  }

  /** What has been sent, transmitted or taken is never taken back. */
  lemma OnlyGrows(l: Link, op: LinkOp, side: Side)
    requires Inv(l) && Ok(op)
    ensures var c, c' := End(l, side), End(ApplyLink(l, op), side);
      c.accepted <= c'.accepted && c.transmitted <= c'.transmitted && c.taken <= c'.taken
  {
  }

  /** Room for the sender moves it on while some of the first n bytes wait in its buffer. */
  lemma WriteMoves(l: Link, op: LinkOp, from: Side, n: nat)
    requires Live(l) && Ok(op) && Writes(op, from)
    requires |End(l, from).transmitted| < n <= |End(l, from).accepted|
    ensures |End(ApplyLink(l, op), from).transmitted| > |End(l, from).transmitted|
  {
    var c := End(l, from);
    var turn := Turn(Answer(op.net, Pipe(l, Other(from))), op.callback, op.sends);
    var r := Receive(c.socket, turn.recv, turn.callback);
    SendAndRecvConserves(c.socket, turn);
    FlushExact(r.socket.outgoing, op.sends);
    BufferGrows(c.socket, turn);
  }

  /** Receiving adds the callback's messages to the send buffer before the flush. */
  lemma BufferGrows(s: Socket, turn: Turn)
    requires Fits(s)
    ensures |Receive(s, turn.recv, turn.callback).socket.outgoing| >= |s.outgoing|
  {
    if turn.recv.Data? {
      var bytes := turn.recv.bytes;
      var taken := bytes[..Min(|bytes|, TCP_BUFFER_SIZE - |s.incoming|)];
      SendEachAppends(s.(incoming := s.incoming + taken), turn.callback.sends);
    }
  }

  /** Data for the receiver moves it on while bytes are in flight. */
  lemma ReadMoves(l: Link, op: LinkOp, side: Side)
    requires Live(l) && Ok(op) && Reads(op, side) && Pipe(l, Other(side)) != []
    ensures |End(ApplyLink(l, op), side).taken| > |End(l, side).taken|
  {
  }

  lemma StepWork(l: Link, op: LinkOp, from: Side, n: nat)
    requires Inv(l) && Ok(op)
    ensures Work(ApplyLink(l, op), from, n) <= Work(l, from, n)
  {
    OnlyGrows(l, op, from);
    OnlyGrows(l, op, Other(from));
  }

  lemma {:induction false} WorkNeverGrows(l: Link, ops: seq<LinkOp>, from: Side, n: nat)
    requires Inv(l) && AllOk(ops)
    ensures Work(Run(l, ops), from, n) <= Work(l, from, n)
    ensures End(l, from).accepted <= End(Run(l, ops), from).accepted
    decreases |ops|
  {
    if ops != [] {
      StepWork(l, ops[0], from, n);
      OnlyGrows(l, ops[0], from);
      ApplyLinkInv(l, ops[0]);
      WorkNeverGrows(ApplyLink(l, ops[0]), ops[1..], from, n);
    }
  }

  /** While the sender has some of the first n bytes to transmit, room for it shrinks the work. */
  lemma {:induction false} WillWrite(l: Link, ops: seq<LinkOp>, from: Side, n: nat)
    requires Live(l) && AllOk(ops) && AllDrain(ops) && SomeWrites(ops, from)
    requires |End(l, from).transmitted| < n <= |End(l, from).accepted|
    ensures Work(Run(l, ops), from, n) < Work(l, from, n)
    decreases |ops|
  {
    var op, rest := ops[0], ops[1..];
    var l' := ApplyLink(l, op);
    LiveStep(l, op);
    StepWork(l, op, from, n);
    OnlyGrows(l, op, from);
    OnlyGrows(l, op, Other(from));
    if Writes(op, from) {
      WriteMoves(l, op, from, n);
    }
    if Work(l', from, n) < Work(l, from, n) {
      WorkNeverGrows(l', rest, from, n);
    } else {
      var k :| 0 <= k < |ops| && Writes(ops[k], from);
      assert rest[k - 1] == ops[k];
      WillWrite(l', rest, from, n);
    }
  }

  /** Once the first n bytes are transmitted, data for the receiver shrinks the work. */
  lemma {:induction false} WillRead(l: Link, ops: seq<LinkOp>, from: Side, n: nat)
    requires Live(l) && AllOk(ops) && AllDrain(ops) && SomeReads(ops, Other(from))
    requires |End(l, Other(from)).taken| < n <= |End(l, from).transmitted|
    ensures Work(Run(l, ops), from, n) < Work(l, from, n)
    decreases |ops|
  {
    var op, rest := ops[0], ops[1..];
    var l' := ApplyLink(l, op);
    LiveStep(l, op);
    StepWork(l, op, from, n);
    OnlyGrows(l, op, from);
    OnlyGrows(l, op, Other(from));
    if Reads(op, Other(from)) {
      ReadMoves(l, op, Other(from));
    }
    if Work(l', from, n) < Work(l, from, n) {
      WorkNeverGrows(l', rest, from, n);
    } else {
      var k :| 0 <= k < |ops| && Reads(ops[k], Other(from));
      assert rest[k - 1] == ops[k];
      WillRead(l', rest, from, n);
    }
  }

  /** In every fair round the work left shrinks, wherever in it the two turns are. */
  lemma {:induction false} RoundProgress(l: Link, ops: seq<LinkOp>, from: Side, n: nat)
    requires Live(l) && FairRound(ops, from) && n <= |End(l, from).accepted| && Work(l, from, n) > 0
    ensures Work(Run(l, ops), from, n) < Work(l, from, n)
    decreases |ops|
  {
    var op, rest := ops[0], ops[1..];
    var l' := ApplyLink(l, op);
    LiveStep(l, op);
    StepWork(l, op, from, n);
    OnlyGrows(l, op, from);
    OnlyGrows(l, op, Other(from));
    RoundRest(ops, from);
    if Work(l', from, n) < Work(l, from, n) {
      WorkNeverGrows(l', rest, from, n);
    } else if Writes(op, from) {
      WritesDone(l, op, from, n);
      WillRead(l', rest, from, n);
    } else if Reads(op, Other(from)) {
      ReadsDone(l, op, from, n);
      WillWrite(l', rest, from, n);
    } else {
      RoundProgress(l', rest, from, n);
    }
  }

  /** What the rest of a fair round still contains. */
  lemma RoundRest(ops: seq<LinkOp>, from: Side)
    requires FairRound(ops, from)
    ensures AllOk(ops[1..]) && AllDrain(ops[1..])
    ensures !Writes(ops[0], from) ==> SomeWrites(ops[1..], from)
    ensures !Reads(ops[0], Other(from)) ==> SomeReads(ops[1..], Other(from))
  {
    var w :| 0 <= w < |ops| && Writes(ops[w], from);
    var r :| 0 <= r < |ops| && Reads(ops[r], Other(from));
    assert w > 0 ==> ops[1..][w - 1] == ops[w];
    assert r > 0 ==> ops[1..][r - 1] == ops[r];
  }

  /** If room for the sender changed nothing, the first n bytes are transmitted and some are still to be taken. */
  lemma WritesDone(l: Link, op: LinkOp, from: Side, n: nat)
    requires Live(l) && Ok(op) && Writes(op, from) && n <= |End(l, from).accepted|
    requires 0 < Work(l, from, n) <= Work(ApplyLink(l, op), from, n)
    ensures var l' := ApplyLink(l, op); |End(l', Other(from)).taken| < n <= |End(l', from).transmitted|
  {
    OnlyGrows(l, op, from);
    if |End(l, from).transmitted| < n {
      WriteMoves(l, op, from, n);
    }
  }

  /** If data for the receiver changed nothing, nothing was in flight and the sender still has bytes to transmit. */
  lemma ReadsDone(l: Link, op: LinkOp, from: Side, n: nat)
    requires Live(l) && Ok(op) && Reads(op, Other(from)) && n <= |End(l, from).accepted|
    requires 0 < Work(l, from, n) <= Work(ApplyLink(l, op), from, n)
    ensures var l' := ApplyLink(l, op); |End(l', from).transmitted| < n <= |End(l', from).accepted|
  {
    OnlyGrows(l, op, Other(from));
    assert End(l, from).transmitted == End(l, Other(from)).taken + Pipe(l, from);
    if Pipe(l, from) != [] {
      ReadMoves(l, op, Other(from));
    }
  }

  lemma {:induction false} RunLive(l: Link, ops: seq<LinkOp>)
    requires Live(l) && AllOk(ops) && AllDrain(ops)
    ensures Live(Run(l, ops))
    decreases |ops|
  {
    if ops != [] {
      LiveStep(l, ops[0]);
      RunLive(ApplyLink(l, ops[0]), ops[1..]);
    }
  }

  lemma {:induction false} RunAppend(l: Link, a: seq<LinkOp>, b: seq<LinkOp>)
    requires Inv(l) && AllOk(a) && AllOk(b)
    ensures AllOk(a + b) && Run(l, a + b) == Run(Run(l, a), b)
    decreases |a|
  {
    if a == [] {
      assert a + b == b;
    } else {
      ApplyLinkInv(l, a[0]);
      assert (a + b)[1..] == a[1..] + b && (a + b)[0] == a[0];
      RunAppend(ApplyLink(l, a[0]), a[1..], b);
    }
  }

  predicate AllFair(rounds: seq<seq<LinkOp>>, from: Side) {
    forall k :: 0 <= k < |rounds| ==> FairRound(rounds[k], from)
  }

  lemma {:induction false} AllFairOk(rounds: seq<seq<LinkOp>>, from: Side)
    requires AllFair(rounds, from)
    ensures AllOk(Flatten(rounds)) && AllDrain(Flatten(rounds))
  {
    if rounds != [] {
      AllFairOk(rounds[1..], from);
      assert FairRound(rounds[0], from);
    }
  }

  lemma {:induction false} WorkRunsOut(l: Link, from: Side, n: nat, rounds: seq<seq<LinkOp>>)
    requires Live(l) && AllFair(rounds, from) && Work(l, from, n) <= |rounds| && n <= |End(l, from).accepted|
    ensures AllOk(Flatten(rounds)) && Work(Run(l, Flatten(rounds)), from, n) == 0
    decreases |rounds|
  {
    AllFairOk(rounds, from);
    if Work(l, from, n) == 0 {
      WorkNeverGrows(l, Flatten(rounds), from, n);
    } else {
      var first, rest := rounds[0], rounds[1..];
      assert FairRound(first, from);
      RoundProgress(l, first, from, n);
      WorkNeverGrows(l, first, from, n);
      RunLive(l, first);
      AllFairOk(rest, from);
      RunAppend(l, first, Flatten(rest));
      WorkRunsOut(Run(l, first), from, n, rest);
    }
  }

  /** With no work left, everything sent before has been shown to the other end's callback. */
  lemma NoWorkMeansShown(l: Link, from: Side, sent: Bytes)
    requires Inv(l) && Drained(l) && sent <= End(l, from).accepted && Work(l, from, |sent|) == 0
    ensures sent <= Flatten(End(l, Other(from)).shown)
  {
    var c, d := End(l, from), End(l, Other(from));
    assert c.accepted == d.taken + Pipe(l, from) + c.socket.outgoing;
    assert c.accepted[..|d.taken|] == d.taken;
  }

  lemma DeliveryFrom(l: Link, from: Side, rounds: seq<seq<LinkOp>>)
    requires Live(l) && AllFair(rounds, from) && |rounds| >= Work(l, from, |End(l, from).accepted|)
    ensures AllOk(Flatten(rounds)) && Live(Run(l, Flatten(rounds)))
    ensures End(l, from).accepted <= Flatten(End(Run(l, Flatten(rounds)), Other(from)).shown)
  {
    var sent := End(l, from).accepted;
    AllFairOk(rounds, from);
    WorkRunsOut(l, from, |sent|, rounds);
    WorkNeverGrows(l, Flatten(rounds), from, |sent|);
    RunLive(l, Flatten(rounds));
    NoWorkMeansShown(Run(l, Flatten(rounds)), from, sent);
  }

  /**
   Delivery, in either direction: from every state reached with draining callbacks, after as many fair rounds as
   there are bytes to transmit and to take, whatever else happens in them, the other end's callback has been shown
   everything sent so far, in order.
   */
  lemma FairDelivery(fdA: int, fdB: int, before: seq<LinkOp>, from: Side, rounds: seq<seq<LinkOp>>)
    requires fdA >= 0 && fdB >= 0 && AllOk(before) && AllDrain(before) && AllFair(rounds, from)
    ensures Inv(Connected(fdA, fdB)) && AllOk(Flatten(rounds))
    ensures var l := Run(Connected(fdA, fdB), before); var sent := End(l, from).accepted;
      |rounds| >= Work(l, from, |sent|) ==>
        sent <= Flatten(End(Run(l, Flatten(rounds)), Other(from)).shown)
  {
    var start := Connected(fdA, fdB);
    assert Live(start);
    RunLive(start, before);
    AllFairOk(rounds, from);
    var l := Run(start, before);
    if |rounds| >= Work(l, from, |End(l, from).accepted|) {
      DeliveryFrom(l, from, rounds);
    }
  }

  // ---- A delivering continuation exists ----

  /** A turn with room and data whose callback sends nothing. */
  function Willing(side: Side): LinkOp {
    TurnBy(side, Chunk(TCP_BUFFER_SIZE), Callback([], 0), [Accept(TCP_BUFFER_SIZE)])
  }

  const BOTH: seq<LinkOp> := [Willing(A), Willing(B)]

  lemma BothIsFair(from: Side)
    ensures FairRound(BOTH, from)
  {
    var w, r := if from == A then 0 else 1, if from == A then 1 else 0;
    assert Writes(BOTH[w], from) && Reads(BOTH[r], Other(from));
  }

  function Rounds(n: nat): seq<seq<LinkOp>> {
    if n == 0 then [] else [BOTH] + Rounds(n - 1)
  }

  lemma {:induction false} RoundsAreFair(n: nat, from: Side)
    ensures |Rounds(n)| == n && AllFair(Rounds(n), from)
  {
    if n > 0 {
      BothIsFair(from);
      RoundsAreFair(n - 1, from);
    }
  }

  lemma {:induction false} RoundsAddNothing(l: Link, n: nat, from: Side)
    requires Inv(l)
    ensures AllOk(Flatten(Rounds(n)))
    ensures End(Run(l, Flatten(Rounds(n))), from).accepted == End(l, from).accepted
    decreases n
  {
    if n > 0 {
      BothAddsNothing(l, from);
      RoundsAddNothing(Run(l, BOTH), n - 1, from);
      RunAppend(l, BOTH, Flatten(Rounds(n - 1)));
      assert Rounds(n)[1..] == Rounds(n - 1);
    }
  }

  lemma BothAddsNothing(l: Link, from: Side)
    requires Inv(l)
    ensures AllOk(BOTH) && End(Run(l, BOTH), from).accepted == End(l, from).accepted
  {
    var l1 := ApplyLink(l, Willing(A));
    ApplyLinkInv(l, Willing(A));
    WillingAddsNothing(l, A, from);
    WillingAddsNothing(l1, B, from);
    assert BOTH[1..] == [Willing(B)] && [Willing(B)][1..] == [];
    ApplyLinkInv(l1, Willing(B));
    assert Run(l1, [Willing(B)]) == Run(ApplyLink(l1, Willing(B)), []);
  }

  lemma WillingAddsNothing(l: Link, side: Side, from: Side)
    requires Inv(l)
    ensures End(ApplyLink(l, Willing(side)), from).accepted == End(l, from).accepted
  {
  }

  /** An end cannot have been shown more than was sent to it. */
  lemma ShownIsSent(l: Link, from: Side)
    requires Inv(l) && Drained(l) && End(l, from).accepted <= Flatten(End(l, Other(from)).shown)
    ensures Flatten(End(l, Other(from)).shown) == End(l, from).accepted
  {
    var c, d := End(l, from), End(l, Other(from));
    assert c.accepted == d.taken + Pipe(l, from) + c.socket.outgoing;
  }

  lemma DeliverQuietly(l: Link, from: Side) returns (after: seq<LinkOp>)
    requires Live(l)
    ensures AllOk(after)
    ensures var l' := Run(l, after);
      && Flatten(End(l', Other(from)).shown) == End(l', from).accepted
      && End(l', from).accepted == End(l, from).accepted
  {
    var n := Work(l, from, |End(l, from).accepted|);
    RoundsAreFair(n, from);
    RoundsAddNothing(l, n, from);
    DeliveryFrom(l, from, Rounds(n));
    after := Flatten(Rounds(n));
    ShownIsSent(Run(l, after), from);
  }

  /** From every state reached with draining callbacks, some continuation shows the other end exactly what was sent. */
  lemma CanDeliver(fdA: int, fdB: int, before: seq<LinkOp>, from: Side) returns (after: seq<LinkOp>)
    requires fdA >= 0 && fdB >= 0 && AllDrain(before) && AllOk(before)
    ensures Inv(Connected(fdA, fdB)) && AllOk(after)
    ensures var l := Run(Connected(fdA, fdB), before); var l' := Run(l, after);
      && Flatten(End(l', Other(from)).shown) == End(l', from).accepted
      && End(l', from).accepted == End(l, from).accepted
  {
    var start := Connected(fdA, fdB);
    assert Live(start);
    RunLive(start, before);
    after := DeliverQuietly(Run(start, before), from);
  }
}
