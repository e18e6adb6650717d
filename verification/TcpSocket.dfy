/** The socket object of src/tcp_socket.cpp: two fixed buffers updated in place, proved against TcpSocketSpec. */
module TcpSocket {
  import opened Sequences
  import opened TcpSocketSpec
  import opened Wrappers

  class TCPSocket {
    var fd: int
    const sendBuffer: array<byte>
    var nextSendValidIndex: nat
    const rcvBuffer: array<byte>
    var nextRcvValidIndex: nat
    var sendDisconnected: bool
    var recvDisconnected: bool

    ghost predicate Valid()
      reads this
    {
      && sendBuffer.Length == rcvBuffer.Length == TCP_BUFFER_SIZE
      && sendBuffer != rcvBuffer
      && nextSendValidIndex <= TCP_BUFFER_SIZE
      && nextRcvValidIndex <= TCP_BUFFER_SIZE
    }

    ghost function State(): (s: Socket)
      requires Valid()
      reads this, sendBuffer, rcvBuffer
      ensures Fits(s)
    {
      Socket(fd, sendBuffer[..nextSendValidIndex], rcvBuffer[..nextRcvValidIndex],
             sendDisconnected, recvDisconnected)
    }

    constructor ()
      ensures Valid() && fresh(sendBuffer) && fresh(rcvBuffer)
      ensures State() == NewSocket()
    {
      fd := -1;
      sendBuffer := new byte[TCP_BUFFER_SIZE];
      rcvBuffer := new byte[TCP_BUFFER_SIZE];
      nextSendValidIndex, nextRcvValidIndex := 0, 0;
      sendDisconnected, recvDisconnected := false, false;
    }

    /** Returns the descriptor it closed, if any. */
    method Destroy() returns (closed: Option<int>)
      requires Valid()
      modifies this
      ensures Valid() && State() == TcpSocketSpec.Destroy(old(State())).0
      ensures closed == TcpSocketSpec.Destroy(old(State())).1
      ensures fd < 0 && nextSendValidIndex == nextRcvValidIndex == 0 && !sendDisconnected && !recvDisconnected
      ensures closed == if old(fd) >= 0 then Some(old(fd)) else None
    {
      closed := None;
      if fd >= 0 {
        closed := Some(fd);
        fd := -1;
      }
      nextSendValidIndex := 0;
      nextRcvValidIndex := 0;
      sendDisconnected := false;
      recvDisconnected := false;
      assert State().outgoing == [] && State().incoming == [];
    }

    /** Copies the message behind the bytes already waiting, or refuses it and changes nothing. */
    method Send(data: Option<Bytes>, len: nat) returns (ok: bool)
      requires Valid() && (data.Some? ==> len <= |data.value|)
      modifies this`nextSendValidIndex, sendBuffer
      ensures Valid() && State() == TcpSocketSpec.Send(old(State()), data, len).0
      ensures ok == TcpSocketSpec.Send(old(State()), data, len).1
    {
      if len == 0 {
        return true;
      }
      if data.None? || nextSendValidIndex > TCP_BUFFER_SIZE || len > TCP_BUFFER_SIZE - nextSendValidIndex {
        return false;
      }
      var start, bytes := nextSendValidIndex, data.value;
      forall i | 0 <= i < len {
        sendBuffer[start + i] := bytes[i];
      }
      nextSendValidIndex := nextSendValidIndex + len;
      assert sendBuffer[..start + len] == old(sendBuffer[..start]) + bytes[..len];
      assert rcvBuffer[..nextRcvValidIndex] == old(rcvBuffer[..nextRcvValidIndex]);
      ok := true;
    }

    /** The callback's messages, one send after the other; those that do not fit are refused. */
    method SendMessages(messages: seq<Bytes>) returns (queued: Bytes)
      requires Valid()
      modifies this`nextSendValidIndex, sendBuffer
      ensures Valid()
      ensures State() == SendEach(old(State()), messages).0
      ensures queued == SendEach(old(State()), messages).1
    {
      queued := [];
      ghost var goal := SendEach(State(), messages);
      for i := 0 to |messages|
        invariant Valid()
        invariant goal.0 == SendEach(State(), messages[i..]).0
        invariant goal.1 == queued + SendEach(State(), messages[i..]).1
      {
        var m := messages[i];
        ghost var rest := messages[i..];
        assert rest[0] == m && rest[1..] == messages[i + 1..];
        SendEachStep(State(), rest, queued);
        var ok := Send(Some(m), |m|);
        if ok {
          queued := queued + m;
        }
      }
    }

    /** The callback sends its messages and then gives back receive buffer space. */
    method RunCallback(callback: Callback) returns (queued: Bytes)
      requires Valid()
      modifies this, sendBuffer
      ensures Valid()
      ensures var (s, added) := SendEach(old(State()), callback.sends);
        && queued == added
        && State() == s.(incoming := old(State()).incoming[..Min(callback.keep, |old(State()).incoming|)])
    {
      ghost var start := State();
      queued := SendMessages(callback.sends);
      SendEachAppends(start, callback.sends);
      nextRcvValidIndex := Min(callback.keep, nextRcvValidIndex);
      assert State().incoming == start.incoming[..nextRcvValidIndex];
    }

    /** The send loop followed by the compaction. */
    method FlushOutgoing(answers: seq<SendAnswer>) returns (transmitted: Bytes)
      requires Valid()
      modifies this`nextSendValidIndex, this`sendDisconnected, sendBuffer
      ensures Valid()
      ensures var f := Flush(old(State()).outgoing, answers);
        && transmitted == f.sent
        && State() == old(State()).(outgoing := f.rest,
                                    sendDisconnected := old(sendDisconnected) || f.broken)
    {
      ghost var out := State().outgoing;
      var totalSent, broken := SendLoop(out, nextSendValidIndex, answers);
      if broken {
        sendDisconnected := true;
      }
      transmitted := sendBuffer[..totalSent];
      assert transmitted == out[..totalSent];
      Compact(totalSent);
    }

    /** Moves the unsent bytes to the front; source and destination may overlap. */
    method Compact(totalSent: nat)
      requires Valid() && totalSent <= nextSendValidIndex
      modifies this`nextSendValidIndex, sendBuffer
      ensures Valid()
      ensures State() == old(State()).(outgoing := old(State()).outgoing[totalSent..])
    {
      if totalSent > 0 {
        var unsent := nextSendValidIndex - totalSent;
        if unsent > 0 {
          forall i | 0 <= i < unsent {
            sendBuffer[i] := sendBuffer[totalSent + i];
          }
        }
        nextSendValidIndex := unsent;
      }
      assert State().outgoing == old(State()).outgoing[totalSent..];
    }

    /** One non-blocking receive, then flush.  Returns true only when new bytes were received. */
    method SendAndRecv(turn: Turn) returns (received: bool, transmitted: Bytes, shown: Option<Bytes>)
      requires Valid()
      modifies this, sendBuffer, rcvBuffer
      ensures Valid()
      ensures var io := TcpSocketSpec.SendAndRecv(old(State()), turn);
        State() == io.socket && received == io.received && transmitted == io.transmitted && shown == io.shown
    {
      received, transmitted, shown := false, [], None;
      if fd < 0 {
        return;
      }
      if nextRcvValidIndex >= TCP_BUFFER_SIZE {
        recvDisconnected := true;
        return;
      }
      received, shown := ReceiveOnce(turn.recv, turn.callback);
      transmitted := FlushOutgoing(turn.sends);
    }

    /** recvmsg, and the callback when something arrived. */
    method ReceiveOnce(recv: RecvAnswer, callback: Callback) returns (received: bool, shown: Option<Bytes>)
      requires Valid() && nextRcvValidIndex < TCP_BUFFER_SIZE
      modifies this, sendBuffer, rcvBuffer
      ensures Valid()
      ensures var r := Receive(old(State()), recv, callback);
        State() == r.socket && received == (r.taken != []) && shown == r.shown
    {
      received, shown := false, None;
      match recv
      case RecvBlocked =>
      case RecvBroken => recvDisconnected := true;
      case Data(bytes) =>
        var n := Min(|bytes|, TCP_BUFFER_SIZE - nextRcvValidIndex);
        if n == 0 {
          recvDisconnected := true;
        } else {
          Arrive(bytes[..n]);
          received, shown := true, Some(rcvBuffer[..nextRcvValidIndex]);
          var queued := RunCallback(callback);
        }
    }

    /** The kernel copies arriving bytes behind the valid part of the receive buffer. */
    method Arrive(bytes: Bytes)
      requires Valid() && |bytes| <= TCP_BUFFER_SIZE - nextRcvValidIndex
      modifies this`nextRcvValidIndex, rcvBuffer
      ensures Valid()
      ensures State() == old(State()).(incoming := old(State()).incoming + bytes)
    {
      var start := nextRcvValidIndex;
      forall i | 0 <= i < |bytes| {
        rcvBuffer[start + i] := bytes[i];
      }
      nextRcvValidIndex := start + |bytes|;
      assert rcvBuffer[..start + |bytes|] == old(rcvBuffer[..start]) + bytes;
    }
  }

  /** The send loop: how many of the waiting bytes the kernel accepts, and whether the connection broke. */
  method SendLoop(ghost out: Bytes, nextSendValidIndex: nat, answers: seq<SendAnswer>)
    returns (totalSent: nat, broken: bool)
    requires nextSendValidIndex == |out|
    ensures totalSent <= nextSendValidIndex
    ensures Flush(out, answers) == Flushed(out[..totalSent], out[totalSent..], broken)
  {
    totalSent, broken := 0, false;
    var i := 0;
    while totalSent < nextSendValidIndex && i < |answers|
      invariant 0 <= i <= |answers| && !broken
      invariant Accepted(answers, i, |out|) && totalSent == Reached(answers, i, |out|)
      decreases |answers| - i
    {
      var remaining := nextSendValidIndex - totalSent;
      if answers[i].SendBroken? {
        broken := true;
        break;
      }
      if answers[i].SendBlocked? {
        break;
      }
      var sent := Min(answers[i].n, remaining);
      if sent == 0 {
        break;
      }
      totalSent := totalSent + sent;
      i := i + 1;
    }
    ProgressReached(out, answers, i);
    ProgressStop(out, answers, totalSent, i);
  }

  lemma SendEachStep(s: Socket, messages: seq<Bytes>, queued: Bytes)
    requires messages != []
    ensures var m := messages[0]; var (s', ok) := Send(s, Some(m), |m|);
      && SendEach(s, messages).0 == SendEach(s', messages[1..]).0
      && queued + SendEach(s, messages).1
         == (if ok then queued + m else queued) + SendEach(s', messages[1..]).1
  {
    var m := messages[0];
    assert m[..|m|] == m;
    AppendAssoc(queued, Added(s, Some(m), |m|), SendEach(Send(s, Some(m), |m|).0, messages[1..]).1);
  }

  /** After i answers the kernel has the first total bytes, and the rest of the loop is the loop on the rest. */
  ghost predicate Progress(out: Bytes, answers: seq<SendAnswer>, total: nat, i: nat) {
    && total <= |out| && i <= |answers|
    && var f, g := Flush(out, answers), Flush(out[total..], answers[i..]);
    && f.sent == out[..total] + g.sent && f.rest == g.rest && f.broken == g.broken
  }

  /** The kernel takes nothing more. */
  predicate Stops(answer: SendAnswer, remaining: nat) {
    answer.Accept? ==> Min(answer.n, remaining) == 0
  }

  /** The first i answers all take bytes of a buffer of the given size. */
  predicate Accepted(answers: seq<SendAnswer>, i: nat, size: nat)
    requires i <= |answers|
  {
    i == 0 ||
    (Accepted(answers, i - 1, size) && Reached(answers, i - 1, size) < size
     && !Stops(answers[i - 1], size - Reached(answers, i - 1, size)))
  }

  /** How many bytes of a buffer of the given size they take. */
  function Reached(answers: seq<SendAnswer>, i: nat, size: nat): (total: nat)
    requires i <= |answers|
    ensures total <= size
  {
    if i == 0 || !answers[i - 1].Accept? then 0
    else
      var before := Reached(answers, i - 1, size);
      before + Min(answers[i - 1].n, size - before)
  }

  lemma {:induction false} ProgressReached(out: Bytes, answers: seq<SendAnswer>, i: nat)
    requires i <= |answers| && Accepted(answers, i, |out|)
    ensures Progress(out, answers, Reached(answers, i, |out|), i)
  {
    if i == 0 {
      ProgressStart(out, answers);
    } else {
      ProgressReached(out, answers, i - 1);
      ProgressStep(out, answers, Reached(answers, i - 1, |out|), i - 1);
    }
  }

  lemma ProgressStart(out: Bytes, answers: seq<SendAnswer>)
    ensures Progress(out, answers, 0, 0)
  {
    assert out[0..] == out && answers[0..] == answers && out[..0] == [];
  }

  lemma ProgressStep(out: Bytes, answers: seq<SendAnswer>, total: nat, i: nat)
    requires Progress(out, answers, total, i) && total < |out| && i < |answers|
    requires !Stops(answers[i], |out| - total)
    ensures Progress(out, answers, total + Min(answers[i].n, |out| - total), i + 1)
  {
    var k, left, more := Min(answers[i].n, |out| - total), out[total..], answers[i..];
    assert left[k..] == out[total + k..] && more[1..] == answers[i + 1..];
    assert out[..total + k] == out[..total] + left[..k];
    AppendAssoc(out[..total], left[..k], Flush(left[k..], more[1..]).sent);
  }

  lemma ProgressStop(out: Bytes, answers: seq<SendAnswer>, total: nat, i: nat)
    requires Progress(out, answers, total, i)
    requires total == |out| || i == |answers| || Stops(answers[i], |out| - total)
    ensures Flush(out, answers) == Flushed(out[..total], out[total..],
      total < |out| && i < |answers| && answers[i].SendBroken?)
  {
    assert Flush(out[total..], answers[i..]).sent == [];
  }
}
