/** What every run of the server keeps: exact ownership, list agreement, complete removal, balanced resources. */
module TcpServerRuns {
  import opened Wrappers
  import opened TcpSocketSpec
  import opened TcpServerSpec

  // ---- Replaying the trace ----

  /** The resources held after a trace; None if something was acquired twice or released while not held. */
  ghost function Replay(trace: seq<Event>): Option<set<Resource>> {
    if trace == [] then Some({})
    else Next(Replay(trace[..|trace| - 1]), trace[|trace| - 1])
  }

  ghost function Next(held: Option<set<Resource>>, e: Event): Option<set<Resource>> {
    match held
    case None => None
    case Some(h) =>
      match e
      case Acquired(r) => if r in h then None else Some(h + {r})
      case Released(r) => if r in h then Some(h - {r}) else None
  }

  lemma ReplaySnoc(trace: seq<Event>, e: Event)
    ensures Replay(trace + [e]) == Next(Replay(trace), e)
  {
    assert (trace + [e])[..|trace|] == trace;
  }

  /** The sockets a trace has allocated and not freed, in the order in which they were accepted. */
  ghost function Owned(trace: seq<Event>): seq<Addr> {
    if trace == [] then []
    else NextOwned(Owned(trace[..|trace| - 1]), trace[|trace| - 1])
  }

  ghost function NextOwned(owned: seq<Addr>, e: Event): seq<Addr> {
    if e.r.Desc? then owned
    else if e.Acquired? then owned + [e.r.a]
    else Without(owned, e.r.a)
  }

  lemma OwnedSnoc(trace: seq<Event>, e: Event)
    ensures Owned(trace + [e]) == NextOwned(Owned(trace), e)
  {
    assert (trace + [e])[..|trace|] == trace;
  }

  /** In a legal trace these are exactly the allocations held, each once. */
  lemma {:induction false} OwnedIsHeld(trace: seq<Event>)
    requires Replay(trace).Some?
    ensures NoDup(Owned(trace))
    ensures forall a :: a in Owned(trace) <==> Mem(a) in Replay(trace).value
  {
    if trace != [] {
      var before, e := trace[..|trace| - 1], trace[|trace| - 1];
      OwnedIsHeld(before);
      if e.r.Mem? {
        WithoutIs(Owned(before), e.r.a);
      }
    }
  }

  // ---- The invariant ----

  predicate Holds(s: Server, r: Resource) {
    match r
    case Mem(a) => a in s.heap
    case Desc(fd) => fd >= 0 && (fd == s.efd || fd == s.listener.fd || fd in Descriptors(s.heap))
  }

  /** The trace is legal and what it leaves held is exactly what the server's state refers to. */
  ghost predicate Traced(s: Server) {
    && Replay(s.trace).Some?
    && forall r :: r in Replay(s.trace).value <==> Holds(s, r)
  }

  /** Live clients have real addresses and pairwise different open descriptors. */
  ghost predicate Descs(s: Server) {
    && (s.efd >= 0 ==> s.efd != s.listener.fd)
    && (forall a :: a in s.heap ==>
          && a != NULL && a != LISTENER
          && s.heap[a].fd >= 0 && s.heap[a].fd != s.efd && s.heap[a].fd != s.listener.fd
          && Fits(s.heap[a]))
    && (forall a, b :: a in s.heap && b in s.heap && a != b ==> s.heap[a].fd != s.heap[b].fd)
  }

  /** The owning list and the receive list agree and hold exactly the live clients. */
  ghost predicate Lists(s: Server) {
    && s.receive == s.sockets
    && AllLive(s, s.sockets) && AllLive(s, s.send) && AllLive(s, s.disconnected)
    && forall a :: a in s.heap ==> a in s.sockets
  }

  /** epoll holds exactly the listener and the live clients, each under its own descriptor. */
  ghost predicate Registered(s: Server) {
    && (forall fd :: fd in s.epoll ==>
          || (fd == s.listener.fd && s.epoll[fd] == LISTENER)
          || (s.epoll[fd] in s.heap && s.heap[s.epoll[fd]].fd == fd))
    && (forall a :: a in s.heap ==> s.heap[a].fd in s.epoll && s.epoll[s.heap[a].fd] == a)
  }

  /** A server is either open, with its listener registered, or owns nothing; the listener carries no data. */
  predicate Phase(s: Server) {
    && IsNew(s.listener)
    && if s.efd < 0 then s.listener.fd < 0 && s.sockets == [] && s.epoll == map[]
       else s.listener.fd >= 0 && s.listener.fd in s.epoll && s.epoll[s.listener.fd] == LISTENER
  }

  /** The owning list is in acceptance order. */
  ghost predicate Ordered(s: Server) {
    s.sockets == Owned(s.trace)
  }

  /** Every client with a disconnect flag is scheduled for removal. */
  ghost predicate Noticed(s: Server) {
    forall a :: a in s.heap && Flagged(s.heap[a]) ==> a in s.disconnected
  }

  ghost predicate Core(s: Server) {
    Lists(s) && Descs(s) && Registered(s) && Phase(s) && Traced(s) && Ordered(s)
  }

  ghost predicate Inv(s: Server) {
    Core(s) && Noticed(s)
  }

  // ---- Lists ----

  lemma {:induction false} WithoutIs(list: seq<Addr>, a: Addr)
    ensures forall x :: x in Without(list, a) <==> x in list && x != a
    ensures NoDup(list) ==> NoDup(Without(list, a))
    ensures |Without(list, a)| <= |list|
  {
    if list != [] {
      WithoutIs(list[1..], a);
      var rest := Without(list[1..], a);
      assert forall x :: x in list <==> x == list[0] || x in list[1..];
      if NoDup(list) {
        assert NoDup(list[1..]);
        assert list[0] !in list[1..];
      }
    }
  }

  lemma AddUniqueIs(list: seq<Addr>, a: Addr)
    ensures forall x :: x in AddUnique(list, a) <==> x in list || x == a
    ensures NoDup(list) ==> NoDup(AddUnique(list, a))
    ensures a in list ==> AddUnique(list, a) == list
  {
  }

  lemma ListsLive(s: Server)
    requires Lists(s)
    ensures AllLive(s, s.sockets) && AllLive(s, s.send) && AllLive(s, s.disconnected)
    ensures Descs(s) ==> Serviceable(s, s.receive) && Serviceable(s, s.send)
  {
  }

  // ---- Deleting a client ----

  lemma OwnDescriptor(heap: map<Addr, Socket>, a: Addr)
    requires a in heap
    ensures heap[a].fd in Descriptors(heap)
  {
  }

  lemma DescriptorsRemove(heap: map<Addr, Socket>, a: Addr)
    requires a in heap
    requires forall b :: b in heap && b != a ==> heap[b].fd != heap[a].fd
    ensures Descriptors(heap - {a}) == Descriptors(heap) - {heap[a].fd}
  {
    forall fd | fd in Descriptors(heap) && fd != heap[a].fd
      ensures fd in Descriptors(heap - {a})
    {
      var b :| b in heap && heap[b].fd == fd;
      assert b in heap - {a} && (heap - {a})[b].fd == fd;
    }
  }

  /** Putting a socket at an address that is new, or keeps its descriptor, adds at most that descriptor. */
  lemma DescriptorsUpdate(heap: map<Addr, Socket>, a: Addr, c: Socket)
    requires a in heap ==> heap[a].fd == c.fd
    ensures Descriptors(heap[a := c]) == Descriptors(heap) + {c.fd}
  {
    var heap' := heap[a := c];
    assert heap'[a].fd == c.fd;
    forall fd | fd in Descriptors(heap)
      ensures fd in Descriptors(heap')
    {
      var b :| b in heap && heap[b].fd == fd;
      assert b in heap' && heap'[b].fd == fd;
    }
  }

  lemma DeleteTraced(s: Server, a: Addr)
    requires Descs(s) && Traced(s) && a in s.heap
    ensures Traced(Delete(s, a))
  {
    var fd := s.heap[a].fd;
    var s' := Delete(s, a);
    assert Holds(s, Desc(fd)) && Holds(s, Mem(a));
    ReplaySnoc(s.trace, Released(Desc(fd)));
    ReplaySnoc(s.trace + [Released(Desc(fd))], Released(Mem(a)));
    assert s'.trace == s.trace + [Released(Desc(fd))] + [Released(Mem(a))];
    DescriptorsRemove(s.heap, a);
    assert forall r :: Holds(s', r) <==> Holds(s, r) && r != Desc(fd) && r != Mem(a);
  }

  lemma DeleteDescs(s: Server, a: Addr)
    requires Descs(s) && a in s.heap
    ensures Descs(Delete(s, a))
  {
  }

  lemma WithoutLive(s: Server, s': Server, list: seq<Addr>, a: Addr)
    requires AllLive(s, list) && s'.heap == s.heap - {a}
    ensures AllLive(s', Without(list, a))
  {
    WithoutIs(list, a);
    var rest := Without(list, a);
    forall k | 0 <= k < |rest|
      ensures rest[k] in s'.heap
    {
      assert rest[k] in rest;
    }
  }

  lemma DelLists(s: Server, a: Addr)
    requires Lists(s) && a in s.heap
    ensures Lists(Del(s, a))
  {
    var s' := Del(s, a);
    WithoutLive(s, s', s.sockets, a);
    WithoutLive(s, s', s.send, a);
    WithoutLive(s, s', s.disconnected, a);
    WithoutIs(s.sockets, a);
  }

  lemma DelRegistered(s: Server, a: Addr)
    requires Descs(s) && Registered(s) && a in s.heap
    ensures Registered(Del(s, a))
  {
    assert Del(s, a).epoll == s.epoll - {s.heap[a].fd};
  }

  /** Del without the delete: the client taken out of epoll and of every list. */
  ghost function Unlisted(s: Server, a: Addr): Server
    requires a in s.heap
  {
    EpollDel(s, s.heap[a].fd).(sockets := Without(s.sockets, a), receive := Without(s.receive, a),
                               send := Without(s.send, a), disconnected := Without(s.disconnected, a))
  }

  lemma DelTraced(s: Server, a: Addr)
    requires Descs(s) && Traced(s) && a in s.heap
    ensures Descs(Del(s, a)) && Traced(Del(s, a))
  {
    var t := Unlisted(s, a);
    assert t.heap == s.heap && t.trace == s.trace && t.efd == s.efd && t.listener == s.listener;
    assert forall r :: Holds(t, r) <==> Holds(s, r);
    DeleteTraced(t, a);
    DeleteDescs(t, a);
  }

  lemma DelPhase(s: Server, a: Addr)
    requires Phase(s) && Descs(s) && Lists(s) && a in s.heap
    ensures Phase(Del(s, a))
  {
    assert a in s.sockets;
    assert Del(s, a).epoll == s.epoll - {s.heap[a].fd};
  }

  lemma DelOrdered(s: Server, a: Addr)
    requires Ordered(s) && a in s.heap
    ensures Ordered(Del(s, a))
  {
    var fd := s.heap[a].fd;
    OwnedSnoc(s.trace, Released(Desc(fd)));
    OwnedSnoc(s.trace, Released(Mem(a)));
    OwnedSnoc(s.trace + [Released(Desc(fd))], Released(Mem(a)));
  }

  /**
   What removal means: the client is gone from memory, from epoll and from every list, the others keep their
   order, and exactly its descriptor and its memory were given back.
   */
  ghost predicate Removed(s: Server, s': Server, a: Addr)
    requires a in s.heap
  {
    && s'.efd == s.efd && s'.listener == s.listener
    && s'.heap == s.heap - {a} && s'.epoll == s.epoll - {s.heap[a].fd}
    && s'.sockets == Keep(s.sockets, [a]) && s'.receive == Keep(s.receive, [a])
    && s'.send == Keep(s.send, [a]) && s'.disconnected == Keep(s.disconnected, [a])
    && a !in s'.sockets && a !in s'.receive && a !in s'.send && a !in s'.disconnected
    && s'.trace == s.trace + [Released(Desc(s.heap[a].fd)), Released(Mem(a))]
  }

  lemma WithoutKeeps(list: seq<Addr>, a: Addr)
    ensures Without(list, a) == Keep(list, [a]) && a !in Without(list, a)
  {
    KeepWithout(list, a, []);
    KeepAll(Without(list, a));
    assert [a] + [] == [a];
    WithoutIs(list, a);
  }

  lemma DelRemoves(s: Server, a: Addr)
    requires Descs(s) && Phase(s) && Lists(s) && a in s.heap
    ensures Removed(s, Del(s, a), a)
  {
    assert a in s.sockets;
    WithoutKeeps(s.sockets, a);
    WithoutKeeps(s.receive, a);
    WithoutKeeps(s.send, a);
    WithoutKeeps(s.disconnected, a);
    assert Del(s, a).epoll == s.epoll - {s.heap[a].fd};
  }

  /** Removing a client removes just that client and keeps everything in agreement. */
  lemma DelCore(s: Server, a: Addr)
    requires Core(s) && a in s.heap
    ensures Core(Del(s, a)) && Removed(s, Del(s, a), a)
  {
    DelTraced(s, a);
    DelLists(s, a);
    DelRegistered(s, a);
    DelPhase(s, a);
    DelOrdered(s, a);
    DelRemoves(s, a);
  }

  lemma ReapStepCore(s: Server, gone: seq<Addr>)
    requires Core(s) && gone != [] && AllLive(s, gone)
    ensures Core(Del(s, gone[0])) && AllLive(Del(s, gone[0]), gone[1..])
  {
    DelCore(s, gone[0]);
    DelKeepsOthers(s, gone);
  }

  lemma {:induction false} ReapCore(s: Server, gone: seq<Addr>)
    requires Core(s) && AllLive(s, gone)
    ensures Core(Reap(s, gone))
    decreases |gone|
  {
    if gone != [] {
      ReapStepCore(s, gone);
      ReapCore(Del(s, gone[0]), gone[1..]);
    }
  }

  /** Reaping removes exactly the listed clients and keeps the others as they are, in order. */
  lemma {:induction false} ReapRemoves(s: Server, gone: seq<Addr>)
    requires AllLive(s, gone)
    ensures var s' := Reap(s, gone);
      && (forall a :: a in s'.heap <==> a in s.heap && a !in gone)
      && (forall a :: a in s'.heap ==> s'.heap[a] == s.heap[a])
      && s'.sockets == Keep(s.sockets, gone)
      && s'.send == Keep(s.send, gone) && s'.disconnected == Keep(s.disconnected, gone)
      && s'.efd == s.efd && s'.listener == s.listener
    decreases |gone|
  {
    if gone == [] {
      KeepAll(s.sockets);
      KeepAll(s.send);
      KeepAll(s.disconnected);
    } else {
      var a, rest := gone[0], gone[1..];
      DelKeepsOthers(s, gone);
      ReapRemoves(Del(s, a), rest);
      KeepWithout(s.sockets, a, rest);
      KeepWithout(s.send, a, rest);
      KeepWithout(s.disconnected, a, rest);
      assert gone == [a] + rest;
    }
  }

  // ---- Order ----

  /** The members of a list that are not in gone, in their order. */
  function Keep(list: seq<Addr>, gone: seq<Addr>): seq<Addr> {
    if list == [] then []
    else (if list[0] in gone then [] else [list[0]]) + Keep(list[1..], gone)
  }

  lemma {:induction false} KeepAll(list: seq<Addr>)
    ensures Keep(list, []) == list
  {
    if list != [] {
      KeepAll(list[1..]);
    }
  }

  lemma {:induction false} KeepWithout(list: seq<Addr>, a: Addr, rest: seq<Addr>)
    ensures Keep(Without(list, a), rest) == Keep(list, [a] + rest)
  {
    if list != [] {
      KeepWithout(list[1..], a, rest);
      if list[0] != a {
        assert Without(list, a) == [list[0]] + Without(list[1..], a);
        assert Without(list, a)[1..] == Without(list[1..], a);
      } else {
        assert Without(list, a) == Without(list[1..], a);
      }
    }
  }

  // ---- destroy and listen ----

  lemma {:induction false} DeleteAllKeeps(s: Server, list: seq<Addr>)
    requires Descs(s) && Traced(s) && AllLive(s, list)
    ensures var s' := DeleteAll(s, list);
      && Descs(s') && Traced(s')
      && (forall a :: a in s'.heap <==> a in s.heap && a !in list)
      && s'.efd == s.efd && s'.listener == s.listener
    decreases |list|
  {
    if list != [] {
      DeleteTraced(s, list[0]);
      DeleteDescs(s, list[0]);
      DelKeepsOthers(s, list);
      DeleteAllKeeps(Delete(s, list[0]), list[1..]);
      assert list == [list[0]] + list[1..];
    }
  }

  /** Giving back one descriptor that only the efd or the listener field refers to. */
  lemma ReleaseTraced(s: Server, t: Server, fd: int)
    requires Traced(s) && Holds(s, Desc(fd)) && t.trace == s.trace + [Released(Desc(fd))]
    requires forall r :: Holds(t, r) <==> Holds(s, r) && r != Desc(fd)
    ensures Traced(t)
  {
    ReplaySnoc(s.trace, Released(Desc(fd)));
  }

  lemma AcquireTraced(s: Server, t: Server, x: Resource)
    requires Traced(s) && !Holds(s, x) && t.trace == s.trace + [Acquired(x)]
    requires forall r :: Holds(t, r) <==> Holds(s, r) || r == x
    ensures Traced(t)
  {
    ReplaySnoc(s.trace, Acquired(x));
  }

  /** destroy needs only this much, so that it also cleans up after a listen that failed half way. */
  ghost predicate Destroyable(s: Server) {
    && Descs(s) && Traced(s) && AllLive(s, s.sockets)
    && forall a :: a in s.heap ==> a in s.sockets
  }

  predicate Clean(s: Server) {
    && s.efd < 0 && s.listener.fd < 0 && IsNew(s.listener) && s.heap == map[] && s.epoll == map[]
    && s.sockets == s.receive == s.send == s.disconnected == []
  }

  lemma CloseEpollTraced(s: Server)
    requires Traced(s) && s.heap == map[] && (s.efd >= 0 ==> s.efd != s.listener.fd)
    ensures Traced(CloseEpoll(s))
  {
    if s.efd >= 0 {
      ReleaseTraced(s, CloseEpoll(s), s.efd);
    }
  }

  lemma CloseListenerTraced(s: Server)
    requires Traced(s) && s.heap == map[] && s.efd < 0
    ensures Traced(CloseListener(s))
  {
    var s' := CloseListener(s);
    if s.listener.fd >= 0 {
      ReleaseTraced(s, s', s.listener.fd);
    } else {
      assert forall r :: Holds(s', r) <==> Holds(s, r);
    }
  }

  /** A clean server satisfies the invariant, and its trace has given back everything it took. */
  lemma CleanIsBalanced(s: Server)
    requires Clean(s) && Traced(s)
    ensures Inv(s) && Replay(s.trace) == Some({})
  {
    assert forall r :: !Holds(s, r);
    assert Replay(s.trace).value == {};
    NoneOwned(s);
  }

  lemma NoneOwned(s: Server)
    requires Traced(s) && s.heap == map[]
    ensures Owned(s.trace) == []
  {
    var owned := Owned(s.trace);
    assert owned == [] || owned[0] in owned;
    OwnedIsHeld(s.trace);
    assert forall a :: Mem(a) in Replay(s.trace).value <==> Holds(s, Mem(a));
    assert forall a :: a !in owned;
  }

  lemma EmptiedIs(s: Server)
    requires Destroyable(s)
    ensures var s1 := Emptied(s);
      && Traced(s1) && s1.heap == map[]
      && s1.efd == s.efd && s1.listener == s.listener
      && (s.heap == map[] ==> s1.epoll == s.epoll)
  {
    DeleteAllKeeps(s, s.sockets);
    var s0, s1 := DeleteAll(s, s.sockets), Emptied(s);
    assert forall a :: a !in s0.heap;
    assert s1.heap == map[];
    assert forall r :: Holds(s1, r) <==> Holds(s0, r);
    assert s.heap == map[] ==> s.sockets == [];
  }

  lemma DestroyTraced(s: Server)
    requires Destroyable(s) && (s.efd < 0 ==> s.epoll == map[] && s.heap == map[])
    ensures Clean(TcpServerSpec.Destroy(s)) && Traced(TcpServerSpec.Destroy(s))
  {
    EmptiedIs(s);
    CloseEpollTraced(Emptied(s));
    CloseListenerTraced(CloseEpoll(Emptied(s)));
  }

  /** After destroy nothing is owned, and the trace gives back exactly what it took. */
  lemma DestroyCleans(s: Server)
    requires Destroyable(s) && (s.efd < 0 ==> s.epoll == map[] && s.heap == map[])
    ensures var s' := TcpServerSpec.Destroy(s);
      && Clean(s') && Inv(s')
      && Replay(s'.trace) == Some({})
  {
    DestroyTraced(s);
    CleanIsBalanced(TcpServerSpec.Destroy(s));
  }

  lemma InvDestroyable(s: Server)
    requires Inv(s)
    ensures Destroyable(s) && (s.efd < 0 ==> s.epoll == map[] && s.heap == map[])
  {
    ListsLive(s);
    if s.efd < 0 {
      assert forall a :: a !in s.heap;
    }
  }

  lemma OpenInv(s: Server, answer: ListenAnswer)
    requires Clean(s) && Traced(s)
    ensures var (s', ok) := Open(s, answer);
      && Inv(s') && s'.sockets == []
      && (ok <==> s'.efd >= 0)
      && (ok <==> answer.efd >= 0 && answer.fd >= 0 && answer.fd != answer.efd && answer.added)
      && (!ok ==> Clean(s') && Replay(s'.trace) == Some({}))
  {
    if answer.efd < 0 {
      StaysClean(s);
    } else {
      var s1 := s.(efd := answer.efd, trace := s.trace + [Acquired(Desc(answer.efd))]);
      AcquireTraced(s, s1, Desc(answer.efd));
      if answer.fd < 0 || answer.fd == answer.efd {
        DestroyCleans(s1);
      } else {
        ListenOpens(s1, answer);
      }
    }
  }

  /** listen starts from a clean server, and either opens it or cleans up again. */
  lemma ListenInv(s: Server, answer: ListenAnswer)
    requires Inv(s)
    ensures AllLive(s, s.sockets)
    ensures var (s', ok) := Listen(s, answer);
      && Inv(s') && s'.sockets == []
      && (ok <==> s'.efd >= 0)
      && (ok <==> answer.efd >= 0 && answer.fd >= 0 && answer.fd != answer.efd && answer.added)
      && (!ok ==> Clean(s') && Replay(s'.trace) == Some({}))
  {
    InvDestroyable(s);
    DestroyTraced(s);
    OpenInv(TcpServerSpec.Destroy(s), answer);
  }

  /** An opened server waits on the epoll descriptor it was given and listens on the socket it was given. */
  lemma ListenExact(s: Server, answer: ListenAnswer)
    requires Inv(s)
    ensures AllLive(s, s.sockets)
    ensures var (s', ok) := Listen(s, answer);
      ok ==>
        && s'.efd == answer.efd && s'.listener == NewSocket().(fd := answer.fd)
        && s'.epoll == map[answer.fd := LISTENER] && s'.heap == map[]
        && s'.sockets == s'.receive == s'.send == s'.disconnected == []
  {
    InvDestroyable(s);
    DestroyTraced(s);
  }

  lemma StaysClean(s: Server)
    requires Clean(s) && Traced(s)
    ensures Clean(s.(efd := -1)) && Inv(s.(efd := -1)) && Replay(s.trace) == Some({})
  {
    assert forall r :: Holds(s.(efd := -1), r) <==> Holds(s, r);
    CleanIsBalanced(s.(efd := -1));
  }

  lemma ListenOpens(s1: Server, answer: ListenAnswer)
    requires Descs(s1) && Traced(s1) && s1.efd == answer.efd >= 0 && 0 <= answer.fd != answer.efd
    requires s1.listener.fd < 0 && s1.heap == map[] && s1.epoll == map[]
    requires s1.sockets == s1.receive == s1.send == s1.disconnected == []
    ensures var s2 := s1.(listener := NewSocket().(fd := answer.fd),
                          trace := s1.trace + [Acquired(Desc(answer.fd))]);
      var (s3, ok) := EpollAdd(s2, LISTENER, answer.fd, answer.added);
      if ok then Inv(s3)
      else Clean(TcpServerSpec.Destroy(s3)) && Inv(TcpServerSpec.Destroy(s3))
           && Replay(TcpServerSpec.Destroy(s3).trace) == Some({})
  {
    var s2 := s1.(listener := NewSocket().(fd := answer.fd),
                  trace := s1.trace + [Acquired(Desc(answer.fd))]);
    AcquireTraced(s1, s2, Desc(answer.fd));
    if answer.added {
      var s3 := EpollAdd(s2, LISTENER, answer.fd, answer.added).0;
      assert forall r :: Holds(s3, r) <==> Holds(s2, r);
      NoneOwned(s3);
    } else {
      DestroyCleans(s2);
    }
  }

  // ---- poll ----

  lemma MarksKeepInv(s: Server, s': Server)
    requires Inv(s) && s' == s.(send := s'.send, disconnected := s'.disconnected)
    requires AllLive(s, s'.send) && AllLive(s, s'.disconnected)
    requires forall a :: a in s.disconnected ==> a in s'.disconnected
    ensures Inv(s')
  {
    assert forall r :: Holds(s', r) <==> Holds(s, r);
  }

  lemma AddLive(s: Server, list: seq<Addr>, a: Addr)
    requires AllLive(s, list) && a in s.heap
    ensures AllLive(s, AddUnique(list, a)) && forall x :: x in list ==> x in AddUnique(list, a)
  {
  }

  lemma HandleEventInv(s: Server, e: EpollEvent)
    requires Inv(s) && Reportable(s, e)
    ensures var s' := HandleEvent(s, e);
      Inv(s') && s' == s.(send := s'.send, disconnected := s'.disconnected)
  {
    ListsLive(s);
    if e.ptr in s.heap {
      AddLive(s, s.disconnected, e.ptr);
      AddLive(s, s.send, e.ptr);
      AddUniqueIs(s.receive, e.ptr);
    }
    MarksKeepInv(s, HandleEvent(s, e));
  }

  lemma {:induction false} HandleEventsInv(s: Server, events: seq<EpollEvent>)
    requires Inv(s)
    ensures var s' := HandleEvents(s, events).0;
      Inv(s') && s' == s.(send := s'.send, disconnected := s'.disconnected)
    decreases |events|
  {
    if events != [] {
      var e := events[0];
      if Reportable(s, e) {
        HandleEventInv(s, e);
        HandleEventsInv(HandleEvent(s, e), events[1..]);
      } else {
        HandleEventsInv(s, events[1..]);
      }
    }
  }

  /** An event of the batch that epoll could report and that satisfies the description. */
  ghost predicate Reported(s: Server, events: seq<EpollEvent>, a: Addr, error: bool, writable: bool) {
    exists k :: 0 <= k < |events| && Reportable(s, events[k])
      && events[k].ptr == a && events[k].error == error && (writable ==> events[k].writable)
  }

  lemma ReportedCons(s: Server, events: seq<EpollEvent>, a: Addr, error: bool, writable: bool)
    requires events != []
    ensures Reported(s, events, a, error, writable) <==>
      || (Reportable(s, events[0])
          && events[0].ptr == a && events[0].error == error && (writable ==> events[0].writable))
      || Reported(s, events[1..], a, error, writable)
  {
    var rest := events[1..];
    if Reported(s, rest, a, error, writable) {
      var k :| 0 <= k < |rest| && Reportable(s, rest[k])
        && rest[k].ptr == a && rest[k].error == error && (writable ==> rest[k].writable);
      assert events[k + 1] == rest[k];
    }
    if Reported(s, events, a, error, writable) {
      var k :| 0 <= k < |events| && Reportable(s, events[k])
        && events[k].ptr == a && events[k].error == error && (writable ==> events[k].writable);
      assert k > 0 ==> rest[k - 1] == events[k];
    }
  }

  /** A batch schedules exactly the clients reported failed, and marks writable exactly those reported so. */
  lemma {:induction false} EventsRecorded(s: Server, events: seq<EpollEvent>, a: Addr)
    requires a != NULL && a != LISTENER
    ensures var s' := HandleEvents(s, events).0;
      && (a in s'.disconnected <==> a in s.disconnected || Reported(s, events, a, true, false))
      && (a in s'.send <==> a in s.send || Reported(s, events, a, false, true))
    decreases |events|
  {
    if events != [] {
      var e := events[0];
      var t := if Reportable(s, e) then HandleEvent(s, e) else s;
      AddUniqueIs(s.disconnected, e.ptr);
      AddUniqueIs(s.send, e.ptr);
      assert t.epoll == s.epoll;
      ReportedCons(s, events, a, true, false);
      ReportedCons(s, events, a, false, true);
      EventsRecorded(t, events[1..], a);
      assert forall x :: Reportable(t, x) <==> Reportable(s, x);
    }
  }

  /** The accept loop runs exactly when a reportable event announces a connection on the listener. */
  lemma {:induction false} ConnectionAnnounced(s: Server, events: seq<EpollEvent>)
    ensures HandleEvents(s, events).1 <==>
      exists k :: 0 <= k < |events| && Reportable(s, events[k]) && AnnouncesConnection(events[k])
    decreases |events|
  {
    if events != [] {
      var e, rest := events[0], events[1..];
      var t := if Reportable(s, e) then HandleEvent(s, e) else s;
      ConnectionAnnounced(t, rest);
      assert t.epoll == s.epoll;
      assert forall x :: Reportable(t, x) <==> Reportable(s, x);
      forall k | 0 <= k < |rest| && Reportable(t, rest[k]) && AnnouncesConnection(rest[k])
        ensures Reportable(s, events[k + 1]) && AnnouncesConnection(events[k + 1])
      {
      }
      forall k | 1 <= k < |events| && Reportable(s, events[k]) && AnnouncesConnection(events[k])
        ensures Reportable(t, rest[k - 1]) && AnnouncesConnection(rest[k - 1])
      {
      }
    }
  }

  /**
   The one way the listener could enter a list: a report that it is writable and neither failed nor readable.
   The events epoll is asked for exclude it.
   */
  lemma ListenerEntersListIff(s: Server, e: EpollEvent)
    requires Lists(s) && Descs(s)
    ensures var s' := HandleEvent(s, e);
      (LISTENER in s'.sockets || LISTENER in s'.receive || LISTENER in s'.send || LISTENER in s'.disconnected)
      <==> e.ptr == LISTENER && !e.error && !e.readable && e.writable
  {
    ListenerUnlisted(s, s.sockets);
    ListenerUnlisted(s, s.send);
    ListenerUnlisted(s, s.disconnected);
    AddUniqueIs(s.disconnected, e.ptr);
    AddUniqueIs(s.receive, e.ptr);
    AddUniqueIs(s.send, e.ptr);
  }

  lemma ListenerUnlisted(s: Server, list: seq<Addr>)
    requires Descs(s) && AllLive(s, list)
    ensures LISTENER !in list
  {
  }

  /** Opening a descriptor and giving it straight back leaves the books as they were. */
  lemma OpenCloseTraced(s: Server, t: Server, fd: int)
    requires Traced(s) && fd >= 0 && !Holds(s, Desc(fd))
    requires t.trace == s.trace + [Acquired(Desc(fd))] + [Released(Desc(fd))]
    requires forall r :: Holds(t, r) <==> Holds(s, r)
    ensures Traced(t)
  {
    ReplaySnoc(s.trace, Acquired(Desc(fd)));
    ReplaySnoc(s.trace + [Acquired(Desc(fd))], Released(Desc(fd)));
    var h := Replay(s.trace).value;
    assert h + {Desc(fd)} - {Desc(fd)} == h;
  }

  /** A new client wrapped in a socket, before it is registered or listed. */
  ghost function Wrapped(s: Server, x: AcceptAnswer): Server {
    s.(heap := s.heap[x.addr := NewSocket().(fd := x.fd)],
       trace := s.trace + [Acquired(Desc(x.fd))] + [Acquired(Mem(x.addr))])
  }

  lemma WrappedDescs(s: Server, x: AcceptAnswer)
    requires Descs(s) && Acceptable(s, x)
    ensures Descs(Wrapped(s, x))
  {
    forall a | a in s.heap
      ensures s.heap[a].fd != x.fd
    {
      OwnDescriptor(s.heap, a);
    }
  }

  lemma WrappedTraced(s: Server, x: AcceptAnswer)
    requires Traced(s) && Acceptable(s, x)
    ensures Traced(Wrapped(s, x))
  {
    var t := Wrapped(s, x);
    DescriptorsUpdate(s.heap, x.addr, NewSocket().(fd := x.fd));
    ReplaySnoc(s.trace, Acquired(Desc(x.fd)));
    ReplaySnoc(s.trace + [Acquired(Desc(x.fd))], Acquired(Mem(x.addr)));
    assert !Holds(s, Desc(x.fd)) && !Holds(s, Mem(x.addr));
    assert forall r :: Holds(t, r) <==> Holds(s, r) || r == Desc(x.fd) || r == Mem(x.addr);
  }

  /** A descriptor that is not open is not registered either. */
  lemma UnopenedIsUnregistered(s: Server, fd: int)
    requires Registered(s) && fd != s.listener.fd && fd !in Descriptors(s.heap)
    ensures fd !in s.epoll
  {
    if fd in s.epoll {
      OwnDescriptor(s.heap, s.epoll[fd]);
    }
  }

  lemma {:induction false} WithoutLast(list: seq<Addr>, a: Addr)
    requires a !in list
    ensures Without(list + [a], a) == list
  {
    if list == [] {
      assert Without([a][1..], a) == [];
    } else {
      assert (list + [a])[1..] == list[1..] + [a];
      WithoutLast(list[1..], a);
    }
  }

  /** The connection could be configured and registered, so it becomes a client. */
  predicate Admits(x: AcceptAnswer) {
    x.configured && x.added
  }

  /** What one accepted connection adds to the trace. */
  function AcceptEvents(x: AcceptAnswer): seq<Event> {
    var d, m := Desc(x.fd), Mem(x.addr);
    if !x.configured then [Acquired(d), Released(d)]
    else if !x.added then [Acquired(d), Acquired(m), Released(d), Released(m)]
    else [Acquired(d), Acquired(m)]
  }

  /** Every accepted descriptor is recorded, and closed at once unless it becomes a client. */
  lemma AcceptTrace(s: Server, x: AcceptAnswer)
    requires Acceptable(s, x) && s.efd >= 0
    ensures AcceptOne(s, x).trace == s.trace + AcceptEvents(x)
  {
  }

  /** A refused connection leaves the owned sockets as they were. */
  lemma RefusedOrdered(s: Server, x: AcceptAnswer)
    requires Ordered(s) && Lists(s) && Acceptable(s, x) && s.efd >= 0 && !(x.configured && x.added)
    ensures Owned(AcceptOne(s, x).trace) == Owned(s.trace)
  {
    var t1 := s.trace + [Acquired(Desc(x.fd))];
    OwnedSnoc(s.trace, Acquired(Desc(x.fd)));
    OwnedSnoc(t1, Released(Desc(x.fd)));
    OwnedSnoc(t1, Acquired(Mem(x.addr)));
    OwnedSnoc(t1 + [Acquired(Mem(x.addr))], Released(Desc(x.fd)));
    OwnedSnoc(t1 + [Acquired(Mem(x.addr))] + [Released(Desc(x.fd))], Released(Mem(x.addr)));
    WithoutLast(s.sockets, x.addr);
  }

  /** Giving back a socket that could not be registered restores the server. */
  lemma UnwrappedIs(s: Server, x: AcceptAnswer)
    requires Descs(s) && Registered(s) && Traced(s) && Acceptable(s, x)
    ensures var s' := Delete(Wrapped(s, x), x.addr); Traced(s') && s' == s.(trace := s'.trace)
  {
    WrappedDescs(s, x);
    WrappedTraced(s, x);
    DeleteTraced(Wrapped(s, x), x.addr);
    UnopenedIsUnregistered(s, x.fd);
    assert s.epoll - {x.fd} == s.epoll;
    assert s.heap[x.addr := NewSocket().(fd := x.fd)] - {x.addr} == s.heap;
  }

  lemma UnconfiguredIs(s: Server, x: AcceptAnswer)
    requires Registered(s) && Traced(s) && Acceptable(s, x) && !x.configured
    ensures var s' := AcceptOne(s, x); Traced(s') && s' == s.(trace := s'.trace)
  {
    var s' := AcceptOne(s, x);
    UnopenedIsUnregistered(s, x.fd);
    assert s.epoll - {x.fd} == s.epoll;
    assert forall r :: Holds(s', r) <==> Holds(s, r);
    OpenCloseTraced(s, s', x.fd);
  }

  lemma UnregisteredIs(s: Server, x: AcceptAnswer)
    requires Acceptable(s, x) && s.efd >= 0 && x.configured && !x.added
    ensures AcceptOne(s, x) == Delete(Wrapped(s, x), x.addr)
  {
  }

  /** A connection that cannot be set up leaves the server as it was, all it brought recorded and given back. */
  lemma AcceptRefused(s: Server, x: AcceptAnswer)
    requires Inv(s) && Acceptable(s, x) && s.efd >= 0 && !Admits(x)
    ensures Inv(AcceptOne(s, x)) && AcceptOne(s, x) == s.(trace := s.trace + AcceptEvents(x))
  {
    AcceptTrace(s, x);
    RefusedOrdered(s, x);
    if x.configured {
      UnwrappedIs(s, x);
      UnregisteredIs(s, x);
    } else {
      UnconfiguredIs(s, x);
    }
    OnlyTrace(s, AcceptOne(s, x));
  }

  /** Nothing but the trace differs, and the trace is still right. */
  lemma OnlyTrace(s: Server, s': Server)
    requires Inv(s) && s' == s.(trace := s'.trace) && Traced(s') && Owned(s'.trace) == Owned(s.trace)
    ensures Inv(s')
  {
  }

  /** A connection that can be set up becomes one new client at the end of the owning list. */
  lemma AcceptAdmitted(s: Server, x: AcceptAnswer)
    requires Inv(s) && Acceptable(s, x) && s.efd >= 0 && Admits(x)
    ensures var s' := AcceptOne(s, x);
      && Inv(s') && s'.trace == s.trace + AcceptEvents(x)
      && s'.sockets == s.sockets + [x.addr]
      && s'.heap == s.heap[x.addr := NewSocket().(fd := x.fd)]
      && s'.efd == s.efd && s'.listener == s.listener && s'.send == s.send && s'.disconnected == s.disconnected
      && s'.epoll == s.epoll[x.fd := x.addr]
  {
    var s', t := AcceptOne(s, x), Wrapped(s, x);
    AcceptTrace(s, x);
    WrappedDescs(s, x);
    WrappedTraced(s, x);
    assert s' == t.(epoll := s.epoll[x.fd := x.addr],
                    sockets := s.sockets + [x.addr], receive := s.receive + [x.addr]);
    assert Traced(s') by {
      assert forall r :: Holds(s', r) <==> Holds(t, r);
    }
    UnopenedIsUnregistered(s, x.fd);
    assert Registered(s') by {
      forall a | a in s.heap
        ensures s.heap[a].fd != x.fd
      {
        OwnDescriptor(s.heap, a);
      }
    }
    assert Lists(s');
    OwnedSnoc(s.trace, Acquired(Desc(x.fd)));
    OwnedSnoc(s.trace + [Acquired(Desc(x.fd))], Acquired(Mem(x.addr)));
  }

  /** New clients are new sockets at the end of the lists; nothing about the old ones changes. */
  ghost predicate Extends(s: Server, s': Server) {
    && s.sockets <= s'.sockets
    && s'.efd == s.efd && s'.listener == s.listener && s'.send == s.send && s'.disconnected == s.disconnected
    && (forall a :: a in s.heap ==> a in s'.heap && s'.heap[a] == s.heap[a])
    && (forall a :: a in s'.heap && a !in s.heap ==> IsNew(s'.heap[a]))
  }

  /** A socket as accept left it. */
  predicate IsNew(c: Socket) {
    c == NewSocket().(fd := c.fd)
  }

  lemma ExtendsTrans(s: Server, t: Server, u: Server)
    requires Extends(s, t) && Extends(t, u)
    ensures Extends(s, u)
  {
  }

  lemma AcceptOneInv(s: Server, x: AcceptAnswer)
    requires Inv(s) && s.efd >= 0 && Acceptable(s, x)
    ensures Inv(AcceptOne(s, x)) && Extends(s, AcceptOne(s, x))
  {
    if Admits(x) {
      AcceptAdmitted(s, x);
    } else {
      AcceptRefused(s, x);
    }
  }

  lemma {:induction false} AcceptsInv(s: Server, answers: seq<AcceptAnswer>)
    requires Inv(s) && s.efd >= 0
    ensures Inv(Accepts(s, answers)) && Extends(s, Accepts(s, answers))
    decreases |answers|
  {
    if answers != [] && Acceptable(s, answers[0]) {
      AcceptOneInv(s, answers[0]);
      AcceptsInv(AcceptOne(s, answers[0]), answers[1..]);
      ExtendsTrans(s, AcceptOne(s, answers[0]), Accepts(s, answers));
    }
  }

  lemma ClearedCore(s: Server)
    requires Core(s)
    ensures Core(s.(disconnected := []))
  {
    assert forall r :: Holds(s.(disconnected := []), r) <==> Holds(s, r);
  }

  /** Removing what is scheduled leaves no client with a disconnect flag. */
  lemma ReapScheduled(s: Server)
    requires Inv(s) && s.efd >= 0
    ensures AllLive(s, s.disconnected)
    ensures var s1 := Reap(s.(disconnected := []), s.disconnected);
      && Inv(s1) && s1.efd == s.efd && s1.listener == s.listener
      && s1.sockets == Keep(s.sockets, s.disconnected)
      && s1.send == Keep(s.send, s.disconnected) && s1.disconnected == []
      && (forall a :: a in s1.heap <==> a in s.heap && a !in s.disconnected)
      && (forall a :: a in s1.heap ==> !Flagged(s1.heap[a]) && s1.heap[a] == s.heap[a])
  {
    ListsLive(s);
    ClearedCore(s);
    ReapCore(s.(disconnected := []), s.disconnected);
    ReapRemoves(s.(disconnected := []), s.disconnected);
  }

  /** Clients not in gone stay as they are; every other client of s' is new; nobody is flagged. */
  ghost predicate Renewed(s: Server, s': Server, gone: seq<Addr>) {
    && Keep(s.sockets, gone) <= s'.sockets
    && (forall a :: a in s.heap && a !in gone ==> a in s'.heap && s'.heap[a] == s.heap[a])
    && (forall a :: a in s'.heap && !(a in s.heap && a !in gone) ==> IsNew(s'.heap[a]))
    && (forall a :: a in s'.heap ==> !Flagged(s'.heap[a]))
  }

  lemma RenewedExtends(s: Server, t: Server, u: Server, gone: seq<Addr>)
    requires Renewed(s, t, gone) && Extends(t, u)
    ensures Renewed(s, u, gone)
  {
  }

  /** What poll does after the removals. */
  lemma PollRestInv(s: Server, s1: Server, answer: PollAnswer)
    requires Inv(s1) && s1.efd >= 0 && Renewed(s, s1, s.disconnected) && answer.Waited?
    ensures var (s2, announced) := HandleEvents(s1, Limit(answer.events));
      var s' := if announced then Accepts(s2, answer.accepts) else s2;
      Inv(s') && Renewed(s, s', s.disconnected)
  {
    var s2 := HandleEvents(s1, Limit(answer.events)).0;
    HandleEventsInv(s1, Limit(answer.events));
    assert Renewed(s, s2, s.disconnected);
    AcceptsInv(s2, answer.accepts);
    RenewedExtends(s, s2, Accepts(s2, answer.accepts), s.disconnected);
  }

  lemma PollRenews(s: Server, answer: PollAnswer)
    requires Inv(s) && s.efd >= 0
    ensures AllLive(s, s.disconnected)
    ensures Inv(Poll(s, answer)) && Renewed(s, Poll(s, answer), s.disconnected)
  {
    ReapScheduled(s);
    if answer.Waited? {
      PollRestInv(s, Reap(s.(disconnected := []), s.disconnected), answer);
    }
  }

  /**
   poll keeps the invariant.  On an open server it removes exactly the scheduled clients, keeps the others in
   acceptance order and as they were, appends the newly accepted ones as new sockets, and leaves no client
   with a disconnect flag.
   */
  lemma PollInv(s: Server, answer: PollAnswer)
    requires Inv(s)
    ensures AllLive(s, s.disconnected)
    ensures var s' := Poll(s, answer);
      && Inv(s')
      && (s.efd < 0 ==> s' == s)
      && (s.efd >= 0 ==> Renewed(s, s', s.disconnected))
  {
    ListsLive(s);
    if s.efd >= 0 {
      PollRenews(s, answer);
    }
  }

  // ---- sendAndRecv ----

  /** I/O and queueing change sockets without moving them to another descriptor or past their limits. */
  lemma IoKeepsCore(s: Server, s': Server)
    requires Core(s) && s' == s.(heap := s'.heap, disconnected := s'.disconnected)
    requires SameKeys(s.heap, s'.heap) && AllLive(s, s'.disconnected)
    requires forall a :: a in s.heap ==> s'.heap[a].fd == s.heap[a].fd && Fits(s'.heap[a])
    ensures Core(s')
  {
    DescriptorsSame(s.heap, s'.heap);
    assert Traced(s') by {
      assert forall r :: Holds(s', r) <==> Holds(s, r);
    }
  }

  lemma DescriptorsSame(heap: map<Addr, Socket>, heap': map<Addr, Socket>)
    requires SameKeys(heap, heap')
    requires forall a :: a in heap ==> heap'[a].fd == heap[a].fd
    ensures Descriptors(heap') == Descriptors(heap)
  {
    forall fd | fd in Descriptors(heap)
      ensures fd in Descriptors(heap')
    {
      var a :| a in heap && heap[a].fd == fd;
      assert a in heap' && heap'[a].fd == fd;
    }
  }

  lemma ServiceInv(s: Server, a: Addr, turn: ClientTurn)
    requires Inv(s) && a in s.heap
    ensures Fits(s.heap[a]) && Inv(Service(s, a, turn).0)
  {
    var s' := Service(s, a, turn).0;
    ServiceIs(s, a, turn);
    forall b | b in s.heap
      ensures s'.heap[b].fd == s.heap[b].fd && Fits(s'.heap[b])
      ensures b != a ==> s'.heap[b] == s.heap[b].(outgoing := s'.heap[b].outgoing)
    {
      AfterKeeps(s.heap, a, turn, b);
    }
    AddUniqueIs(s.disconnected, a);
    IoKeepsCore(s, s');
  }

  lemma QueueEachInv(s: Server, messages: seq<Message>)
    requires Inv(s)
    ensures Inv(QueueEach(s, messages))
  {
    var s' := QueueEach(s, messages);
    QueueEachIs(s, messages);
    forall b | b in s.heap
      ensures Fits(s'.heap[b]) && s'.heap[b] == s.heap[b].(outgoing := s'.heap[b].outgoing)
    {
      SendEachAppends(s.heap[b], To(messages, b));
    }
    IoKeepsCore(s, s');
  }

  lemma ServiceStepInv(s: Server, list: seq<Addr>, turn: ClientTurn)
    requires Inv(s) && list != [] && Serviceable(s, list)
    ensures var s' := Service(s, list[0], turn).0; Inv(s') && Serviceable(s', list[1..])
  {
    ServiceInv(s, list[0], turn);
    ServiceKeeps(s, list[0], turn, list[1..]);
  }

  lemma {:induction false} ReceiveRoundInv(s: Server, list: seq<Addr>, turns: seq<ClientTurn>, k: nat)
    requires Inv(s) && Serviceable(s, list)
    ensures Inv(ReceiveRound(s, list, turns, k).server)
    decreases |list|
  {
    if list != [] {
      ServiceStepInv(s, list, TurnFor(turns, k));
      ReceiveRoundInv(Service(s, list[0], TurnFor(turns, k)).0, list[1..], turns, k + 1);
    }
  }

  lemma {:induction false} ReceiveRoundServices(s: Server, list: seq<Addr>, turns: seq<ClientTurn>, k: nat)
    requires Serviceable(s, list)
    ensures ReceiveRound(s, list, turns, k).serviced == list
    decreases |list|
  {
    if list != [] {
      ServiceKeeps(s, list[0], TurnFor(turns, k), list[1..]);
      ReceiveRoundServices(Service(s, list[0], TurnFor(turns, k)).0, list[1..], turns, k + 1);
    }
  }

  lemma {:induction false} SendRoundIsIdle(s: Server, list: seq<Addr>, turns: seq<ClientTurn>, k: nat)
    requires Serviceable(s, list) && forall a :: a in list ==> a in s.receive
    ensures SendRound(s, list, turns, k) == Round(s, [], false)
    decreases |list|
  {
    if list != [] {
      SendRoundIsIdle(s, list[1..], turns, k);
    }
  }

  /** In any state, the second loop services, like the first, exactly the listed sockets not in the receive list. */
  lemma {:induction false} SendRoundIs(s: Server, list: seq<Addr>, turns: seq<ClientTurn>, k: nat)
    requires Serviceable(s, list)
    ensures Serviceable(s, Keep(list, s.receive))
    ensures SendRound(s, list, turns, k) ==
      ReceiveRound(s, Keep(list, s.receive), turns, k).(received := false)
    decreases |list|
  {
    KeptServiceable(s, list);
    if list != [] {
      var a, rest, turn := list[0], list[1..], TurnFor(turns, k);
      if a in s.receive {
        assert Keep(list, s.receive) == Keep(rest, s.receive);
        SendRoundIs(s, rest, turns, k);
      } else {
        assert Keep(list, s.receive)[1..] == Keep(rest, s.receive);
        ServiceKeeps(s, a, turn, rest);
        ServiceIs(s, a, turn);
        SendRoundIs(Service(s, a, turn).0, rest, turns, k + 1);
      }
    }
  }

  lemma {:induction false} KeepIs(list: seq<Addr>, gone: seq<Addr>, a: Addr)
    ensures a in Keep(list, gone) <==> a in list && a !in gone
  {
    if list != [] {
      KeepIs(list[1..], gone, a);
      assert a in list <==> a == list[0] || a in list[1..];
    }
  }

  lemma KeptServiceable(s: Server, list: seq<Addr>)
    requires Serviceable(s, list)
    ensures Serviceable(s, Keep(list, s.receive))
  {
    var kept := Keep(list, s.receive);
    forall k | 0 <= k < |kept|
      ensures kept[k] in s.heap && Fits(s.heap[kept[k]])
    {
      KeepIs(list, s.receive, kept[k]);
    }
  }

  /** On an open server a round is its first loop and the receive-finished callback. */
  lemma RoundIs(s: Server, turns: seq<ClientTurn>, finished: seq<Message>)
    requires Inv(s) && s.efd >= 0
    ensures Serviceable(s, s.receive) && Serviceable(s, s.send)
    ensures var r1 := ReceiveRound(s, s.receive, turns, 0);
      TcpServerSpec.SendAndRecv(s, turns, finished) == Round(Finish(r1, finished), s.sockets, r1.received)
  {
    ListsLive(s);
    var r1 := ReceiveRound(s, s.receive, turns, 0);
    ReceiveRoundServices(s, s.receive, turns, 0);
    ReceiveRoundKeeps(s, s.receive, turns, 0, s.send);
    FinishKeeps(r1, finished, s.send);
    SendRoundIsIdle(Finish(r1, finished), s.send, turns, |s.receive|);
  }

  /**
   One round on an open server services every owned client exactly once, in the order in which the clients were
   accepted; the second loop performs no I/O; and neither the owning list nor the two lists iterated over change.
   */
  lemma RoundServicesEach(s: Server, turns: seq<ClientTurn>, finished: seq<Message>)
    requires Inv(s)
    ensures Serviceable(s, s.receive) && Serviceable(s, s.send)
    ensures var r := TcpServerSpec.SendAndRecv(s, turns, finished);
      && Inv(r.server)
      && r.serviced == s.sockets == Owned(s.trace)
      && (s.efd < 0 ==> r == Round(s, [], false))
      && r.server == s.(heap := r.server.heap, disconnected := r.server.disconnected)
  {
    ListsLive(s);
    if s.efd >= 0 {
      RoundIs(s, turns, finished);
      var r1 := ReceiveRound(s, s.receive, turns, 0);
      ReceiveRoundInv(s, s.receive, turns, 0);
      ReceiveRoundKeeps(s, s.receive, turns, 0, s.send);
      QueueEachInv(r1.server, finished);
      QueueEachIs(r1.server, finished);
    }
  }

  /** Servicing a duplicate-free list schedules for removal exactly its clients that are then flagged. */
  lemma {:induction false} LoopSchedules(s: Server, list: seq<Addr>, turns: seq<ClientTurn>, k: nat, b: Addr)
    requires Serviceable(s, list) && NoDup(list)
    ensures var s' := ReceiveRound(s, list, turns, k).server;
      && SameKeys(s.heap, s'.heap)
      && (b in s.heap && Fits(s.heap[b]) && b !in list ==> Flagged(s'.heap[b]) == Flagged(s.heap[b]))
      && (b in s'.disconnected <==> b in s.disconnected || (b in list && Flagged(s'.heap[b])))
    decreases |list|
  {
    if list != [] {
      var a, rest := list[0], list[1..];
      var s1 := Service(s, a, TurnFor(turns, k)).0;
      ServiceKeeps(s, a, TurnFor(turns, k), list);
      ServiceKeeps(s, a, TurnFor(turns, k), rest);
      ServiceIs(s, a, TurnFor(turns, k));
      if b in s.heap && Fits(s.heap[b]) {
        AfterKeeps(s.heap, a, TurnFor(turns, k), b);
      }
      LoopSchedules(s1, rest, turns, k + 1, b);
      assert b in list <==> b == a || b in rest;
    }
  }

  /** A round schedules for removal exactly the clients that are flagged after it. */
  lemma RoundSchedules(s: Server, turns: seq<ClientTurn>, finished: seq<Message>, b: Addr)
    requires Inv(s)
    ensures Serviceable(s, s.receive) && Serviceable(s, s.send)
    ensures var s' := TcpServerSpec.SendAndRecv(s, turns, finished).server;
      b in s'.disconnected <==> b in s.disconnected || (b in s'.heap && Flagged(s'.heap[b]))
  {
    ListsLive(s);
    if s.efd >= 0 {
      RoundIs(s, turns, finished);
      LoopSchedules(s, s.receive, turns, 0, b);
      var s1 := ReceiveRound(s, s.receive, turns, 0).server;
      ReceiveRoundInv(s, s.receive, turns, 0);
      QueueEachIs(s1, finished);
      if b in s1.heap {
        assert b in s.receive;
        SendEachAppends(s1.heap[b], To(finished, b));
      }
    }
  }

  // ---- What a round does to each client ----

  /** The socket calls made on client b while client a is serviced. */
  function CallsAt(heap: map<Addr, Socket>, a: Addr, turn: ClientTurn, b: Addr): (ops: seq<Call>)
    requires a in heap
    ensures AllLegal(ops)
  {
    if b == a then [IoCall(OwnTurn(turn, a))]
    else if Delivers(heap[a], turn.recv) then SendCalls(To(turn.messages, b))
    else []
  }

  /** The socket calls made on client b in the first loop, told from the state before the loop. */
  function LoopCalls(heap: map<Addr, Socket>, list: seq<Addr>, turns: seq<ClientTurn>, k: nat, b: Addr):
      (ops: seq<Call>)
    requires forall j :: 0 <= j < |list| ==> list[j] in heap
    ensures AllLegal(ops)
    decreases |list|
  {
    if list == [] then []
    else CallsAt(heap, list[0], TurnFor(turns, k), b) + LoopCalls(heap, list[1..], turns, k + 1, b)
  }

  /** Some client of the list finds data in its turn. */
  ghost predicate SomeDelivers(heap: map<Addr, Socket>, list: seq<Addr>, turns: seq<ClientTurn>, k: nat)
    requires forall j :: 0 <= j < |list| ==> list[j] in heap
  {
    exists j :: 0 <= j < |list| && Delivers(heap[list[j]], TurnFor(turns, k + j).recv)
  }

  /** The two heaps agree on what decides whether the listed clients' callbacks run. */
  ghost predicate SameInput(heap: map<Addr, Socket>, heap': map<Addr, Socket>, list: seq<Addr>) {
    forall j :: 0 <= j < |list| ==>
      && list[j] in heap && list[j] in heap'
      && heap'[list[j]].fd == heap[list[j]].fd && heap'[list[j]].incoming == heap[list[j]].incoming
  }

  lemma {:induction false} SameCalls(
      heap: map<Addr, Socket>, heap': map<Addr, Socket>, list: seq<Addr>, turns: seq<ClientTurn>, k: nat, b: Addr)
    requires SameInput(heap, heap', list)
    ensures LoopCalls(heap', list, turns, k, b) == LoopCalls(heap, list, turns, k, b)
    decreases |list|
  {
    if list != [] {
      assert Delivers(heap'[list[0]], TurnFor(turns, k).recv) == Delivers(heap[list[0]], TurnFor(turns, k).recv);
      SameCalls(heap, heap', list[1..], turns, k + 1, b);
    }
  }

  lemma SomeDeliversCons(
      heap: map<Addr, Socket>, heap': map<Addr, Socket>, list: seq<Addr>, turns: seq<ClientTurn>, k: nat)
    requires list != [] && list[0] in heap && SameInput(heap, heap', list[1..])
    ensures forall j :: 0 <= j < |list| ==> list[j] in heap
    ensures SomeDelivers(heap, list, turns, k) <==>
      Delivers(heap[list[0]], TurnFor(turns, k).recv) || SomeDelivers(heap', list[1..], turns, k + 1)
  {
    var rest := list[1..];
    assert forall j :: 1 <= j < |list| ==> list[j] == rest[j - 1];
    if SomeDelivers(heap, list, turns, k) {
      var j :| 0 <= j < |list| && Delivers(heap[list[j]], TurnFor(turns, k + j).recv);
      assert j > 0 ==> Delivers(heap'[rest[j - 1]], TurnFor(turns, k + 1 + (j - 1)).recv);
    }
    if SomeDelivers(heap', rest, turns, k + 1) {
      var j :| 0 <= j < |rest| && Delivers(heap'[rest[j]], TurnFor(turns, k + 1 + j).recv);
      assert Delivers(heap[list[j + 1]], TurnFor(turns, k + (j + 1)).recv);
    }
    assert Delivers(heap[list[0]], TurnFor(turns, k + 0).recv) ==> SomeDelivers(heap, list, turns, k);
  }

  /** The calls made on a client while another or itself is serviced lead to its state afterwards. */
  lemma CallsLead(heap: map<Addr, Socket>, a: Addr, turn: ClientTurn, b: Addr, c: Session)
    requires a in heap && Fits(heap[a]) && b in heap && Fits(heap[b]) && c.socket == heap[b]
    ensures TcpSocketSpec.Run(c, CallsAt(heap, a, turn, b)).socket == After(heap, a, turn, b)
  {
    if b == a {
      RunOne(c, IoCall(OwnTurn(turn, a)));
    } else if Delivers(heap[a], turn.recv) {
      SendEachIsRun(c, To(turn.messages, b));
    }
  }

  /** Servicing one client leaves the input side of every other client alone. */
  lemma ServiceSameInput(s: Server, a: Addr, turn: ClientTurn, list: seq<Addr>)
    requires a in s.heap && Fits(s.heap[a]) && Serviceable(s, list) && a !in list
    ensures SameInput(s.heap, Service(s, a, turn).0.heap, list)
  {
    ServiceIs(s, a, turn);
    forall j | 0 <= j < |list|
      ensures var c := After(s.heap, a, turn, list[j]); c == s.heap[list[j]].(outgoing := c.outgoing)
    {
      AfterKeeps(s.heap, a, turn, list[j]);
    }
  }

  /**
   The first loop performs on each client exactly the calls told from the state before the loop: its own turn,
   if it is listed, with the messages of the earlier callbacks before it and those of the later ones after it.
   c is any history that led to the client's state.
   */
  lemma {:induction false} RoundTurns(
      s: Server, list: seq<Addr>, turns: seq<ClientTurn>, k: nat, b: Addr, c: Session)
    requires Serviceable(s, list) && NoDup(list) && b in s.heap && Fits(s.heap[b]) && c.socket == s.heap[b]
    ensures var r := ReceiveRound(s, list, turns, k);
      && b in r.server.heap
      && TcpSocketSpec.Run(c, LoopCalls(s.heap, list, turns, k, b)).socket == r.server.heap[b]
      && (r.received <==> SomeDelivers(s.heap, list, turns, k))
    decreases |list|
  {
    if list != [] {
      var a, rest, turn := list[0], list[1..], TurnFor(turns, k);
      var s' := Service(s, a, turn).0;
      ServiceKeeps(s, a, turn, rest);
      ServiceIs(s, a, turn);
      AfterKeeps(s.heap, a, turn, b);
      CallsLead(s.heap, a, turn, b, c);
      ServiceSameInput(s, a, turn, rest);
      SameCalls(s.heap, s'.heap, rest, turns, k + 1, b);
      SomeDeliversCons(s.heap, s'.heap, list, turns, k);
      RoundTurns(s', rest, turns, k + 1, b, TcpSocketSpec.Run(c, CallsAt(s.heap, a, turn, b)));
      TcpSocketSpec.RunAppend(c, CallsAt(s.heap, a, turn, b), LoopCalls(s.heap, rest, turns, k + 1, b));
    }
  }

  predicate SendsOnly(ops: seq<Call>) {
    forall k :: 0 <= k < |ops| ==> ops[k].SendCall?
  }

  lemma {:induction false} SendCallsAreSends(messages: seq<Bytes>)
    ensures SendsOnly(SendCalls(messages))
  {
    if messages != [] {
      SendCallsAreSends(messages[1..]);
    }
  }

  /** The calls on a client that is not listed are messages only. */
  lemma {:induction false} UnlistedGetsMail(
      heap: map<Addr, Socket>, list: seq<Addr>, turns: seq<ClientTurn>, k: nat, b: Addr)
    requires (forall j :: 0 <= j < |list| ==> list[j] in heap) && b !in list
    ensures SendsOnly(LoopCalls(heap, list, turns, k, b))
    decreases |list|
  {
    if list != [] {
      SendCallsAreSends(To(TurnFor(turns, k).messages, b));
      UnlistedGetsMail(heap, list[1..], turns, k + 1, b);
    }
  }

  /** The p-th call is this I/O turn, and every other call is a send. */
  ghost predicate OneTurnAt(ops: seq<Call>, p: nat, turn: Turn) {
    && p < |ops| && ops[p] == IoCall(turn)
    && forall q :: 0 <= q < |ops| && q != p ==> ops[q].SendCall?
  }

  lemma OneTurnAfter(mail: seq<Call>, ops: seq<Call>, p: nat, turn: Turn)
    requires SendsOnly(mail) && OneTurnAt(ops, p, turn)
    ensures OneTurnAt(mail + ops, |mail| + p, turn)
  {
  }

  lemma OneTurnBefore(mail: seq<Call>, turn: Turn)
    requires SendsOnly(mail)
    ensures OneTurnAt([IoCall(turn)] + mail, 0, turn)
  {
  }

  /** The i-th client of a duplicate-free list has exactly one turn, its own; the other calls are messages. */
  lemma {:induction false} OneTurnEach(
      heap: map<Addr, Socket>, list: seq<Addr>, turns: seq<ClientTurn>, k: nat, i: nat) returns (p: nat)
    requires (forall j :: 0 <= j < |list| ==> list[j] in heap) && NoDup(list) && i < |list|
    ensures OneTurnAt(LoopCalls(heap, list, turns, k, list[i]), p, OwnTurn(TurnFor(turns, k + i), list[i]))
    decreases |list|
  {
    var b, rest := list[i], list[1..];
    var later := LoopCalls(heap, rest, turns, k + 1, b);
    if i == 0 {
      UnlistedGetsMail(heap, rest, turns, k + 1, b);
      OneTurnBefore(later, OwnTurn(TurnFor(turns, k), b));
      p := 0;
    } else {
      assert b == rest[i - 1] && b != list[0];
      var mail := CallsAt(heap, list[0], TurnFor(turns, k), b);
      SendCallsAreSends(To(TurnFor(turns, k).messages, b));
      var q := OneTurnEach(heap, rest, turns, k + 1, i - 1);
      OneTurnAfter(mail, later, q, OwnTurn(TurnFor(turns, k + i), b));
      p := |mail| + q;
    }
  }

  /** All calls made on client b in one round: those of the loop, and the receive-finished callback's messages. */
  ghost function RoundCalls(s: Server, turns: seq<ClientTurn>, finished: seq<Message>, b: Addr):
      (ops: seq<Call>)
    requires Serviceable(s, s.receive)
    ensures AllLegal(ops)
  {
    LoopCalls(s.heap, s.receive, turns, 0, b)
      + if SomeDelivers(s.heap, s.receive, turns, 0) then SendCalls(To(finished, b)) else []
  }

  /**
   The effect of a round on an open server: each client is in the state that the calls made on it lead to, and
   the receive-finished callback runs exactly when one of the clients found data.
   */
  lemma RoundEffect(s: Server, turns: seq<ClientTurn>, finished: seq<Message>, b: Addr, c: Session)
    requires Inv(s) && s.efd >= 0 && b in s.heap && c.socket == s.heap[b]
    ensures Serviceable(s, s.receive) && Serviceable(s, s.send)
    ensures var r := TcpServerSpec.SendAndRecv(s, turns, finished);
      && (r.received <==> SomeDelivers(s.heap, s.receive, turns, 0))
      && b in r.server.heap
      && TcpSocketSpec.Run(c, RoundCalls(s, turns, finished, b)).socket == r.server.heap[b]
  {
    ListsLive(s);
    RoundIs(s, turns, finished);
    RoundTurns(s, s.receive, turns, 0, b, c);
    var r1, loop := ReceiveRound(s, s.receive, turns, 0), LoopCalls(s.heap, s.receive, turns, 0, b);
    if r1.received {
      QueueEachIs(r1.server, finished);
      TcpSocketSpec.RunAppend(c, loop, SendCalls(To(finished, b)));
      SendEachIsRun(TcpSocketSpec.Run(c, loop), To(finished, b));
    } else {
      assert RoundCalls(s, turns, finished, b) == loop;
    }
  }

  // ---- Runs ----

  datatype Op =
    | ListenOp(listen: ListenAnswer)
    | PollOp(poll: PollAnswer)
    | RoundOp(turns: seq<ClientTurn>, finished: seq<Message>)
    | AppSend(message: Message)
    | DestroyOp

  ghost function Step(s: Server, op: Op): (s': Server)
    requires Inv(s)
    ensures Inv(s')
  {
    match op
    case ListenOp(answer) => ListenInv(s, answer); Listen(s, answer).0
    case PollOp(answer) => PollInv(s, answer); Poll(s, answer)
    case RoundOp(turns, finished) =>
      RoundServicesEach(s, turns, finished);
      TcpServerSpec.SendAndRecv(s, turns, finished).server
    case AppSend(message) => QueueEachInv(s, [message]); QueueEach(s, [message])
    case DestroyOp => InvDestroyable(s); DestroyCleans(s); TcpServerSpec.Destroy(s)
  }

  lemma NewServerInv()
    ensures Inv(NewServer())
  {
    assert Traced(NewServer());
  }

  /** The server after a sequence of calls. */
  ghost function Run(ops: seq<Op>): (s: Server)
    ensures Inv(s)
  {
    if ops == [] then
      NewServerInv();
      NewServer()
    else Step(Run(ops[..|ops| - 1]), ops[|ops| - 1])
  }

  /**
   At the end of every call of every run: the receive list is the owning list, in acceptance order and without
   duplicates, every pointer in a list or in epoll is a live owned client (or the registered listener), the
   listener is in no list, and every client with a disconnect flag is scheduled for removal.
   */
  lemma EveryRunIsSafe(ops: seq<Op>, a: Addr, fd: int)
    ensures var s := Run(ops);
      && s.receive == s.sockets == Owned(s.trace) && NoDup(s.sockets)
      && (a in s.sockets <==> a in s.heap)
      && (a in s.send || a in s.disconnected ==> a in s.heap)
      && LISTENER !in s.heap
      && (fd in s.epoll ==> s.epoll[fd] == LISTENER || s.epoll[fd] in s.heap)
      && (a in s.heap && Flagged(s.heap[a]) ==> a in s.disconnected)
  {
    assert Inv(Run(ops));
  }
}
