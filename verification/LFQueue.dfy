/**
 The queue of include/lf_queue.hpp as the object a single thread sees, with each method running to
 completion.  UpdateWriteIndex and UpdateReadIndex are also stated on the shared memory of the step-level
 model: each is that model's index store followed by its count update.
 */
module LFQueue {
  import opened RingArithmetic
  import opened SpscQueue
  import opened Wrappers

  class Queue<T(0)> {
    var store: array<T>
    var nextWriteIndex: nat
    var nextReadIndex: nat
    var numElements: nat

    ghost predicate Valid()
      reads this
    {
      && nextWriteIndex < store.Length
      && nextReadIndex < store.Length
      && numElements <= store.Length
      && nextWriteIndex == Pos(nextReadIndex, numElements, store.Length)
    }

    /** The published elements, oldest first. */
    ghost function Contents(): seq<T>
      requires Valid()
      reads this, store
    {
      Window(store[..], nextReadIndex, numElements)
    }

    /** The shared memory as the step-level model sees it. */
    ghost function Shared(): Ring<T>
      reads this, store
    {
      Ring(Wholes(store[..]), nextWriteIndex, nextReadIndex, numElements)
    }

    constructor (numElems: nat)
      requires numElems > 0
      ensures Valid() && fresh(store) && store.Length == numElems
      ensures Contents() == []
    {
      store := new T[numElems];
      nextWriteIndex, nextReadIndex, numElements := 0, 0, 0;
    }

    /** The slot to write next; null exactly when the queue is full. */
    method GetNextToWriteTo() returns (slot: Option<nat>)
      requires Valid()
      ensures slot.None? <==> |Contents()| == store.Length
      ensures slot.Some? ==> slot.value == nextWriteIndex
    {
      WindowSize(store[..], nextReadIndex, numElements);
      slot := if numElements == store.Length then None else Some(nextWriteIndex);
    }

    /** Publishes the slot at the write index. */
    method UpdateWriteIndex()
      requires Valid() && |Contents()| < store.Length
      modifies this`nextWriteIndex, this`numElements
      ensures Valid()
      ensures Contents() == old(Contents()) + [store[old(nextWriteIndex)]]
      ensures Shared() == Increment(StoreWriteIndex(old(Shared()), old(nextWriteIndex)))
    {
      WindowSize(store[..], nextReadIndex, numElements);
      AdvanceIsMod(nextWriteIndex, store.Length);
      WindowSnoc(store[..], nextReadIndex, numElements);
      nextWriteIndex := (nextWriteIndex + 1) % store.Length;
      numElements := numElements + 1;
    }

    /** The slot of the oldest element; null exactly when the queue is empty. */
    method GetNextToRead() returns (slot: Option<nat>)
      requires Valid()
      ensures slot.None? <==> Contents() == []
      ensures slot.Some? ==> slot.value == nextReadIndex && store[slot.value] == Contents()[0]
    {
      WindowSize(store[..], nextReadIndex, numElements);
      slot := if numElements == 0 then None else Some(nextReadIndex);
    }

    /** Releases the oldest element. */
    method UpdateReadIndex()
      requires Valid() && Contents() != []
      modifies this`nextReadIndex, this`numElements
      ensures Valid()
      ensures Contents() == old(Contents())[1..]
      ensures Shared() == Decrement(StoreReadIndex(old(Shared()), old(nextReadIndex)))
    {
      WindowSize(store[..], nextReadIndex, numElements);
      AdvanceIsMod(nextReadIndex, store.Length);
      nextReadIndex := (nextReadIndex + 1) % store.Length;
      numElements := numElements - 1;
    }

    method Size() returns (n: nat)
      requires Valid()
      ensures n == |Contents()|
    {
      WindowSize(store[..], nextReadIndex, numElements);
      n := numElements;
    }
  }

  // ---- Windows of a ring ----

  lemma {:induction false} WindowSize<T>(s: seq<T>, i: nat, n: nat)
    requires i < |s|
    ensures |Window(s, i, n)| == n
    decreases n
  {
    if n > 0 {
      WindowSize(s, Advance(i, |s|), n - 1);
    }
  }

  lemma {:induction false} WindowSnoc<T>(s: seq<T>, i: nat, n: nat)
    requires i < |s| && n < |s|
    ensures Window(s, i, n + 1) == Window(s, i, n) + [s[Pos(i, n, |s|)]]
    decreases n
  {
    if n > 0 {
      PosAdvance(i, n - 1, |s|);
      WindowSnoc(s, Advance(i, |s|), n - 1);
    }
  }

  /** Filling the slot handed to the producer changes no published element. */
  lemma WindowUntouched<T>(s: seq<T>, i: nat, n: nat, v: T)
    requires i < |s| && n < |s|
    ensures Window(s[Pos(i, n, |s|) := v], i, n) == Window(s, i, n)
  {
    WindowFrame(s, s[Pos(i, n, |s|) := v], i, n, Pos(i, n, |s|));
  }

  lemma {:induction false} WindowFrame<T>(s: seq<T>, t: seq<T>, i: nat, n: nat, hole: nat)
    requires i < |s| == |t| && n < |s| && hole < |s|
    requires hole == Pos(i, n, |s|)
    requires forall k :: 0 <= k < |s| && k != hole ==> t[k] == s[k]
    ensures Window(t, i, n) == Window(s, i, n)
    decreases n
  {
    if n > 0 {
      WindowFrame(s, t, Advance(i, |s|), n - 1, hole);
    }
  }
}

/** The queue traffic of the logger when one thread runs undisturbed (src/logger.cpp). */
module LoggerQueueing {
  import opened Sequences
  import opened LogElements
  import opened LFQueue

  /** One pass of the loop in pushValue: refused when full, otherwise written and published. */
  method TryPush(q: Queue<LogElement>, e: LogElement) returns (done: bool)
    requires q.Valid()
    modifies q`nextWriteIndex, q`numElements, q.store
    ensures q.Valid() && q.store == old(q.store)
    ensures done <==> |old(q.Contents())| < q.store.Length
    ensures q.Contents() == old(q.Contents()) + (if done then [e] else [])
  {
    WindowSize(q.store[..], q.nextReadIndex, q.numElements);
    var slot := q.GetNextToWriteTo();
    if slot.None? {
      done := false;
      return;
    }
    q.store[slot.value] := e;
    WindowUntouched(old(q.store[..]), q.nextReadIndex, q.numElements, e);
    assert q.store[..] == old(q.store[..])[slot.value := e];
    q.UpdateWriteIndex();
    done := true;
  }

  /** The switch of flushQueue: the tag chooses the union member to write. */
  method WriteElement(e: LogElement, number: Payload -> string) returns (text: string)
    requires Selects(e.tag, e.payload)
    ensures text == Show(e.payload, number)
  {
    match e.tag
    case Char => text := [e.payload.c];
    case Integer => text := number(I(e.payload.i));
    case LongInteger => text := number(L(e.payload.l));
    case LongLongInteger => text := number(LL(e.payload.ll));
    case UnsignedInteger => text := number(U(e.payload.u));
    case UnsignedLongInteger => text := number(UL(e.payload.ul));
    case UnsignedLongLongInteger => text := number(ULL(e.payload.ull));
    case Float => text := number(F(e.payload.f));
    case Double => text := number(D(e.payload.d));
  }

  /** The inner loop of flushQueue: writes everything available, oldest first, and empties the queue. */
  method FlushAvailable(q: Queue<LogElement>, number: Payload -> string) returns (file: string)
    requires q.Valid() && WellTagged(q.Contents())
    modifies q`nextReadIndex, q`numElements
    ensures q.Valid() && q.Contents() == []
    ensures file == Render(old(q.Contents()), number)
  {
    file := "";
    var next := q.GetNextToRead();
    while next.Some?
      invariant q.Valid() && WellTagged(q.Contents())
      invariant next.None? <==> q.Contents() == []
      invariant next.Some? ==> next.value == q.nextReadIndex && q.store[next.value] == q.Contents()[0]
      invariant file + Render(q.Contents(), number) == Render(old(q.Contents()), number)
      decreases |q.Contents()|
    {
      ghost var contents := q.Contents();
      var text := WriteElement(q.store[next.value], number);
      AppendAssoc(file, text, Render(contents[1..], number));
      file := file + text;
      q.UpdateReadIndex();
      next := q.GetNextToRead();
    }
  }
}
