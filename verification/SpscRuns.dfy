/**
 Whole runs of the two-thread ring: for every interleaving, safety of the slots, conservation of the
 values, and linearizability to a bounded first-in first-out queue.
 */
module SpscRuns {
  import opened RingArithmetic
  import opened SpscQueue
  import opened Wrappers

  /** Which thread performs the next access, and the value the producer would write in it. */
  datatype Turn<T> = Produce(v: T) | Consume

  ghost function Step<T>(s: State<T>, turn: Turn<T>): State<T>
    requires InBounds(s)
  {
    match turn
    case Produce(v) => ProducerStep(s, v)
    case Consume => ConsumerStep(s)
  }

  lemma StepInv<T>(s: State<T>, turn: Turn<T>)
    requires Inv(s)
    ensures InBounds(s) && Inv(Step(s, turn))
    ensures |Step(s, turn).ring.store| == |s.ring.store|
  {
    match turn
    case Produce(v) => ProducerStepInv(s, v);
    case Consume => ConsumerStepInv(s);
  }

  /** The state after an arbitrary interleaving of any length. */
  ghost function Run<T>(store: seq<Slot<T>>, turns: seq<Turn<T>>): (s: State<T>)
    requires |store| > 0
    ensures Inv(s) && |s.ring.store| == |store|
  {
    if turns == [] then
      InitInv(store);
      Init(store)
    else
      var before, turn := Run(store, turns[..|turns| - 1]), turns[|turns| - 1];
      StepInv(before, turn);
      Step(before, turn)
  }

  // ---- Slot safety ----

  /** From the moment it has the pointer until it stores the write index, the producer holds slot i. */
  predicate ProducerHolds<T>(s: State<T>, i: nat) {
    && (s.producer.PSlot? || s.producer.PWriting? || s.producer.PWritten? || s.producer.PLoaded?)
    && i == s.ring.writeIndex
  }

  /** From the moment it has the pointer until it stores the read index, the consumer holds slot i. */
  predicate ConsumerHolds<T>(s: State<T>, i: nat) {
    && (s.consumer.CSlot? || s.consumer.CReading? || s.consumer.CRead? || s.consumer.CLoaded?)
    && i == s.ring.readIndex
  }

  /**
   In every reachable state the indices and the count are in range (so the decrement never underflows and
   the assertion in updateReadIndex holds), the registers of a thread name the slot it holds, and no slot is
   held by both threads.
   */
  lemma SlotSafety<T>(store: seq<Slot<T>>, turns: seq<Turn<T>>, i: nat)
    requires |store| > 0
    ensures var s := Run(store, turns);
      && s.ring.writeIndex == |s.written| % |store| < |store|
      && s.ring.readIndex == s.released % |store| < |store|
      && 0 <= s.ring.count <= |store|
      && (s.consumer.CRead? || s.consumer.CLoaded? || s.consumer.CStored? ==> s.ring.count > 0)
      && (s.producer.PSlot? || s.producer.PWriting? ==> ProducerHolds(s, s.producer.i))
      && (s.consumer.CSlot? || s.consumer.CReading? ==> ConsumerHolds(s, s.consumer.i))
      && !(ProducerHolds(s, i) && ConsumerHolds(s, i))
      && (ProducerHolds(s, i) || ConsumerHolds(s, i) ==> i < |store|)
  {
    var s := Run(store, turns);
    IndexIsMod(|s.written|, |store|);
    IndexIsMod(s.released, |store|);
    if ProducerHolds(s, i) {
      WriteKeepsCells(s, Raw);
    }
  }

  /**
   While a thread holds a slot, which lasts until it publishes or releases it, no step of the other thread
   takes it away or changes what is in it.
   */
  lemma GrantIsStable<T>(store: seq<Slot<T>>, turns: seq<Turn<T>>, v: T, i: nat)
    requires |store| > 0
    ensures var s := Run(store, turns);
      && InBounds(s)
      && (ProducerHolds(s, i) ==>
            && ProducerHolds(ConsumerStep(s), i)
            && ConsumerStep(s).ring.store == s.ring.store)
      && (ConsumerHolds(s, i) ==>
            && ConsumerHolds(ProducerStep(s, v), i)
            && ProducerStep(s, v).ring.store[i] == s.ring.store[i])
  {
    var s := Run(store, turns);
    InvInBounds(s);
    if ProducerHolds(s, s.ring.writeIndex) {
      WriteKeepsCells(s, Raw);
    }
  }

  /** A thread gives up its own hold only by publishing or releasing the slot. */
  lemma HoldEndsAtUpdate<T>(store: seq<Slot<T>>, turns: seq<Turn<T>>, v: T, i: nat)
    requires |store| > 0
    ensures var s := Run(store, turns);
      && InBounds(s)
      && (ProducerHolds(s, i) && !ProducerHolds(ProducerStep(s, v), i) ==>
            |ProducerStep(s, v).written| == |s.written| + 1)
      && (ConsumerHolds(s, i) && !ConsumerHolds(ConsumerStep(s), i) ==>
            ConsumerStep(s).released == s.released + 1)
  {
    InvInBounds(Run(store, turns));
  }

  // ---- Conservation ----

  /** The unreleased part of the ring as it lies in memory. */
  ghost function Contents<T>(s: State<T>): seq<Slot<T>>
    requires Inv(s)
  {
    Window(s.ring.store, s.ring.readIndex, |s.written| - s.released)
  }

  ghost function Lasts<T>(seen: seq<Seen<T>>): seq<Slot<T>> {
    seq(|seen|, i requires 0 <= i < |seen| => seen[i].last)
  }

  lemma {:induction false} WindowIs<T>(store: seq<Slot<T>>, written: seq<T>, k: nat)
    requires |store| > 0 && k <= |written|
    requires forall j: nat :: k <= j < |written| ==> store[Index(j, |store|)] == Whole(written[j])
    ensures Window(store, Index(k, |store|), |written| - k) == Wholes(written[k..])
    decreases |written| - k
  {
    if k == |written| {
    } else {
      WindowIs(store, written, k + 1);
      assert Index(k + 1, |store|) == Advance(Index(k, |store|), |store|);
      WholeSplit(written[k..], 1);
      assert written[k..][1..] == written[k + 1..];
    }
  }

  lemma LastsAre<T>(outputs: seq<Seen<T>>, written: seq<T>, n: nat)
    requires n <= |outputs| <= |written|
    requires forall k :: 0 <= k < |outputs| ==> outputs[k] == Clean(written[k])
    ensures Lasts(outputs[..n]) == Wholes(written[..n])
  {
  }

  lemma WholeSplit<T>(vs: seq<T>, n: nat)
    requires n <= |vs|
    ensures Wholes(vs) == Wholes(vs[..n]) + Wholes(vs[n..])
  {
  }

  lemma StateConserves<T>(s: State<T>)
    requires Inv(s)
    ensures s.released <= |s.outputs|
    ensures Lasts(s.outputs[..s.released]) + Contents(s) == Wholes(s.written)
  {
    WindowIs(s.ring.store, s.written, s.released);
    LastsAre(s.outputs, s.written, s.released);
    WholeSplit(s.written, s.released);
  }

  /**
   What the consumer has released, followed by what is in the ring, is exactly what the producer has
   stored, in every reachable state: nothing is lost, duplicated, reordered or torn.
   */
  lemma Conservation<T>(store: seq<Slot<T>>, turns: seq<Turn<T>>)
    requires |store| > 0
    ensures var s := Run(store, turns);
      && s.released <= |s.outputs|
      && Lasts(s.outputs[..s.released]) + Contents(s) == Wholes(s.written)
  {
    StateConserves(Run(store, turns));
  }

  // ---- Linearizability ----

  /** The queue as its clients see it: published by the count, released by the count. */
  ghost function Abs<T>(s: State<T>): seq<T>
    requires Lags(s)
  {
    s.written[s.released - CPending(s)..|s.written| - PPending(s)]
  }

  /** Observable results: a completed push, a completed pop, or a null pointer from either query. */
  datatype Event<T> = Enq(v: T) | Deq(seen: Seen<T>) | ReportFull | ReportEmpty

  /** The result a client observes of one access; a query that leaves its thread idle returned null. */
  ghost function EventsOf<T>(s: State<T>, turn: Turn<T>): seq<Event<T>>
    requires InBounds(s)
  {
    match turn
    case Produce(_) =>
      if s.producer.PStored? then [Enq(s.producer.value)]
      else if s.producer.PIdle? && Step(s, turn).producer.PIdle? then [ReportFull]
      else []
    case Consume =>
      if s.consumer.CStored? then [Deq(s.consumer.seen)]
      else if s.consumer.CIdle? && Step(s, turn).consumer.CIdle? then [ReportEmpty]
      else []
  }

  ghost function Trace<T>(store: seq<Slot<T>>, turns: seq<Turn<T>>): seq<Event<T>>
    requires |store| > 0
  {
    if turns == [] then []
    else
      var rest := turns[..|turns| - 1];
      InvInBounds(Run(store, rest));
      Trace(store, rest) + EventsOf(Run(store, rest), turns[|turns| - 1])
  }

  /** One event on a bounded first-in first-out queue; None when the queue could not have produced it. */
  ghost function Fifo<T>(capacity: nat, q: seq<T>, e: Event<T>): Option<seq<T>> {
    match e
    case Enq(v) => if |q| < capacity then Some(q + [v]) else None
    case Deq(seen) => if q != [] && seen == Clean(q[0]) then Some(q[1..]) else None
    case ReportFull => if |q| == capacity then Some(q) else None
    case ReportEmpty => if q == [] then Some(q) else None
  }

  ghost function Replay<T>(capacity: nat, events: seq<Event<T>>): Option<seq<T>> {
    if events == [] then Some([])
    else
      match Replay(capacity, events[..|events| - 1])
      case None => None
      case Some(q) => Fifo(capacity, q, events[|events| - 1])
  }

  lemma ReplayAppend<T>(capacity: nat, events: seq<Event<T>>, es: seq<Event<T>>)
    requires |es| <= 1
    ensures Replay(capacity, events + es) ==
      if es == [] || Replay(capacity, events).None? then Replay(capacity, events)
      else Fifo(capacity, Replay(capacity, events).value, es[0])
  {
    if es == [] {
      assert events + es == events;
    } else {
      assert (events + es)[..|events|] == events;
    }
  }

  lemma SliceSnoc<T>(vs: seq<T>, a: nat, b: nat)
    requires a <= b < |vs|
    ensures vs[a..b + 1] == vs[a..b] + [vs[b]]
  {
  }

  lemma SlicePrefix<T>(vs: seq<T>, v: T, a: nat)
    requires a <= |vs|
    ensures (vs + [v])[a..|vs|] == vs[a..|vs|]
  {
  }

  lemma SliceTail<T>(vs: seq<T>, a: nat, b: nat)
    requires a < b <= |vs|
    ensures vs[a..b][0] == vs[a] && vs[a..b][1..] == vs[a + 1..b]
  {
  }

  /** The increment completes a push. */
  lemma PushRefines<T>(s: State<T>, v: T)
    requires InBounds(s) && Lags(s) && Lags(ProducerStep(s, v)) && s.producer.PStored?
    ensures Fifo(|s.ring.store|, Abs(s), Enq(s.producer.value)) == Some(Abs(ProducerStep(s, v)))
  {
    SliceSnoc(s.written, s.released - CPending(s), |s.written| - 1);
  }

  lemma ProducerSilent<T>(s: State<T>, v: T)
    requires InBounds(s) && Lags(s) && Lags(ProducerStep(s, v)) && !s.producer.PStored?
    ensures Abs(ProducerStep(s, v)) == Abs(s)
  {
    if s.producer.PLoaded? {
      SlicePrefix(s.written, s.producer.value, s.released - CPending(s));
    } else {
      var s' := ProducerStep(s, v);
      assert s'.written == s.written && s'.released == s.released && s'.consumer == s.consumer;
      assert PPending(s') == PPending(s) == 0;
    }
  }

  /** The decrement completes a pop of the value that was read. */
  lemma PopRefines<T>(s: State<T>)
    requires InBounds(s) && Lags(s) && Lags(ConsumerStep(s)) && s.consumer.CStored?
    ensures Fifo(|s.ring.store|, Abs(s), Deq(s.consumer.seen)) == Some(Abs(ConsumerStep(s)))
  {
    SliceTail(s.written, s.released - 1, |s.written| - PPending(s));
  }

  lemma ConsumerSilent<T>(s: State<T>)
    requires InBounds(s) && Lags(s) && Lags(ConsumerStep(s)) && !s.consumer.CStored?
    ensures Abs(ConsumerStep(s)) == Abs(s)
  {
    match s.consumer
    case CIdle =>
    case CGranted =>
    case CSlot(_) =>
    case CReading(_, _) =>
    case CRead(_) =>
    case CLoaded(_, _) =>
  }

  /** Each access either is invisible or performs one legal operation of the bounded queue. */
  lemma StepRefines<T>(s: State<T>, turn: Turn<T>)
    requires Inv(s)
    ensures InBounds(s) && Inv(Step(s, turn))
    ensures var es := EventsOf(s, turn);
      if es == [] then Abs(Step(s, turn)) == Abs(s)
      else |es| == 1 && Fifo(|s.ring.store|, Abs(s), es[0]) == Some(Abs(Step(s, turn)))
  {
    StepInv(s, turn);
    match turn
    case Produce(v) =>
      if s.producer.PStored? {
        PushRefines(s, v);
      } else {
        ProducerSilent(s, v);
      }
    case Consume =>
      if s.consumer.CStored? {
        PopRefines(s);
      } else {
        ConsumerSilent(s);
      }
  }

  lemma ReplayStep<T>(s: State<T>, turn: Turn<T>, events: seq<Event<T>>)
    requires Inv(s) && Replay(|s.ring.store|, events) == Some(Abs(s))
    ensures InBounds(s) && Inv(Step(s, turn))
    ensures Replay(|s.ring.store|, events + EventsOf(s, turn)) == Some(Abs(Step(s, turn)))
  {
    StepRefines(s, turn);
    ReplayAppend(|s.ring.store|, events, EventsOf(s, turn));
  }

  lemma {:induction false} RunReplays<T>(store: seq<Slot<T>>, turns: seq<Turn<T>>)
    requires |store| > 0
    ensures Replay(|store|, Trace(store, turns)) == Some(Abs(Run(store, turns)))
  {
    if turns == [] {
    } else {
      var rest := turns[..|turns| - 1];
      RunReplays(store, rest);
      ReplayStep(Run(store, rest), turns[|turns| - 1], Trace(store, rest));
    }
  }

  lemma AbsSize<T>(s: State<T>)
    requires Lags(s)
    ensures |Abs(s)| == s.ring.count
  {
  }

  /**
   Linearizability: for every interleaving, the observable events are a legal history of a bounded FIFO
   queue, taking effect at the count updates, and the count is that queue's length.
   */
  lemma Linearizable<T>(store: seq<Slot<T>>, turns: seq<Turn<T>>)
    requires |store| > 0
    ensures var s := Run(store, turns);
      && Replay(|store|, Trace(store, turns)) == Some(Abs(s))
      && |Abs(s)| == s.ring.count
  {
    RunReplays(store, turns);
    AbsSize(Run(store, turns));
  }
}
