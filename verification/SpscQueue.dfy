/** Arithmetic of positions that advance round a ring of n slots. */
module RingArithmetic {

  lemma MulAtLeast(n: nat, d: int)
    requires d >= 1
    ensures n * d >= n
  {
    assert n * (d - 1) >= 0;
    assert n * d == n * (d - 1) + n;
  }

  /** Quotient and remainder are unique. */
  lemma DivUnique(n: nat, q: int, r: nat, q': int, r': nat)
    requires r < n && r' < n && n * q + r == n * q' + r'
    ensures q == q' && r == r'
  {
    assert n * (q' - q) == n * q' - n * q == -(n * (q - q'));
    if q < q' {
      MulAtLeast(n, q' - q);
    } else if q' < q {
      MulAtLeast(n, q - q');
    }
  }

  lemma ModIs(y: nat, n: nat, q: int, r: nat)
    requires r < n && y == n * q + r
    ensures y % n == r
  {
    DivUnique(n, q, r, y / n, y % n);
  }

  lemma ModSucc(x: nat, n: nat)
    requires n > 0
    ensures (x % n + 1) % n == (x + 1) % n
  {
    var q, r := x / n, x % n;
    assert x == n * q + r;
    if r + 1 == n {
      assert n * (q + 1) == n * q + n;
      ModIs(x + 1, n, q + 1, 0);
    } else {
      ModIs(x + 1, n, q, r + 1);
    }
  }

  /** Fewer than n apart, two different counters never name the same slot. */
  lemma ModDistinct(a: nat, b: nat, n: nat)
    requires a < b < a + n
    ensures a % n != b % n
  {
    var q, q' := a / n, b / n;
    assert b - a == (n * q' + b % n) - (n * q + a % n);
    assert n * (q' - q) == n * q' - n * q;
    if q' > q {
      MulAtLeast(n, q' - q);
    }
  }

  /** The slot after i, written without the remainder operator; AdvanceIsMod relates the two. */
  function Advance(i: nat, n: nat): (j: nat)
    requires i < n
    ensures j < n
  {
    if i + 1 == n then 0 else i + 1
  }

  lemma AdvanceIsMod(i: nat, n: nat)
    requires i < n
    ensures Advance(i, n) == (i + 1) % n
  {
  }

  /** The position n slots after i, for n at most one full turn. */
  function Pos(i: nat, n: nat, size: nat): (j: nat)
    requires i < size && n <= size
    ensures j < size
  {
    if i + n < size then i + n else i + n - size
  }

  lemma PosAdvance(i: nat, m: nat, size: nat)
    requires i < size && m < size
    ensures Pos(Advance(i, size), m, size) == Pos(i, m + 1, size)
    ensures m + 1 < size ==> Pos(i, m + 1, size) != i
  {
  }

  /** n elements read one after the other round the ring from position i. */
  function Window<T>(store: seq<T>, i: nat, n: nat): seq<T>
    requires i < |store|
    decreases n
  {
    if n == 0 then [] else [store[i]] + Window(store, Advance(i, |store|), n - 1)
  }

  /** The slot reached after k single steps round a ring of n slots. */
  ghost function Index(k: nat, n: nat): (i: nat)
    requires n > 0
    ensures i < n
  {
    if k == 0 then 0 else Advance(Index(k - 1, n), n)
  }

  lemma {:induction false} IndexIsMod(k: nat, n: nat)
    requires n > 0
    ensures Index(k, n) == k % n
  {
    if k == 0 {
    } else {
      IndexIsMod(k - 1, n);
      AdvanceIsMod(Index(k - 1, n), n);
      ModSucc(k - 1, n);
    }
  }

  lemma IndexDistinct(a: nat, b: nat, n: nat)
    requires a < b < a + n
    ensures Index(a, n) != Index(b, n)
  {
    IndexIsMod(a, n);
    IndexIsMod(b, n);
    ModDistinct(a, b, n);
  }
}

/**
 The single-producer single-consumer ring of include/lf_queue.hpp, one atomic access at a time.

 Every atomic operation in the source has the default sequentially consistent order, so a run is an
 arbitrary interleaving of the two threads' accesses.  The plain accesses to a slot are split into a
 beginning and an end, so that an overlapping read and write would be visible as a torn value.
 */
module SpscQueue {
  import opened RingArithmetic

  /** A slot is Raw before its first write and while a write to it is in progress. */
  datatype Slot<T> = Raw | Whole(value: T)

  function Wholes<T>(vs: seq<T>): seq<Slot<T>> {
    seq(|vs|, i requires 0 <= i < |vs| => Whole(vs[i]))
  }

  /** The shared memory: slot vector, two indices and the element count. */
  datatype Ring<T> = Ring(store: seq<Slot<T>>, writeIndex: nat, readIndex: nat, count: int)

  /** What a consumer saw of a slot at the beginning and at the end of its read. */
  datatype Seen<T> = Seen(first: Slot<T>, last: Slot<T>)

  /** Program counter of the producer, with its registers. */
  datatype Producer<T> =
    | PIdle                          // about to load the count
    | PGranted                       // count was below capacity; about to load the write index
    | PSlot(i: nat)                  // holds a pointer to slot i
    | PWriting(i: nat, value: T)     // in the middle of writing slot i
    | PWritten(value: T)             // slot filled; about to load the write index for the update
    | PLoaded(j: nat, value: T)      // about to store the successor of j
    | PStored(value: T)              // index stored, count not yet incremented

  /** Program counter of the consumer, with its registers. */
  datatype Consumer<T> =
    | CIdle
    | CGranted
    | CSlot(i: nat)
    | CReading(i: nat, first: Slot<T>)
    | CRead(seen: Seen<T>)
    | CLoaded(j: nat, seen: Seen<T>)
    | CStored(seen: Seen<T>)

  /**
   A state of the two-thread system.  The last three fields are history: every value whose write index
   has been stored, how many read indices have been stored, and everything the consumer has read.
   */
  datatype State<T> = State(
    ring: Ring<T>,
    producer: Producer<T>,
    consumer: Consumer<T>,
    written: seq<T>,
    released: nat,
    outputs: seq<Seen<T>>)

  /** A new queue; what its slots hold at first does not matter. */
  function Init<T>(store: seq<Slot<T>>): State<T> {
    State(Ring(store, 0, 0, 0), PIdle, CIdle, [], 0, [])
  }

  // ---- Individual accesses to the shared ring ----

  function StoreWriteIndex<T>(m: Ring<T>, j: nat): Ring<T>
    requires j < |m.store|
  {
    m.(writeIndex := Advance(j, |m.store|))
  }

  function StoreReadIndex<T>(m: Ring<T>, j: nat): Ring<T>
    requires j < |m.store|
  {
    m.(readIndex := Advance(j, |m.store|))
  }

  function Increment<T>(m: Ring<T>): Ring<T> {
    m.(count := m.count + 1)
  }

  function Decrement<T>(m: Ring<T>): Ring<T> {
    m.(count := m.count - 1)
  }

  // ---- Thread steps ----

  /** Every slot pointer in use lies inside the slot vector. */
  predicate InBounds<T>(s: State<T>) {
    var cap := |s.ring.store|;
    && cap > 0
    && (s.producer.PSlot? || s.producer.PWriting? ==> s.producer.i < cap)
    && (s.consumer.CSlot? || s.consumer.CReading? ==> s.consumer.i < cap)
    && (s.producer.PLoaded? ==> s.producer.j < cap)
    && (s.consumer.CLoaded? ==> s.consumer.j < cap)
  }

  /** The producer's next access; v is the value it will write if it begins a write now. */
  function ProducerStep<T>(s: State<T>, v: T): State<T>
    requires InBounds(s)
  {
    match s.producer
    case PIdle =>
      if s.ring.count == |s.ring.store| then s else s.(producer := PGranted)
    case PGranted => s.(producer := PSlot(s.ring.writeIndex))
    case PSlot(i) =>
      s.(producer := PWriting(i, v), ring := s.ring.(store := s.ring.store[i := Raw]))
    case PWriting(i, x) =>
      s.(producer := PWritten(x), ring := s.ring.(store := s.ring.store[i := Whole(x)]))
    case PWritten(x) => s.(producer := PLoaded(s.ring.writeIndex, x))
    case PLoaded(j, x) =>
      s.(producer := PStored(x), ring := StoreWriteIndex(s.ring, j), written := s.written + [x])
    case PStored(_) => s.(producer := PIdle, ring := Increment(s.ring))
  }

  /** The consumer's next access. */
  function ConsumerStep<T>(s: State<T>): State<T>
    requires InBounds(s)
  {
    match s.consumer
    case CIdle =>
      if s.ring.count == 0 then s else s.(consumer := CGranted)
    case CGranted => s.(consumer := CSlot(s.ring.readIndex))
    case CSlot(i) => s.(consumer := CReading(i, s.ring.store[i]))
    case CReading(i, first) =>
      var seen := Seen(first, s.ring.store[i]);
      s.(consumer := CRead(seen), outputs := s.outputs + [seen])
    case CRead(seen) => s.(consumer := CLoaded(s.ring.readIndex, seen))
    case CLoaded(j, seen) =>
      s.(consumer := CStored(seen), ring := StoreReadIndex(s.ring, j), released := s.released + 1)
    case CStored(_) => s.(consumer := CIdle, ring := Decrement(s.ring))
  }

  // ---- The invariant ----

  /** 1 exactly while the producer's index has moved and its count has not. */
  function PPending<T>(s: State<T>): nat {
    if s.producer.PStored? then 1 else 0
  }

  function CPending<T>(s: State<T>): nat {
    if s.consumer.CStored? then 1 else 0
  }

  predicate ConsumerHasRead<T>(s: State<T>) {
    s.consumer.CRead? || s.consumer.CLoaded?
  }

  /** The count follows the history counters, lagging by the pending updates, and never leaves its range. */
  ghost predicate Lags<T>(s: State<T>) {
    var cap, w, r := |s.ring.store|, |s.written|, s.released;
    && cap > 0
    && r <= w
    && s.ring.count == w - r - PPending(s) + CPending(s)
    && 0 <= s.ring.count <= cap
    && (!s.producer.PIdle? ==> s.ring.count < cap)
    && (!s.consumer.CIdle? ==> s.ring.count > 0)
    && (s.producer.PStored? ==> w > 0 && s.written[w - 1] == s.producer.value)
    && (s.consumer.CStored? ==> r > 0 && s.consumer.seen == Clean(s.written[r - 1]))
  }

  /** The indices are the history counters taken round the ring. */
  ghost predicate Counters<T>(s: State<T>) {
    && Lags(s)
    && s.ring.writeIndex == Index(|s.written|, |s.ring.store|)
    && s.ring.readIndex == Index(s.released, |s.ring.store|)
  }

  predicate Registers<T>(s: State<T>) {
    && (s.producer.PSlot? || s.producer.PWriting? ==> s.producer.i == s.ring.writeIndex)
    && (s.producer.PLoaded? ==> s.producer.j == s.ring.writeIndex)
    && (s.consumer.CSlot? || s.consumer.CReading? ==> s.consumer.i == s.ring.readIndex)
    && (s.consumer.CLoaded? ==> s.consumer.j == s.ring.readIndex)
  }

  /** The ring cell of every unreleased history value holds that value, whole. */
  ghost predicate Cells<T>(s: State<T>)
    requires |s.ring.store| > 0
  {
    forall k: nat :: s.released <= k < |s.written| ==>
      s.ring.store[Index(k, |s.ring.store|)] == Whole(s.written[k])
  }

  ghost predicate InFlight<T>(s: State<T>)
    requires Counters(s)
  {
    && (s.producer.PWritten? || s.producer.PLoaded? ==>
          s.ring.store[s.ring.writeIndex] == Whole(s.producer.value))
    && (s.consumer.CReading? ==>
          s.released < |s.written| && s.consumer.first == Whole(s.written[s.released]))
    && (ConsumerHasRead(s) ==>
          s.released < |s.written| && s.consumer.seen == Clean(s.written[s.released]))
  }

  function Clean<T>(v: T): Seen<T> {
    Seen(Whole(v), Whole(v))
  }

  /** Everything read so far is the beginning of everything published, each value seen whole and unchanged. */
  ghost predicate History<T>(s: State<T>)
    requires Counters(s)
  {
    && |s.outputs| == s.released + (if ConsumerHasRead(s) then 1 else 0)
    && |s.outputs| <= |s.written|
    && forall k :: 0 <= k < |s.outputs| ==> s.outputs[k] == Clean(s.written[k])
  }

  ghost predicate Inv<T>(s: State<T>) {
    && Counters(s)
    && Registers(s)
    && Cells(s)
    && InFlight(s)
    && History(s)
  }

  lemma InvInBounds<T>(s: State<T>)
    requires Counters(s) && Registers(s)
    ensures InBounds(s)
  {
  }

  lemma InitInv<T>(store: seq<Slot<T>>)
    requires |store| > 0
    ensures Inv(Init(store))
  {
  }

  /** Writing the slot at the write index disturbs no unreleased cell. */
  lemma WriteKeepsCells<T>(s: State<T>, x: Slot<T>)
    requires Counters(s) && Cells(s)
    requires |s.written| - s.released < |s.ring.store|
    ensures var s' := s.(ring := s.ring.(store := s.ring.store[s.ring.writeIndex := x])); Cells(s')
    ensures s.released < |s.written| ==> s.ring.readIndex != s.ring.writeIndex
  {
    forall k: nat | s.released <= k < |s.written|
      ensures Index(k, |s.ring.store|) != s.ring.writeIndex
    {
      IndexDistinct(k, |s.written|, |s.ring.store|);
    }
  }

  lemma ProducerWrites<T>(s: State<T>, v: T)
    requires Inv(s) && InBounds(s)
    requires s.producer.PSlot? || s.producer.PWriting?
    ensures Inv(ProducerStep(s, v))
  {
    WriteKeepsCells(s, ProducerStep(s, v).ring.store[s.ring.writeIndex]);
  }

  lemma ProducerPublishes<T>(s: State<T>, v: T)
    requires Inv(s) && InBounds(s) && s.producer.PLoaded?
    ensures Inv(ProducerStep(s, v))
  {
    var s' := ProducerStep(s, v);
    assert Counters(s') && Registers(s');
    forall k: nat | s'.released <= k < |s'.written|
      ensures s'.ring.store[Index(k, |s'.ring.store|)] == Whole(s'.written[k])
    {
      if k < |s.written| {
        assert s.ring.store[Index(k, |s.ring.store|)] == Whole(s.written[k]);
      }
    }
  }

  lemma ProducerStepInv<T>(s: State<T>, v: T)
    requires Inv(s)
    ensures InBounds(s) && Inv(ProducerStep(s, v))
  {
    InvInBounds(s);
    if s.producer.PSlot? || s.producer.PWriting? {
      ProducerWrites(s, v);
    } else if s.producer.PLoaded? {
      ProducerPublishes(s, v);
    } else {
      var s' := ProducerStep(s, v);
      assert Lags(s');
      assert Counters(s') && Registers(s');
    }
  }

  lemma ConsumerReads<T>(s: State<T>)
    requires Inv(s) && InBounds(s)
    requires s.consumer.CSlot? || s.consumer.CReading?
    ensures Inv(ConsumerStep(s))
  {
    assert s.ring.store[Index(s.released, |s.ring.store|)] == Whole(s.written[s.released]);
  }

  lemma ConsumerReleases<T>(s: State<T>)
    requires Inv(s) && InBounds(s) && s.consumer.CLoaded?
    ensures Inv(ConsumerStep(s))
  {
    var s' := ConsumerStep(s);
    assert Counters(s') && Registers(s');
  }

  lemma ConsumerStepInv<T>(s: State<T>)
    requires Inv(s)
    ensures InBounds(s) && Inv(ConsumerStep(s))
  {
    InvInBounds(s);
    if s.consumer.CSlot? || s.consumer.CReading? {
      ConsumerReads(s);
    } else if s.consumer.CLoaded? {
      ConsumerReleases(s);
    } else {
      var s' := ConsumerStep(s);
      assert Lags(s');
      assert Counters(s') && Registers(s');
    }
  }
}
