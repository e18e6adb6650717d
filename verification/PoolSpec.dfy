/** The fixed-size memory pool of include/mem_pool.hpp as a value, and what holds over whole runs of it. */
module PoolSpec {
  import opened RingArithmetic
  import opened Wrappers

  type Address = int

  /**
   A pool: each slot's address, the object living in it (None while the slot is free), the next-free
   hint and the free counter, with every construction and destruction recorded in order.
   */
  datatype Pool<T> = Pool(
    addresses: seq<Address>,
    slots: seq<Option<T>>,
    next: nat,
    numFree: nat,
    constructed: seq<T>,
    destroyed: seq<T>)

  ghost predicate Distinct(addresses: seq<Address>) {
    forall i, j :: 0 <= i < j < |addresses| ==> addresses[i] != addresses[j]
  }

  function CountFree<T>(slots: seq<Option<T>>): nat {
    if slots == [] then 0 else (if slots[0].None? then 1 else 0) + CountFree(slots[1..])
  }

  /** One address per slot, all different. */
  ghost predicate Shape<T>(p: Pool<T>) {
    |p.slots| == |p.addresses| && Distinct(p.addresses)
  }

  /** The counter is exact, and while it is positive the hint names a free slot. */
  predicate Counted<T>(p: Pool<T>) {
    && p.numFree == CountFree(p.slots)
    && (p.slots != [] ==> p.next < |p.slots|)
    && (p.numFree > 0 ==> p.next < |p.slots| && p.slots[p.next].None?)
  }

  /** Every object constructed is either destroyed or alive in one slot. */
  ghost predicate Balanced<T>(p: Pool<T>) {
    multiset(p.constructed) == multiset(p.destroyed) + multiset(Live(p.slots))
  }

  ghost predicate Inv<T>(p: Pool<T>) {
    && Shape(p)
    && Counted(p)
    && Balanced(p)
  }

  ghost function Init<T>(addresses: seq<Address>): Pool<T> {
    Pool(addresses, seq(|addresses|, _ => None), 0, |addresses|, [], [])
  }

  /** The objects alive in the pool, in slot order. */
  function Live<T>(slots: seq<Option<T>>): seq<T> {
    if slots == [] then []
    else Alive(slots[0]) + Live(slots[1..])
  }

  /** The first free slot among the n slots starting at i, going round; the last one looked at if none is. */
  function Scan<T>(slots: seq<Option<T>>, i: nat, n: nat): (j: nat)
    requires i < |slots|
    ensures j < |slots|
    decreases n
  {
    if n == 0 || slots[i].None? then i else Scan(slots, Advance(i, |slots|), n - 1)
  }

  /** allocate: null when the counter is zero, otherwise construct in the slot the hint names. */
  function Allocate<T>(p: Pool<T>, v: T): (Pool<T>, Option<nat>)
    requires p.numFree > 0 ==> p.next < |p.slots|
  {
    if p.numFree == 0 then (p, None)
    else
      var slots := p.slots[p.next := Some(v)];
      var next := if p.numFree == 1 then p.next
                  else Scan(slots, Advance(p.next, |slots|), |slots| - 1);
      (p.(slots := slots, numFree := p.numFree - 1, next := next, constructed := p.constructed + [v]),
       Some(p.next))
  }

  /** The slot whose address matches, or the slot count. */
  function Locate(addresses: seq<Address>, a: Address): (i: nat)
    ensures i <= |addresses|
    ensures i < |addresses| ==> addresses[i] == a
    ensures forall k :: 0 <= k < i ==> addresses[k] != a
  {
    if addresses == [] || addresses[0] == a then 0 else 1 + Locate(addresses[1..], a)
  }

  /** deallocate: refuses null, foreign addresses and free slots. */
  function Deallocate<T>(p: Pool<T>, elem: Option<Address>): (Pool<T>, bool)
    requires |p.slots| == |p.addresses|
  {
    if elem.None? then (p, false)
    else
      var i := Locate(p.addresses, elem.value);
      if i == |p.slots| || p.slots[i].None? then (p, false)
      else
        (p.(slots := p.slots[i := None], numFree := p.numFree + 1, next := i,
            destroyed := p.destroyed + [p.slots[i].value]),
         true)
  }

  /** The destructor destroys whatever is still alive, in slot order. */
  function Destroy<T>(p: Pool<T>): Pool<T> {
    p.(destroyed := p.destroyed + Live(p.slots))
  }

  // ---- Counting ----

  lemma {:induction false} CountUpdate<T>(slots: seq<Option<T>>, i: nat, s: Option<T>)
    requires i < |slots|
    ensures CountFree(slots[i := s]) ==
      CountFree(slots) - (if slots[i].None? then 1 else 0) + (if s.None? then 1 else 0)
  {
    if i == 0 {
      assert slots[i := s][1..] == slots[1..];
    } else {
      assert slots[i := s][1..] == slots[1..][i - 1 := s];
      CountUpdate(slots[1..], i - 1, s);
    }
  }

  lemma {:induction false} CountZero<T>(slots: seq<Option<T>>)
    ensures CountFree(slots) == 0 <==> forall i :: 0 <= i < |slots| ==> slots[i].Some?
    ensures CountFree(slots) <= |slots|
  {
    if slots != [] {
      CountZero(slots[1..]);
      assert forall i :: 1 <= i < |slots| ==> slots[i] == slots[1..][i - 1];
    }
  }

  function Alive<T>(s: Option<T>): seq<T> {
    if s.Some? then [s.value] else []
  }

  lemma {:induction false} LiveSplit<T>(slots: seq<Option<T>>, i: nat)
    requires i < |slots|
    ensures Live(slots) == Live(slots[..i]) + Alive(slots[i]) + Live(slots[i + 1..])
  {
    if i > 0 {
      LiveSplit(slots[1..], i - 1);
      assert slots[1..][..i - 1] == slots[..i][1..];
      assert slots[1..][i..] == slots[i + 1..];
    }
  }

  /** Changing one slot changes the live objects by that slot only. */
  lemma LiveUpdate<T>(slots: seq<Option<T>>, i: nat, s: Option<T>)
    requires i < |slots|
    ensures multiset(Live(slots[i := s])) + multiset(Alive(slots[i]))
      == multiset(Live(slots)) + multiset(Alive(s))
  {
    LiveSplit(slots, i);
    LiveSplit(slots[i := s], i);
    assert slots[i := s][..i] == slots[..i] && slots[i := s][i + 1..] == slots[i + 1..];
  }

  // ---- Going round the slots ----

  /** The scan stops at the first free slot it meets. */
  lemma {:induction false} ScanFinds<T>(slots: seq<Option<T>>, i: nat, n: nat, k: nat)
    requires i < |slots| && k <= n < |slots|
    requires forall m :: 0 <= m < k ==> slots[Pos(i, m, |slots|)].Some?
    requires slots[Pos(i, k, |slots|)].None?
    ensures Scan(slots, i, n) == Pos(i, k, |slots|)
    decreases n
  {
    if k > 0 {
      var i' := Advance(i, |slots|);
      assert slots[Pos(i, 0, |slots|)].Some?;
      forall m | 0 <= m < k - 1
        ensures slots[Pos(i', m, |slots|)].Some?
      {
        assert Pos(i', m, |slots|) == Pos(i, m + 1, |slots|);
      }
      ScanFinds(slots, i', n - 1, k - 1);
    }
  }

  /** How far the scan goes when there is a free slot other than the start. */
  lemma ScanDistance<T>(slots: seq<Option<T>>, start: nat) returns (d: nat)
    requires start < |slots| && slots[start].Some? && CountFree(slots) > 0
    ensures 1 <= d < |slots|
    ensures forall m :: 0 <= m < d ==> slots[Pos(start, m, |slots|)].Some?
    ensures slots[Pos(start, d, |slots|)].None?
    ensures Scan(slots, Advance(start, |slots|), |slots| - 1) == Pos(start, d, |slots|)
  {
    var size := |slots|;
    d := 1;
    while d < size && slots[Pos(start, d, size)].Some?
      invariant 1 <= d <= size
      invariant forall m :: 0 <= m < d ==> slots[Pos(start, m, size)].Some?
    {
      d := d + 1;
    }
    if d == size {
      forall j | 0 <= j < size
        ensures slots[j].Some?
      {
        var m := if j >= start then j - start else j - start + size;
        assert Pos(start, m, size) == j;
      }
      CountZero(slots);
    }
    var i' := Advance(start, size);
    forall m | 0 <= m < d
      ensures Pos(i', m, size) == Pos(start, m + 1, size)
    {
    }
    ScanFinds(slots, i', size - 1, d - 1);
  }

  // ---- The invariant holds over every run ----

  lemma {:induction false} AllFree<T>(slots: seq<Option<T>>)
    requires forall i :: 0 <= i < |slots| ==> slots[i].None?
    ensures CountFree(slots) == |slots| && Live(slots) == []
  {
    if slots != [] {
      AllFree(slots[1..]);
    }
  }

  lemma InitInv<T>(addresses: seq<Address>)
    requires Distinct(addresses)
    ensures Inv(Init<T>(addresses))
  {
    AllFree(Init<T>(addresses).slots);
  }

  lemma AllocateBalanced<T>(p: Pool<T>, v: T)
    requires Balanced(p) && p.numFree > 0 && p.next < |p.slots| && p.slots[p.next].None?
    ensures Balanced(Allocate(p, v).0)
  {
    LiveUpdate(p.slots, p.next, Some(v));
    var live, live' := multiset(Live(p.slots)), multiset(Live(p.slots[p.next := Some(v)]));
    assert live' == live + multiset{v};
    assert multiset(p.constructed + [v]) == multiset(p.constructed) + multiset{v};
  }

  lemma AllocateCounted<T>(p: Pool<T>, v: T)
    requires Counted(p)
    ensures Counted(Allocate(p, v).0)
  {
    if p.numFree > 0 {
      CountUpdate(p.slots, p.next, Some(v));
      if p.numFree > 1 {
        var d := ScanDistance(p.slots[p.next := Some(v)], p.next);
      }
    }
  }

  lemma AllocateKeepsInv<T>(p: Pool<T>, v: T)
    requires Inv(p)
    ensures Inv(Allocate(p, v).0)
  {
    AllocateCounted(p, v);
    if p.numFree > 0 {
      AllocateBalanced(p, v);
    }
  }

  lemma FreeBalanced<T>(p: Pool<T>, i: nat)
    requires Balanced(p) && i < |p.slots| && p.slots[i].Some?
    ensures Balanced(p.(slots := p.slots[i := None], destroyed := p.destroyed + [p.slots[i].value]))
  {
    var v := p.slots[i].value;
    LiveUpdate(p.slots, i, None);
    var live, live' := multiset(Live(p.slots)), multiset(Live(p.slots[i := None]));
    assert live == live' + multiset{v};
    assert multiset(p.destroyed + [v]) == multiset(p.destroyed) + multiset{v};
  }

  lemma FreeSlot<T>(p: Pool<T>, i: nat)
    requires Inv(p) && i < |p.slots| && p.slots[i].Some?
    ensures Inv(p.(slots := p.slots[i := None], numFree := p.numFree + 1, next := i,
                   destroyed := p.destroyed + [p.slots[i].value]))
  {
    CountUpdate(p.slots, i, None);
    FreeBalanced(p, i);
  }

  lemma DeallocateKeepsInv<T>(p: Pool<T>, elem: Option<Address>)
    requires Inv(p)
    ensures Inv(Deallocate(p, elem).0)
  {
    if Deallocate(p, elem).1 {
      FreeSlot(p, Locate(p.addresses, elem.value));
    }
  }

  // ---- Refinement of a plain map of live objects ----

  ghost function ObjectsAt<T>(addresses: seq<Address>, slots: seq<Option<T>>): map<Address, T>
    requires |slots| == |addresses|
  {
    if slots == [] then map[]
    else
      var rest := ObjectsAt(addresses[1..], slots[1..]);
      if slots[0].Some? then rest[addresses[0] := slots[0].value] else rest
  }

  /** The pool as its clients see it: live objects by address. */
  ghost function Objects<T>(p: Pool<T>): map<Address, T>
    requires Shape(p)
  {
    ObjectsAt(p.addresses, p.slots)
  }

  lemma {:induction false} NoObject<T>(addresses: seq<Address>, slots: seq<Option<T>>, a: Address)
    requires |slots| == |addresses| && a !in addresses
    ensures a !in ObjectsAt(addresses, slots)
  {
    if slots != [] {
      NoObject(addresses[1..], slots[1..], a);
    }
  }

  lemma {:induction false} OwnObject<T>(addresses: seq<Address>, slots: seq<Option<T>>, i: nat)
    requires |slots| == |addresses| && Distinct(addresses) && i < |slots|
    ensures addresses[i] in ObjectsAt(addresses, slots) <==> slots[i].Some?
    ensures slots[i].Some? ==> ObjectsAt(addresses, slots)[addresses[i]] == slots[i].value
  {
    if i == 0 {
      NoObject(addresses[1..], slots[1..], addresses[0]);
    } else {
      OwnObject(addresses[1..], slots[1..], i - 1);
    }
  }

  lemma {:induction false} ObjectsUpdate<T>(addresses: seq<Address>, slots: seq<Option<T>>, i: nat, s: Option<T>)
    requires |slots| == |addresses| && Distinct(addresses) && i < |slots|
    ensures ObjectsAt(addresses, slots[i := s]) ==
      if s.Some? then ObjectsAt(addresses, slots)[addresses[i] := s.value]
      else ObjectsAt(addresses, slots) - {addresses[i]}
  {
    if i == 0 {
      NoObject(addresses[1..], slots[1..], addresses[0]);
      assert slots[i := s][1..] == slots[1..];
    } else {
      assert slots[i := s][1..] == slots[1..][i - 1 := s];
      assert addresses[0] != addresses[i];
      ObjectsUpdate(addresses[1..], slots[1..], i - 1, s);
    }
  }

  /** allocate adds one object at an address that was not live; it fails exactly when every address is live. */
  lemma AllocateRefines<T>(p: Pool<T>, v: T)
    requires Inv(p)
    ensures var (p', r) := Allocate(p, v);
      && Shape(p') && p'.addresses == p.addresses && p'.destroyed == p.destroyed
      && p'.constructed == p.constructed + (if r.Some? then [v] else [])
      && (r.None? ==> p' == p && forall i :: 0 <= i < |p.addresses| ==> p.addresses[i] in Objects(p))
      && (r.Some? ==>
            && r.value < |p.addresses| && p.addresses[r.value] !in Objects(p)
            && Objects(p') == Objects(p)[p.addresses[r.value] := v])
  {
    CountZero(p.slots);
    if p.numFree == 0 {
      forall i | 0 <= i < |p.addresses|
        ensures p.addresses[i] in Objects(p)
      {
        OwnObject(p.addresses, p.slots, i);
      }
    } else {
      OwnObject(p.addresses, p.slots, p.next);
      ObjectsUpdate(p.addresses, p.slots, p.next, Some(v));
    }
  }

  /** deallocate succeeds exactly on the address of a live object; it destroys that object and nothing else. */
  lemma DeallocateRefines<T>(p: Pool<T>, elem: Option<Address>)
    requires Shape(p)
    ensures var (p', ok) := Deallocate(p, elem);
      && Shape(p') && p'.addresses == p.addresses && p'.constructed == p.constructed
      && (ok <==> elem.Some? && elem.value in Objects(p))
      && (!ok ==> p' == p)
      && (ok ==>
            && Objects(p') == Objects(p) - {elem.value}
            && p'.destroyed == p.destroyed + [Objects(p)[elem.value]])
  {
    if elem.Some? {
      var i := Locate(p.addresses, elem.value);
      if i == |p.slots| {
        NoObject(p.addresses, p.slots, elem.value);
      } else {
        OwnObject(p.addresses, p.slots, i);
        ObjectsUpdate(p.addresses, p.slots, i, None);
      }
    }
  }

  /** A slot that was just released is the next one handed out. */
  lemma ReleasedSlotIsReused<T>(p: Pool<T>, elem: Option<Address>, v: T)
    requires Inv(p) && Deallocate(p, elem).1
    ensures var p' := Deallocate(p, elem).0; var r := Allocate(p', v).1;
      r.Some? && r.value < |p.addresses| && p.addresses[r.value] == elem.value
  {
    DeallocateKeepsInv(p, elem);
  }

  // ---- Runs ----

  datatype Op<T> = Alloc(v: T) | Dealloc(elem: Option<Address>)

  ghost function Step<T>(p: Pool<T>, op: Op<T>): (p': Pool<T>)
    requires Inv(p)
    ensures Inv(p') && p'.addresses == p.addresses
  {
    match op
    case Alloc(v) => AllocateKeepsInv(p, v); Allocate(p, v).0
    case Dealloc(elem) => DeallocateKeepsInv(p, elem); Deallocate(p, elem).0
  }

  ghost function Run<T>(p: Pool<T>, ops: seq<Op<T>>): (p': Pool<T>)
    requires Inv(p)
    ensures Inv(p')
    decreases |ops|
  {
    if ops == [] then p else Run(Step(p, ops[0]), ops[1..])
  }

  /**
   Over every run of allocations and deallocations that ends with the destruction of the pool, the objects
   destroyed are exactly the objects constructed, each as often as it was constructed.
   */
  lemma ConstructedOnceDestroyedOnce<T>(addresses: seq<Address>, ops: seq<Op<T>>)
    requires Distinct(addresses)
    ensures Inv(Init<T>(addresses))
    ensures var p := Run(Init<T>(addresses), ops);
      multiset(Destroy(p).destroyed) == multiset(p.constructed)
  {
    InitInv<T>(addresses);
  }

  // ---- Allocation order ----

  /** The free ones among n slots from i, in the order met. */
  function FreeFrom<T>(slots: seq<Option<T>>, i: nat, n: nat): seq<nat>
    requires i < |slots|
    decreases n
  {
    if n == 0 then []
    else (if slots[i].None? then [i] else []) + FreeFrom(slots, Advance(i, |slots|), n - 1)
  }

  lemma {:induction false} SkipOccupied<T>(slots: seq<Option<T>>, i: nat, d: nat, n: nat)
    requires i < |slots| && d <= n && d <= |slots|
    requires forall m :: 0 <= m < d ==> slots[Pos(i, m, |slots|)].Some?
    ensures FreeFrom(slots, i, n) == FreeFrom(slots, Pos(i, d, |slots|), n - d)
    decreases d
  {
    if d > 0 {
      var i' := Advance(i, |slots|);
      assert slots[Pos(i, 0, |slots|)].Some?;
      forall m | 0 <= m < d - 1
        ensures slots[Pos(i', m, |slots|)].Some?
      {
        assert Pos(i', m, |slots|) == Pos(i, m + 1, |slots|);
      }
      SkipOccupied(slots, i', d - 1, n - 1);
    }
  }

  lemma {:induction false} DropOccupied<T>(slots: seq<Option<T>>, i: nat, n: nat, d: nat)
    requires i < |slots| && n + d <= |slots|
    requires forall m :: n <= m < n + d ==> slots[Pos(i, m, |slots|)].Some?
    ensures FreeFrom(slots, i, n + d) == FreeFrom(slots, i, n)
    decreases n
  {
    if n == 0 {
      SkipOccupied(slots, i, d, d);
    } else {
      var i' := Advance(i, |slots|);
      forall m | n - 1 <= m < n - 1 + d
        ensures slots[Pos(i', m, |slots|)].Some?
      {
        assert Pos(i', m, |slots|) == Pos(i, m + 1, |slots|);
      }
      DropOccupied(slots, i', n - 1, d);
    }
  }

  lemma {:induction false} FreeFromFrame<T>(slots: seq<Option<T>>, slots': seq<Option<T>>, i: nat, n: nat)
    requires i < |slots| == |slots'| && n <= |slots|
    requires forall m :: 0 <= m < n ==> slots[Pos(i, m, |slots|)] == slots'[Pos(i, m, |slots|)]
    ensures FreeFrom(slots, i, n) == FreeFrom(slots', i, n)
    decreases n
  {
    if n > 0 {
      var i' := Advance(i, |slots|);
      assert slots[Pos(i, 0, |slots|)] == slots'[Pos(i, 0, |slots|)];
      forall m | 0 <= m < n - 1
        ensures slots[Pos(i', m, |slots|)] == slots'[Pos(i', m, |slots|)]
      {
        assert Pos(i', m, |slots|) == Pos(i, m + 1, |slots|);
      }
      FreeFromFrame(slots, slots', i', n - 1);
    }
  }

  /** After the slot at i is taken, a turn from i lists the same slots but i. */
  lemma TakeHead<T>(slots: seq<Option<T>>, i: nat, v: T)
    requires i < |slots| && slots[i].None?
    ensures var i' := Advance(i, |slots|);
      FreeFrom(slots, i, |slots|) == [i] + FreeFrom(slots[i := Some(v)], i', |slots| - 1)
  {
    var size, i' := |slots|, Advance(i, |slots|);
    forall m | 0 <= m < size - 1
      ensures Pos(i', m, size) != i
    {
      PosAdvance(i, m, size);
    }
    FreeFromFrame(slots, slots[i := Some(v)], i', size - 1);
  }

  lemma TurnSkips<T>(slots: seq<Option<T>>, i: nat, d: nat)
    requires i < |slots| && 1 <= d < |slots|
    requires forall m :: 0 <= m < d ==> slots[Pos(i, m, |slots|)].Some?
    ensures var size := |slots|;
      FreeFrom(slots, Advance(i, size), size - 1) == FreeFrom(slots, Pos(i, d, size), size - d)
  {
    var size, i' := |slots|, Advance(i, |slots|);
    forall m | 0 <= m < d - 1
      ensures slots[Pos(i', m, size)].Some?
    {
      assert Pos(i', m, size) == Pos(i, m + 1, size);
    }
    SkipOccupied(slots, i', d - 1, size - 1);
    assert Pos(i', d - 1, size) == Pos(i, d, size);
  }

  /** A turn from i may as well start at the first free slot, d places on. */
  lemma TurnFrom<T>(slots: seq<Option<T>>, i: nat, d: nat)
    requires i < |slots| && 1 <= d < |slots|
    requires forall m :: 0 <= m < d ==> slots[Pos(i, m, |slots|)].Some?
    ensures var size := |slots|;
      FreeFrom(slots, Advance(i, size), size - 1) == FreeFrom(slots, Pos(i, d, size), size)
  {
    var size, j := |slots|, Pos(i, d, |slots|);
    TurnSkips(slots, i, d);
    forall m | size - d <= m < size
      ensures slots[Pos(j, m, size)].Some?
    {
      assert Pos(j, m, size) == Pos(i, m - (size - d), size);
    }
    DropOccupied(slots, j, size - d, d);
  }

  lemma NoneLeft<T>(slots: seq<Option<T>>, i: nat)
    requires i < |slots| && CountFree(slots) == 0
    ensures FreeFrom(slots, i, |slots|) == []
  {
    CountZero(slots);
    SkipOccupied(slots, i, |slots|, |slots|);
  }

  /** The slots returned by successive allocations. */
  ghost function AllocateAll<T>(p: Pool<T>, vs: seq<T>): (r: (Pool<T>, seq<Option<nat>>))
    requires Inv(p)
    ensures Inv(r.0)
    decreases |vs|
  {
    if vs == [] then (p, [])
    else
      AllocateKeepsInv(p, vs[0]);
      var (p', slot) := Allocate(p, vs[0]);
      var (p'', slots) := AllocateAll(p', vs[1..]);
      (p'', [slot] + slots)
  }

  ghost function Somes(ns: seq<nat>): seq<Option<nat>> {
    seq(|ns|, i requires 0 <= i < |ns| => Some(ns[i]))
  }

  lemma SomesCons(n: nat, ns: seq<nat>)
    ensures Somes([n] + ns) == [Some(n)] + Somes(ns)
  {
  }

  /**
   From every reachable state with k free slots, k allocations return exactly the free slots in cyclic
   order from the hint, and the next one fails.
   */
  lemma {:induction false} AllocationOrder<T>(p: Pool<T>, vs: seq<T>, extra: T)
    requires Inv(p) && |vs| == p.numFree && p.slots != []
    ensures var (p', slots) := AllocateAll(p, vs);
      && slots == Somes(FreeFrom(p.slots, p.next, |p.slots|))
      && Allocate(p', extra) == (p', None)
    decreases |vs|
  {
    if vs == [] {
      NoneLeft(p.slots, p.next);
    } else {
      AllocateKeepsInv(p, vs[0]);
      var p' := Allocate(p, vs[0]).0;
      AllocationOrder(p', vs[1..], extra);
      var rest := FreeFrom(p'.slots, p'.next, |p.slots|);
      HeadOfOrder(p, vs[0]);
      SomesCons(p.next, rest);
    }
  }

  /** The slots 0, 1, ... in order. */
  function Upto(n: nat): (r: seq<nat>)
    ensures |r| == n && forall k :: 0 <= k < n ==> r[k] == k
  {
    if n == 0 then [] else Upto(n - 1) + [n - 1]
  }

  lemma {:induction false} AllFreeFrom<T>(slots: seq<Option<T>>, i: nat)
    requires i < |slots| && forall k :: 0 <= k < |slots| ==> slots[k].None?
    ensures var r := FreeFrom(slots, i, |slots| - i); |r| == |slots| - i && forall k :: 0 <= k < |r| ==> r[k] == i + k
    decreases |slots| - i
  {
    if i + 1 < |slots| {
      AllFreeFrom(slots, i + 1);
    } else {
      assert FreeFrom(slots, Advance(i, |slots|), 0) == [];
    }
  }

  lemma AllFreeInOrder<T>(slots: seq<Option<T>>)
    requires slots != [] && forall k :: 0 <= k < |slots| ==> slots[k].None?
    ensures FreeFrom(slots, 0, |slots|) == Upto(|slots|)
  {
    AllFreeFrom(slots, 0);
  }

  /** A new pool holds nothing. */
  lemma NewPoolIsEmpty<T>(addresses: seq<Address>)
    requires Distinct(addresses)
    ensures var p := Init<T>(addresses);
      Inv(p) && Objects(p) == map[] && p.constructed == p.destroyed == []
  {
    InitInv<T>(addresses);
    NoObjects(addresses, Init<T>(addresses).slots);
  }

  /** The first allocations of a new pool use the slots from the first to the last, and the next one fails. */
  lemma NewPoolOrder<T>(addresses: seq<Address>, vs: seq<T>, extra: T)
    requires Distinct(addresses) && |vs| == |addresses|
    ensures Inv(Init<T>(addresses))
    ensures var (p', slots) := AllocateAll(Init<T>(addresses), vs);
      slots == Somes(Upto(|addresses|)) && Allocate(p', extra) == (p', None)
  {
    InitInv<T>(addresses);
    if addresses != [] {
      AllocationOrder(Init<T>(addresses), vs, extra);
      AllFreeInOrder(Init<T>(addresses).slots);
    }
  }

  lemma {:induction false} NoObjects<T>(addresses: seq<Address>, slots: seq<Option<T>>)
    requires |slots| == |addresses| && forall k :: 0 <= k < |slots| ==> slots[k].None?
    ensures ObjectsAt(addresses, slots) == map[]
  {
    if slots != [] {
      NoObjects(addresses[1..], slots[1..]);
    }
  }

  lemma NextInOrder<T>(slots: seq<Option<T>>, i: nat)
    requires i < |slots| && slots[i].Some? && CountFree(slots) > 0
    ensures var i', size := Advance(i, |slots|), |slots|;
      FreeFrom(slots, i', size - 1) == FreeFrom(slots, Scan(slots, i', size - 1), size)
  {
    var d := ScanDistance(slots, i);
    TurnFrom(slots, i, d);
  }

  lemma LastInOrder<T>(slots: seq<Option<T>>, i: nat)
    requires i < |slots| && CountFree(slots) == 0
    ensures var i', size := Advance(i, |slots|), |slots|;
      FreeFrom(slots, i', size - 1) == FreeFrom(slots, i, size) == []
  {
    NoneLeft(slots, i);
  }

  /** One allocation takes the head of the cyclic order and leaves the rest. */
  lemma HeadOfOrder<T>(p: Pool<T>, v: T)
    requires Counted(p) && p.numFree > 0
    ensures var p' := Allocate(p, v).0;
      && p'.next < |p'.slots| == |p.slots|
      && FreeFrom(p.slots, p.next, |p.slots|) == [p.next] + FreeFrom(p'.slots, p'.next, |p.slots|)
  {
    CountUpdate(p.slots, p.next, Some(v));
    TakeHead(p.slots, p.next, v);
    if p.numFree > 1 {
      NextInOrder(p.slots[p.next := Some(v)], p.next);
    } else {
      LastInOrder(p.slots[p.next := Some(v)], p.next);
    }
  }

  /** The cyclic order lists every free slot, only free slots, and none twice. */
  lemma {:induction false} FreeFromIsExact<T>(slots: seq<Option<T>>, i: nat, n: nat)
    requires i < |slots| && n <= |slots|
    ensures var r := FreeFrom(slots, i, n);
      && (forall m :: 0 <= m < n && slots[Pos(i, m, |slots|)].None? ==> Pos(i, m, |slots|) in r)
      && (forall k :: k in r ==> k < |slots| && slots[k].None? && exists m :: 0 <= m < n && Pos(i, m, |slots|) == k)
      && (forall a, b :: 0 <= a < b < |r| ==> r[a] != r[b])
    decreases n
  {
    if n > 0 {
      var size, i' := |slots|, Advance(i, |slots|);
      FreeFromIsExact(slots, i', n - 1);
      forall m | 0 <= m < n - 1
        ensures Pos(i', m, size) == Pos(i, m + 1, size) && Pos(i', m, size) != i
      {
        PosAdvance(i, m, size);
      }
      assert Pos(i, 0, size) == i;
      var r, r' := FreeFrom(slots, i, n), FreeFrom(slots, i', n - 1);
      forall m | 0 <= m < n && slots[Pos(i, m, size)].None?
        ensures Pos(i, m, size) in r
      {
        if m > 0 {
          assert Pos(i', m - 1, size) in r';
        }
      }
      forall k | k in r
        ensures k < size && slots[k].None? && exists m :: 0 <= m < n && Pos(i, m, size) == k
      {
        if k in r' {
          var m :| 0 <= m < n - 1 && Pos(i', m, size) == k;
          assert Pos(i, m + 1, size) == k;
        }
      }
    }
  }
}
