/** The pool object of include/mem_pool.hpp, updated in place and proved against PoolSpec. */
module MemPool {
  import opened RingArithmetic
  import opened Wrappers
  import opened PoolSpec

  function SlotOf<T>(free: bool, v: T): Option<T> {
    if free then None else Some(v)
  }

  /** What the flags and the storage say about each slot. */
  ghost function SlotsOf<T>(free: seq<bool>, storage: seq<T>): (slots: seq<Option<T>>)
    requires |free| == |storage|
    ensures |slots| == |free|
    ensures forall i :: 0 <= i < |slots| ==> slots[i] == SlotOf(free[i], storage[i])
  {
    seq(|free|, i requires 0 <= i < |free| => SlotOf(free[i], storage[i]))
  }

  lemma SlotsUpdate<T>(free: seq<bool>, storage: seq<T>, i: nat, b: bool, v: T)
    requires i < |free| == |storage|
    ensures SlotsOf(free[i := b], storage[i := v]) == SlotsOf(free, storage)[i := SlotOf(b, v)]
  {
  }

  class MemPool<T(0)> {
    var isFree: array<bool>
    var storage: array<T>
    const address: seq<Address>
    var nextFreeIndex: nat
    var numFree: nat
    var constructed: seq<T>
    var destroyed: seq<T>

    ghost predicate Shaped()
      reads this
    {
      && isFree.Length == storage.Length == |address|
      && isFree as object != storage as object
    }

    ghost function State(): Pool<T>
      requires Shaped()
      reads this, isFree, storage
    {
      Pool(address, SlotsOf(isFree[..], storage[..]), nextFreeIndex, numFree, constructed, destroyed)
    }

    ghost predicate Valid()
      reads this, isFree, storage
    {
      Shaped() && Inv(State())
    }

    constructor (address: seq<Address>)
      requires Distinct(address)
      ensures Valid() && State() == Init(address)
      ensures fresh(isFree) && fresh(storage)
    {
      this.address := address;
      isFree := new bool[|address|](_ => true);
      storage := new T[|address|];
      nextFreeIndex, numFree := 0, |address|;
      constructed, destroyed := [], [];
      new;
      InitInv<T>(address);
      assert State().slots == Init<T>(address).slots;
    }

    /**
     Starting after the current slot, find the next free slot.  The closing assertion of the source is
     unreachable, and the search looks at fewer slots than the pool has.
     */
    method UpdateNextFreeIndex() returns (ghost looked: nat)
      requires Shaped() && nextFreeIndex < isFree.Length && !isFree[nextFreeIndex]
      requires CountFree(State().slots) > 0
      modifies this`nextFreeIndex
      ensures Shaped()
      ensures 1 <= looked < isFree.Length
      ensures State() == old(State()).(next :=
        Scan(old(State()).slots, Advance(old(nextFreeIndex), isFree.Length), isFree.Length - 1))
    {
      ghost var slots := State().slots;
      var start := nextFreeIndex;
      ghost var d := ScanDistance(slots, start);
      looked := 0;
      while true
        invariant 0 <= looked < d && nextFreeIndex == Pos(start, looked, isFree.Length)
        invariant State() == old(State()).(next := nextFreeIndex)
        decreases d - looked
      {
        nextFreeIndex := nextFreeIndex + 1;
        if nextFreeIndex == isFree.Length {
          nextFreeIndex := 0;
        }
        looked := looked + 1;
        assert nextFreeIndex == Pos(start, looked, isFree.Length);
        assert slots[nextFreeIndex].None? <==> isFree[nextFreeIndex];
        if isFree[nextFreeIndex] {
          return;
        }
        if nextFreeIndex == start {
          assert false;
          break;
        }
      }
    }

    /** Constructs v in slot i. */
    method Construct(i: nat, v: T)
      requires Shaped() && i < isFree.Length && numFree > 0
      modifies this`numFree, this`constructed, isFree, storage
      ensures Shaped()
      ensures State() == old(State()).(slots := old(State()).slots[i := Some(v)],
                                       numFree := old(numFree) - 1,
                                       constructed := old(constructed) + [v])
    {
      ghost var free, values := isFree[..], storage[..];
      storage[i] := v;
      isFree[i] := false;
      constructed := constructed + [v];
      numFree := numFree - 1;
      assert isFree[..] == free[i := false] && storage[..] == values[i := v];
      SlotsUpdate(free, values, i, false, v);
    }

    /** Destroys the object in slot i and makes the slot the next one to use. */
    method Release(i: nat)
      requires Shaped() && i < isFree.Length
      modifies this`numFree, this`destroyed, this`nextFreeIndex, isFree
      ensures Shaped()
      ensures State() == old(State()).(slots := old(State()).slots[i := None],
                                       numFree := old(numFree) + 1,
                                       next := i,
                                       destroyed := old(destroyed) + [storage[i]])
    {
      ghost var free := isFree[..];
      destroyed := destroyed + [storage[i]];
      isFree[i] := true;
      numFree := numFree + 1;
      nextFreeIndex := i;
      assert isFree[..] == free[i := true] && storage[..] == storage[..][i := storage[i]];
      SlotsUpdate(free, storage[..], i, true, storage[i]);
    }

    /** Constructs v in a free slot and returns the slot's address, or null when every slot is taken. */
    method Allocate(v: T) returns (r: Option<Address>)
      requires Valid()
      modifies this, isFree, storage
      ensures Valid() && isFree == old(isFree) && storage == old(storage)
      ensures State() == PoolSpec.Allocate(old(State()), v).0
      ensures var slot := PoolSpec.Allocate(old(State()), v).1;
        r == if slot.None? then None else Some(address[slot.value])
    {
      ghost var p := State();
      AllocateKeepsInv(p, v);
      if numFree == 0 {
        return None;
      }
      var a := TakeNext(v);
      r := Some(a);
    }

    /** The body of allocate once a free slot is known to exist. */
    method TakeNext(v: T) returns (a: Address)
      requires Shaped() && Counted(State()) && numFree > 0
      modifies this, isFree, storage
      ensures Shaped() && isFree == old(isFree) && storage == old(storage)
      ensures State() == PoolSpec.Allocate(old(State()), v).0
      ensures a == address[old(nextFreeIndex)]
    {
      ghost var p := State();
      var i := nextFreeIndex;
      assert isFree[i] by {
        assert p.slots[i] == SlotOf(isFree[i], storage[i]);
      }
      Construct(i, v);
      CountUpdate(p.slots, i, Some(v));
      if numFree > 0 {
        assert !isFree[i] by {
          assert State().slots[i] == SlotOf(isFree[i], storage[i]);
        }
        ghost var looked := UpdateNextFreeIndex();
      }
      a := address[i];
    }

    /** The slot with this address, or the number of slots. */
    method Find(elem: Address) returns (elemIndex: nat)
      requires Shaped()
      ensures elemIndex == Locate(address, elem)
    {
      elemIndex := isFree.Length;
      for i := 0 to isFree.Length
        invariant elemIndex == isFree.Length
        invariant forall k :: 0 <= k < i ==> address[k] != elem
      {
        if address[i] == elem {
          elemIndex := i;
          break;
        }
      }
    }

    /** The body of deallocate for a pointer that is not null. */
    method ReleaseAt(elem: Address) returns (ok: bool)
      requires Shaped()
      modifies this, isFree
      ensures Shaped() && isFree == old(isFree) && storage == old(storage)
      ensures State() == PoolSpec.Deallocate(old(State()), Some(elem)).0
      ensures ok == PoolSpec.Deallocate(old(State()), Some(elem)).1
    {
      ghost var p := State();
      var elemIndex := Find(elem);
      assert elemIndex < |address| ==> p.slots[elemIndex] == SlotOf(isFree[elemIndex], storage[elemIndex]);
      if elemIndex == isFree.Length || isFree[elemIndex] {
        return false;
      }
      Release(elemIndex);
      ok := true;
    }

    /** Destroys the object at the address and frees its slot; refuses null, foreign and already freed addresses. */
    method Deallocate(elem: Option<Address>) returns (ok: bool)
      requires Valid()
      modifies this, isFree
      ensures Valid() && isFree == old(isFree) && storage == old(storage)
      ensures State() == PoolSpec.Deallocate(old(State()), elem).0
      ensures ok == PoolSpec.Deallocate(old(State()), elem).1
    {
      DeallocateKeepsInv(State(), elem);
      if elem.None? {
        return false;
      }
      ok := ReleaseAt(elem.value);
    }

    /** The destructor: every object still alive is destroyed, in slot order. */
    method Destroy()
      requires Valid()
      modifies this`destroyed
      ensures destroyed == PoolSpec.Destroy(old(State())).destroyed == old(destroyed) + Live(State().slots)
      ensures multiset(destroyed) == multiset(constructed)
    {
      ghost var slots := State().slots;
      for i := 0 to isFree.Length
        invariant destroyed == old(destroyed) + Live(slots[..i])
      {
        LiveSnoc(slots, i);
        if !isFree[i] {
          destroyed := destroyed + [storage[i]];
        }
      }
      assert slots[..isFree.Length] == slots;
    }
  }

  lemma {:induction false} LiveSnoc<T>(slots: seq<Option<T>>, i: nat)
    requires i < |slots|
    ensures Live(slots[..i + 1]) == Live(slots[..i]) + (if slots[i].Some? then [slots[i].value] else [])
  {
    LiveSplit(slots[..i + 1], i);
    assert slots[..i + 1][..i] == slots[..i];
  }
}
