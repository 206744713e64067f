/**
 * Reference counting: RefCountable and CRefCount keep an unsigned count;
 * CSmartPtr shares a CRefCount holder between pointers.  A pointer built
 * from a const object (or a default one) never touches counts; every
 * other pointer owns one unit of its holder's count, and the holder is
 * deleted when the last unit is released.
 */
module RefCounting {
  import opened CText

  const UintLimit: nat := 0x1_0000_0000

  /** `unsigned` */
  type Uint32 = n: nat | n < 0x1_0000_0000

  /** IncRef(delta): unsigned addition, which wraps. */
  function Incremented(count: Uint32, delta: Uint32): Uint32 {
    (count + delta) % UintLimit
  }

  /** DecRef(delta): the new count and whether the count has reached zero. */
  function Released(count: Uint32, delta: Uint32): (Uint32, bool) {
    if count > delta then (count - delta, false) else (0, true)
  }

  /** DecRef reports zero exactly when the count does not exceed delta, and then the count is 0; it never wraps below zero. */
  lemma {:induction false} ReleasedReportsZero(count: Uint32, delta: Uint32)
    ensures Released(count, delta).1 <==> count <= delta
    ensures Released(count, delta).1 <==> Released(count, delta).0 == 0
    ensures Released(count, delta).0 <= count
  {
  }

  /** A DecRef undoes an IncRef of the same delta on a live count that does not wrap. */
  lemma {:induction false} IncrementThenRelease(count: Uint32, delta: Uint32)
    requires count > 0 && count + delta < UintLimit
    ensures Released(Incremented(count, delta), delta) == (count, false)
  {
  }

  /** IncRef wraps: the largest count plus one is zero. */
  lemma {:induction false} IncrementWraps()
    ensures Incremented(UintLimit - 1, 1) == 0
  {
  }

  // ---------------------------------------------------------------------
  // RefCountable

  /** The superclass of reference-countable objects: the count starts at 0. */
  class RefCountable {
    var refCount: Uint32

    constructor ()
      ensures refCount == 0
    {
      refCount := 0;
    }

    method IncRef(delta: Uint32)
      modifies this
      ensures refCount == Incremented(old(refCount), delta)
    {
      refCount := (refCount + delta) % UintLimit;
    }

    method DecRef(delta: Uint32) returns (zero: bool)
      modifies this
      ensures (refCount, zero) == Released(old(refCount), delta)
    {
      if refCount > delta {
        refCount := refCount - delta;
        return false;
      }
      refCount := 0;
      return true;
    }

    function Count(): Uint32
      reads this
    {
      refCount
    }
  }

  // ---------------------------------------------------------------------
  // CRefCount

  /** The holder a CSmartPtr shares: the data (None for NULL) and a count that starts at 1. */
  class RefCount<T> {
    const refData: Option<T>
    var refCount: Uint32
    /** Set when the holder is deleted. */
    var deleted: bool

    constructor (data: Option<T>)
      ensures refData == data && refCount == 1 && !deleted
    {
      refData := data;
      refCount := 1;
      deleted := false;
    }

    method IncRef(delta: Uint32)
      modifies this
      ensures refCount == Incremented(old(refCount), delta) && deleted == old(deleted)
    {
      refCount := (refCount + delta) % UintLimit;
    }

    method DecRef(delta: Uint32) returns (zero: bool)
      modifies this
      ensures (refCount, zero) == Released(old(refCount), delta) && deleted == old(deleted)
    {
      if refCount > delta {
        refCount := refCount - delta;
        return false;
      }
      refCount := 0;
      return true;
    }
  }

  // ---------------------------------------------------------------------
  // CSmartPtr

  class SmartPtr<T> {
    var rcObject: RefCount?<T>
    var isConst: bool

    /** CSmartPtr(): a NULL pointer, which counts as const. */
    constructor Null()
      ensures rcObject == null && isConst
    {
      rcObject := null;
      isConst := true;
    }

    /** CSmartPtr(const T *obj): a new holder that this pointer never counts. */
    constructor OfConst(obj: Option<T>)
      ensures fresh(rcObject) && rcObject.refData == obj && rcObject.refCount == 1
      ensures !rcObject.deleted && isConst
    {
      rcObject := new RefCount(obj);
      isConst := true;
    }

    /** CSmartPtr(T *obj, is_const): a new holder; the pointer is const only when asked and obj is not NULL. */
    constructor Of(obj: Option<T>, asConst: bool)
      ensures fresh(rcObject) && rcObject.refData == obj && rcObject.refCount == 1
      ensures !rcObject.deleted && isConst == (asConst && obj.Some?)
    {
      rcObject := new RefCount(obj);
      isConst := asConst && obj.Some?;
    }

    /** CSmartPtr(const CSmartPtr &val): Reset, then CopyAnother. */
    constructor Copy(val: SmartPtr<T>)
      modifies val.rcObject
      ensures rcObject == val.rcObject && isConst == val.isConst
      ensures !isConst && rcObject != null ==>
        rcObject.refCount == Incremented(old(val.rcObject.refCount), 1) &&
        rcObject.deleted == old(val.rcObject.deleted)
    {
      rcObject := val.rcObject;
      isConst := val.isConst;
      new;
      if !isConst && rcObject != null {
        rcObject.IncRef(1);
      }
    }

    /** Reset: back to a NULL const pointer, without releasing anything. */
    method Reset()
      modifies this
      ensures rcObject == null && isConst
    {
      rcObject := null;
      isConst := true;
    }

    /**
     * The destructor, and the first half of CopyAnother: a counted
     * pointer gives back its unit, and deletes the holder when that was
     * the last one.
     */
    method Release()
      modifies rcObject
      ensures !isConst && rcObject != null ==>
        rcObject.refCount == Released(old(rcObject.refCount), 1).0 &&
        rcObject.deleted == (old(rcObject.deleted) || Released(old(rcObject.refCount), 1).1)
      ensures isConst || rcObject == null ==> rcObject == null || unchanged(rcObject)
    {
      if !isConst && rcObject != null {
        var zero := rcObject.DecRef(1);
        if zero {
          rcObject.deleted := true;
        }
      }
    }

    /** The second half of CopyAnother: take the other pointer's holder and constness, counting a unit if not const. */
    method Acquire(another: SmartPtr<T>)
      requires another != this
      modifies this, another.rcObject
      ensures rcObject == another.rcObject && isConst == another.isConst
      ensures another.rcObject == old(another.rcObject) && another.isConst == old(another.isConst)
      ensures !isConst && rcObject != null ==>
        rcObject.refCount == Incremented(old(another.rcObject.refCount), 1) &&
        rcObject.deleted == old(another.rcObject.deleted)
      ensures isConst || rcObject == null ==> rcObject == null || unchanged(rcObject)
    {
      rcObject := another.rcObject;
      isConst := another.isConst;
      if !isConst && rcObject != null {
        rcObject.IncRef(1);
      }
    }

    /**
     * operator=: nothing for self-assignment; otherwise CopyAnother, which
     * releases the old holder and then counts the other's.
     */
    method Assign(another: SmartPtr<T>)
      modifies this, rcObject, another.rcObject
      ensures another == this ==>
        rcObject == old(rcObject) && isConst == old(isConst) && (rcObject == null || unchanged(rcObject))
      ensures another != this ==> rcObject == old(another.rcObject) && isConst == old(another.isConst)
      ensures var before := old(rcObject);
        another != this && !old(isConst) && before != null && before != rcObject ==>
          before.refCount == Released(old(before.refCount), 1).0 &&
          before.deleted == (old(before.deleted) || Released(old(before.refCount), 1).1)
      ensures var before := old(rcObject); var after := rcObject;
        another != this && !isConst && after != null && (old(isConst) || before != after) ==>
          after.refCount == Incremented(old(after.refCount), 1) && after.deleted == old(after.deleted)
      ensures var before := old(rcObject);
        another != this && !old(isConst) && !isConst && before != null && before == rcObject ==>
          rcObject.refCount == Incremented(Released(old(before.refCount), 1).0, 1) &&
          rcObject.deleted == (old(before.deleted) || Released(old(before.refCount), 1).1)
    {
      if this != another {
        Release();
        Acquire(another);
      }
    }

    /** operator!: there is no holder or it holds NULL. */
    predicate Not()
      reads this, rcObject
    {
      rcObject == null || rcObject.refData.None?
    }

    /** Data(): the held data, NULL when there is no holder. */
    function Data(): (r: Option<T>)
      reads this, rcObject
      ensures r.None? <==> Not()
    {
      if rcObject != null then rcObject.refData else None
    }
  }

  // ---------------------------------------------------------------------
  // Pools of pointers and holders

  /** A holder: its count, whether it is deleted, and whether its pointers count (are not const). */
  datatype Holder = Holder(count: Uint32, deleted: bool, counted: bool)

  /** A CSmartPtr: NULL, or pointing at a holder (an index into the pool) with a constness. */
  datatype Slot = Unset | Points(holder: nat, isConst: bool)

  /** Every holder and every pointer of a program. */
  datatype Pool = Pool(holders: seq<Holder>, ptrs: seq<Slot>)

  /** The number of counted pointers to holder h. */
  function Owners(ptrs: seq<Slot>, h: nat): nat
    decreases |ptrs|
  {
    if ptrs == [] then 0
    else Owners(ptrs[..|ptrs| - 1], h) + (if ptrs[|ptrs| - 1] == Points(h, false) then 1 else 0)
  }

  /**
   * The invariant the smart pointers keep: no pointer refers to a
   * deleted holder, a pointer is const exactly when its holder is not
   * counted, and a counted holder's count is its number of pointers and
   * it is deleted exactly when that is zero.
   */
  ghost predicate Consistent(p: Pool) {
    (forall i :: 0 <= i < |p.ptrs| && p.ptrs[i].Points? ==>
      p.ptrs[i].holder < |p.holders| &&
      !p.holders[p.ptrs[i].holder].deleted &&
      p.ptrs[i].isConst == !p.holders[p.ptrs[i].holder].counted) &&
    (forall h :: 0 <= h < |p.holders| && p.holders[h].counted ==>
      p.holders[h].count == Owners(p.ptrs, h) &&
      (p.holders[h].deleted <==> p.holders[h].count == 0))
  }

  /** Changing one pointer moves one unit between holders' owner counts. */
  lemma {:induction false} OwnersUpdate(ptrs: seq<Slot>, i: nat, v: Slot, h: nat)
    requires i < |ptrs|
    ensures Owners(ptrs[i := v], h) + (if ptrs[i] == Points(h, false) then 1 else 0) ==
      Owners(ptrs, h) + (if v == Points(h, false) then 1 else 0)
    decreases |ptrs|
  {
    var last := |ptrs| - 1;
    if i < last {
      OwnersUpdate(ptrs[..last], i, v, h);
      assert ptrs[i := v][..last] == ptrs[..last][i := v];
    } else {
      assert ptrs[i := v][..last] == ptrs[..last];
    }
  }

  /** Appending one pointer adds one owner to its holder only. */
  lemma {:induction false} OwnersAppend(ptrs: seq<Slot>, v: Slot, h: nat)
    ensures Owners(ptrs + [v], h) == Owners(ptrs, h) + (if v == Points(h, false) then 1 else 0)
  {
    assert (ptrs + [v])[..|ptrs|] == ptrs;
  }

  /** A pool whose pointers never mention holder h has no owners for it. */
  lemma {:induction false} OwnersAbsent(ptrs: seq<Slot>, h: nat)
    requires forall i :: 0 <= i < |ptrs| ==> !(ptrs[i].Points? && ptrs[i].holder == h)
    ensures Owners(ptrs, h) == 0
    decreases |ptrs|
  {
    if ptrs != [] {
      OwnersAbsent(ptrs[..|ptrs| - 1], h);
    }
  }

  /** An owner is counted in its holder's owners. */
  lemma {:induction false} OwnerCounted(ptrs: seq<Slot>, i: nat, h: nat)
    requires i < |ptrs| && ptrs[i] == Points(h, false)
    ensures Owners(ptrs, h) >= 1
  {
    OwnersUpdate(ptrs, i, Unset, h);
  }

  /** A pointer built by CSmartPtr(obj, is_const) or CSmartPtr(const T *): a new holder with count 1. */
  function NewPointer(p: Pool, counted: bool): Pool {
    Pool(p.holders + [Holder(1, false, counted)], p.ptrs + [Points(|p.holders|, !counted)])
  }

  /** Release the pointer at index i (the destructor, or the start of an assignment). */
  function ReleaseAt(p: Pool, i: nat): Pool
    requires i < |p.ptrs| && (p.ptrs[i].Points? ==> p.ptrs[i].holder < |p.holders|)
  {
    match p.ptrs[i]
    case Unset => p
    case Points(h, isConst) =>
      if isConst then p
      else
        var (c, zero) := Released(p.holders[h].count, 1);
        Pool(p.holders[h := Holder(c, p.holders[h].deleted || zero, p.holders[h].counted)], p.ptrs)
  }

  /** Point index i at slot s and count it if it is not const. */
  function AcquireAt(p: Pool, i: nat, s: Slot): Pool
    requires i < |p.ptrs| && (s.Points? ==> s.holder < |p.holders|)
  {
    match s
    case Unset => Pool(p.holders, p.ptrs[i := s])
    case Points(h, isConst) =>
      if isConst then Pool(p.holders, p.ptrs[i := s])
      else
        var held := p.holders[h];
        Pool(p.holders[h := Holder(Incremented(held.count, 1), held.deleted, held.counted)], p.ptrs[i := s])
  }

  /** operator=(ptrs[src]) on ptrs[dst]. */
  function AssignAt(p: Pool, dst: nat, src: nat): Pool
    requires Consistent(p) && dst < |p.ptrs| && src < |p.ptrs|
  {
    if dst == src then p
    else
      var released := ReleaseAt(p, dst);
      AcquireAt(released, dst, p.ptrs[src])
  }

  /** The destructor of ptrs[i]; the slot is then unused. */
  function DropAt(p: Pool, i: nat): Pool
    requires Consistent(p) && i < |p.ptrs|
  {
    var released := ReleaseAt(p, i);
    Pool(released.holders, released.ptrs[i := Unset])
  }

  /** Making a new pointer keeps the pool consistent. */
  lemma {:induction false} NewPointerConsistent(p: Pool, counted: bool)
    requires Consistent(p)
    ensures Consistent(NewPointer(p, counted))
  {
    var q := NewPointer(p, counted);
    var n := |p.holders|;
    forall h | 0 <= h < |q.holders| && q.holders[h].counted
      ensures q.holders[h].count == Owners(q.ptrs, h)
    {
      OwnersAppend(p.ptrs, Points(n, !counted), h);
      if h == n {
        OwnersAbsent(p.ptrs, n);
      }
    }
  }

  /** Releasing pointer i and pointing it at s touches holder h only through those two slots. */
  lemma {:induction false} HolderAfter(p: Pool, i: nat, s: Slot, h: nat)
    requires i < |p.ptrs| && h < |p.holders|
    requires p.ptrs[i].Points? ==> p.ptrs[i].holder < |p.holders|
    requires s.Points? ==> s.holder < |p.holders|
    ensures var r := ReleaseAt(p, i); var c := p.holders[h].count;
      r.holders[h] == (if p.ptrs[i] == Points(h, false)
        then Holder(Released(c, 1).0, p.holders[h].deleted || Released(c, 1).1, p.holders[h].counted)
        else p.holders[h])
    ensures var r := ReleaseAt(p, i); var q := AcquireAt(r, i, s);
      |q.holders| == |p.holders| &&
      q.holders[h] == (if s == Points(h, false)
        then Holder(Incremented(r.holders[h].count, 1), r.holders[h].deleted, r.holders[h].counted)
        else r.holders[h])
  {
  }

  /** A counted holder's count keeps matching its owners when pointer i is released and pointed at s. */
  lemma {:induction false} CountedHolderAfter(p: Pool, i: nat, s: Slot, h: nat)
    requires i < |p.ptrs| && h < |p.holders| && p.holders[h].counted
    requires p.ptrs[i].Points? ==> p.ptrs[i].holder < |p.holders|
    requires s.Points? ==> s.holder < |p.holders|
    requires p.holders[h].count == Owners(p.ptrs, h)
    requires p.holders[h].deleted <==> p.holders[h].count == 0
    requires s == Points(h, false) ==> Owners(p.ptrs[i := Unset], h) >= 1 && p.holders[h].count + 1 < UintLimit
    ensures var q := AcquireAt(ReleaseAt(p, i), i, s);
      q.holders[h].count == Owners(q.ptrs, h) && (q.holders[h].deleted <==> q.holders[h].count == 0)
  {
    HolderAfter(p, i, s, h);
    assert AcquireAt(ReleaseAt(p, i), i, s).ptrs == p.ptrs[i := s];
    OwnersUpdate(p.ptrs, i, s, h);
    OwnersUpdate(p.ptrs, i, Unset, h);
  }

  /** The effect of releasing pointer i and pointing it at s, on one holder h. */
  lemma {:induction false} ReleaseThenSetHolder(p: Pool, i: nat, s: Slot, h: nat)
    requires Consistent(p) && i < |p.ptrs| && h < |p.holders|
    requires s == Unset || (s.Points? && exists j :: 0 <= j < |p.ptrs| && j != i && p.ptrs[j] == s)
    requires s.Points? && !s.isConst ==> p.holders[s.holder].count + 1 < UintLimit
    ensures var q := AcquireAt(ReleaseAt(p, i), i, s);
      |q.holders| == |p.holders| && q.holders[h].counted == p.holders[h].counted
    ensures var q := AcquireAt(ReleaseAt(p, i), i, s);
      !p.holders[h].counted ==> q.holders[h] == p.holders[h]
    ensures var q := AcquireAt(ReleaseAt(p, i), i, s);
      p.holders[h].counted ==>
        q.holders[h].count == Owners(q.ptrs, h) && (q.holders[h].deleted <==> q.holders[h].count == 0)
  {
    HolderAfter(p, i, s, h);
    if p.holders[h].counted && s == Points(h, false) {
      var j :| 0 <= j < |p.ptrs| && j != i && p.ptrs[j] == s;
      OwnerCounted(p.ptrs[i := Unset], j, h);
    }
    if p.holders[h].counted {
      CountedHolderAfter(p, i, s, h);
    }
  }

  /** Releasing then pointing elsewhere (or nowhere) keeps the pool consistent. */
  lemma {:induction false} ReleaseThenSet(p: Pool, i: nat, s: Slot)
    requires Consistent(p) && i < |p.ptrs|
    requires s == Unset || (s.Points? && exists j :: 0 <= j < |p.ptrs| && j != i && p.ptrs[j] == s)
    requires s.Points? && !s.isConst ==> p.holders[s.holder].count + 1 < UintLimit
    ensures Consistent(AcquireAt(ReleaseAt(p, i), i, s))
  {
    var q := AcquireAt(ReleaseAt(p, i), i, s);
    assert q.ptrs == p.ptrs[i := s];
    forall h | 0 <= h < |q.holders| && q.holders[h].counted
      ensures q.holders[h].count == Owners(q.ptrs, h)
      ensures q.holders[h].deleted <==> q.holders[h].count == 0
    {
      ReleaseThenSetHolder(p, i, s, h);
    }
    forall k | 0 <= k < |q.ptrs| && q.ptrs[k].Points?
      ensures q.ptrs[k].holder < |q.holders|
      ensures !q.holders[q.ptrs[k].holder].deleted
      ensures q.ptrs[k].isConst == !q.holders[q.ptrs[k].holder].counted
    {
      var h := q.ptrs[k].holder;
      if k == i {
        var j :| 0 <= j < |p.ptrs| && j != i && p.ptrs[j] == s;
        assert p.ptrs[j].holder == h;
      }
      ReleaseThenSetHolder(p, i, s, h);
      if q.holders[h].counted {
        OwnerCounted(q.ptrs, k, h);
      }
    }
  }

  /**
   * Assignment keeps the pool consistent and leaves the target pointing
   * where the source points; self-assignment changes nothing.
   */
  lemma {:induction false} AssignConsistent(p: Pool, dst: nat, src: nat)
    requires Consistent(p) && dst < |p.ptrs| && src < |p.ptrs|
    requires p.ptrs[src].Points? && !p.ptrs[src].isConst ==>
      p.holders[p.ptrs[src].holder].count + 1 < UintLimit
    ensures Consistent(AssignAt(p, dst, src))
    ensures AssignAt(p, dst, src).ptrs == p.ptrs[dst := p.ptrs[src]]
  {
    if dst != src {
      ReleaseThenSet(p, dst, p.ptrs[src]);
    }
  }

  /** Dropping a pointer keeps the pool consistent. */
  lemma {:induction false} DropConsistent(p: Pool, i: nat)
    requires Consistent(p) && i < |p.ptrs|
    ensures Consistent(DropAt(p, i))
  {
    ReleaseThenSet(p, i, Unset);
    assert DropAt(p, i) == AcquireAt(ReleaseAt(p, i), i, Unset);
  }

  /** Dropping the last counted pointer to a holder deletes it; dropping any other leaves it alive. */
  lemma {:induction false} LastOwnerDeletes(p: Pool, i: nat)
    requires Consistent(p) && i < |p.ptrs| && p.ptrs[i].Points? && !p.ptrs[i].isConst
    ensures DropAt(p, i).holders[p.ptrs[i].holder].deleted <==> Owners(p.ptrs, p.ptrs[i].holder) == 1
  {
    OwnerCounted(p.ptrs, i, p.ptrs[i].holder);
  }
}
