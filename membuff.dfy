/**
 * SMemBuff: a growable byte buffer.  The bytes written so far are the
 * first `length` cells of `buffer`; `capacity` is the size of `buffer`.
 * Growing reallocates to the larger of the request and twice the old
 * capacity and copies the written bytes across.
 */
module MemBuffer {
  import opened CText

  /** Capacities are passed as `unsigned`. */
  const UnsignedLimit: nat := 0x1_0000_0000

  /** The capacity EnsureCapacity leaves: unchanged unless the request exceeds it. */
  function GrownCapacity(current: nat, requested: nat): nat {
    if requested > current then
      (if requested > current * 2 then requested else current * 2)
    else current
  }

  /**
   * Growing never shrinks, always satisfies the request, and when it
   * reallocates it at least doubles.
   */
  lemma {:induction false} GrownCapacityBounds(current: nat, requested: nat)
    ensures GrownCapacity(current, requested) >= current
    ensures GrownCapacity(current, requested) >= requested
    ensures GrownCapacity(current, requested) != current ==>
      GrownCapacity(current, requested) >= 2 * current && requested > current
    ensures GrownCapacity(current, requested) == current <==> requested <= current
  {
  }

  /** The result is the smallest capacity that meets the request and at least doubles. */
  lemma {:induction false} GrownCapacityLeast(current: nat, requested: nat, c: nat)
    requires requested > current
    requires c >= requested && c >= 2 * current
    ensures GrownCapacity(current, requested) <= c
  {
  }

  /** Growing twice to the same request is the same as growing once. */
  lemma {:induction false} GrownCapacityIdempotent(current: nat, requested: nat)
    ensures GrownCapacity(GrownCapacity(current, requested), requested) == GrownCapacity(current, requested)
  {
    GrownCapacityBounds(current, requested);
  }

  class MemBuff {
    /** pBuffer: its first `length` cells hold the data. */
    var buffer: array<char>
    /** pLength */
    var length: nat
    /** pCapacity */
    var capacity: nat

    ghost predicate Valid()
      reads this
    {
      buffer.Length == capacity && length <= capacity
    }

    /** The bytes written so far. */
    function Contents(): seq<char>
      reads this, buffer
      requires Valid()
    {
      buffer[..length]
    }

    /** SMemBuff(capacity): an empty buffer of exactly the requested capacity. */
    constructor (requested: nat)
      requires requested < UnsignedLimit
      ensures Valid() && fresh(buffer)
      ensures length == 0 && capacity == requested && Contents() == []
    {
      buffer := new char[requested];
      capacity := requested;
      length := 0;
    }

    /**
     * EnsureCapacity(capacity): grows to GrownCapacity, copying the
     * written bytes, and returns the capacity as an int.
     */
    method EnsureCapacity(requested: nat) returns (r: Int32)
      requires Valid() && requested < UnsignedLimit
      modifies this
      ensures Valid() && (buffer == old(buffer) || fresh(buffer))
      ensures capacity == GrownCapacity(old(capacity), requested)
      ensures length == old(length) && Contents() == old(Contents())
      ensures r == WrapInt32(capacity)
    {
      if requested > capacity {
        var newCapacity := if requested > capacity * 2 then requested else capacity * 2;
        var grown := new char[newCapacity];
        forall i | 0 <= i < length {
          grown[i] := buffer[i];
        }
        buffer := grown;
        capacity := newCapacity;
      }
      r := WrapInt32(capacity);
    }

    /**
     * Write(src, len): append the first len bytes of src; src None is a
     * NULL pointer.  Nothing happens when len is 0 or src is NULL.
     */
    method Write(src: Option<seq<char>>, len: nat)
      requires Valid()
      requires src.Some? ==> len <= |src.value|
      requires length + len + 1 < UnsignedLimit
      modifies this, buffer
      ensures Valid()
      ensures len > 0 && src.Some? ==>
        Contents() == old(Contents()) + src.value[..len] &&
        length == old(length) + len &&
        capacity == GrownCapacity(old(capacity), old(length) + len + 1) &&
        capacity >= length + 1
      ensures !(len > 0 && src.Some?) ==>
        Contents() == old(Contents()) && length == old(length) && capacity == old(capacity)
    {
      if len > 0 && src.Some? {
        var data := src.value;
        var before := Contents();
        var _ := EnsureCapacity(length + len + 1);
        GrownCapacityBounds(old(capacity), old(length) + len + 1);
        forall i | 0 <= i < len {
          buffer[length + i] := data[i];
        }
        assert buffer[..length] == before;
        length := length + len;
        assert buffer[..length] == before + data[..len] by {
          forall i | 0 <= i < length
            ensures buffer[..length][i] == (before + data[..len])[i]
          {
          }
        }
      }
    }

    /** Read: not implemented; it always returns 0 and changes nothing. */
    method Read(len: nat) returns (r: int)
      ensures r == 0
    {
      r := 0;
    }
  }
}
