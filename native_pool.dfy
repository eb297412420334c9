/**
 * A fixed-capacity bump allocator. Slots are handed out in order from a buffer of
 * `capacity` elements; `Reset` makes the whole buffer available again without
 * clearing it.
 */
module Pool {
  import opened Wrappers

  /** The exceptions the pool throws. */
  datatype PoolError =
    | CapacityNotPositive  // ArgumentOutOfRangeException from the constructor
    | BufferFull           // InvalidOperationException("Buffer full") from Allocate

  class NativePool<T(0)> {
    /** The number of slots, fixed when the pool is created. */
    const capacity: int
    /** The backing buffer; slot `i` is `items[i]`. */
    const items: array<T>
    /** The cursor: slots `[0, size)` have been handed out since creation or the last `Reset`. */
    var size: int

    /** The constructor's capacity check holds for good, since `capacity` never changes. */
    ghost predicate Valid()
      reads this
    {
      capacity > 0 && items.Length == capacity && 0 <= size <= capacity
    }

    /** The part of the constructor that runs once the capacity check has passed. */
    constructor Init(maxCapacity: int)
      requires maxCapacity > 0
      ensures Valid() && fresh(items)
      ensures capacity == maxCapacity && size == 0
    {
      capacity := maxCapacity;
      items := new T[maxCapacity];
      size := 0;
    }

    /** The constructor: rejects a capacity that is not positive, otherwise an empty pool of that capacity. */
    static method New(maxCapacity: int) returns (r: Result<NativePool<T>, PoolError>)
      ensures r.Failure? <==> maxCapacity <= 0
      ensures r.Failure? ==> r.error == CapacityNotPositive
      ensures r.Success? ==> fresh(r.value) && fresh(r.value.items) && r.value.Valid()
      ensures r.Success? ==> r.value.capacity == maxCapacity && r.value.size == 0
    {
      if maxCapacity <= 0 {
        return Failure(CapacityNotPositive);
      }
      var pool := new NativePool<T>.Init(maxCapacity);
      r := Success(pool);
    }

    /**
     * Hands out the slot at the cursor and advances the cursor by one; throws when
     * the pool is full, leaving the cursor where it was. The slot is not cleared.
     */
    method Allocate() returns (r: Result<nat, PoolError>)
      requires Valid()
      modifies this
      ensures Valid()
      ensures r.Success? <==> old(size) < capacity
      ensures r.Success? ==> r.value == old(size) && size == old(size) + 1
      ensures r.Failure? ==> r.error == BufferFull && size == old(size)
    {
      if size >= capacity {
        return Failure(BufferFull);
      }
      r := Success(size);
      size := size + 1;
    }

    /** Moves the cursor back to the first slot; the buffer keeps its contents. */
    method Reset()
      requires Valid()
      modifies this
      ensures Valid()
      ensures size == 0
      ensures unchanged(items)
    {
      size := 0;
    }
  }
}
