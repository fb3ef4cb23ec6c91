/**
 * `cpplab::vector<T>`: a growable array over a heap buffer, with the
 * element count and the buffer length kept in two fields.
 */
module CppLab {
  import opened VectorSpec

  /** The exception `operator[]` throws: `std::out_of_range`. */
  datatype Error = OutOfRange

  /** A value or the error raised instead of it. */
  datatype Result<T> = Ok(value: T) | Err(error: Error)

  /** Success or the error raised, for operations that return nothing. */
  datatype Outcome = Pass | Fail(error: Error)

  class Vector<T(0)> {
    var buffer: array<T>
    var size: nat
    var capacity: nat
    /** Element copies made by reallocation so far: the cost that doubling keeps amortised-constant. */
    ghost var copies: nat

    /** The count never exceeds the capacity, which is the buffer's length. */
    ghost predicate Valid()
      reads this
    {
      size <= capacity == buffer.Length
    }

    /** The live elements, in order. */
    ghost function Elements(): seq<T>
      reads this, buffer
      requires Valid()
    {
      buffer[..size]
    }

    /** Default construction: no elements and no buffer space. */
    constructor ()
      ensures Valid() && fresh(buffer)
      ensures size == 0 && capacity == 0 && Elements() == [] && copies == 0
    {
      buffer := new T[0];
      size, capacity := 0, 0;
      copies := 0;
    }

    /** Construction from an initializer list: the buffer is exactly as long as the list. */
    constructor FromList(list: seq<T>)
      ensures Valid() && fresh(buffer)
      ensures size == capacity == |list| && Elements() == list && copies == 0
    {
      var data := new T[|list|];
      for i := 0 to |list|
        invariant data[..i] == list[..i]
      {
        data[i] := list[i];
      }
      capacity, size, buffer := |list|, |list|, data;
      copies := 0;
    }

    /** The const `operator[]`: the element at `index`, or `out_of_range` past the end. */
    method Get(index: nat) returns (r: Result<T>)
      requires Valid()
      ensures index < |Elements()| ==> r == Ok(Elements()[index])
      ensures |Elements()| <= index ==> r == Err(OutOfRange)
    {
      if index >= size {
        return Err(OutOfRange);
      }
      return Ok(buffer[index]);
    }

    /**
     * The non-const `operator[]` used as an assignment target: stores `item`
     * at `index`, or raises `out_of_range` past the end and stores nothing.
     */
    method Set(index: nat, item: T) returns (r: Outcome)
      requires Valid()
      modifies buffer
      ensures Valid()
      ensures r == if index < old(size) then Pass else Fail(OutOfRange)
      ensures Elements() == if index < old(size) then old(Elements())[index := item] else old(Elements())
    {
      if index >= size {
        return Fail(OutOfRange);
      }
      buffer[index] := item;
      return Pass;
    }

    /** Appends `item`, reallocating first when the buffer is full. */
    method PushBack(item: T)
      requires Valid()
      modifies this, buffer
      ensures Valid()
      ensures Elements() == old(Elements()) + [item]
      ensures capacity == if old(size) < old(capacity) then old(capacity) else NextCapacity(old(capacity))
      ensures buffer == old(buffer) || fresh(buffer)
      ensures copies == old(copies) + PushCopies(old(size), old(capacity), old(size) + 1)
    {
      if size >= capacity {
        Reallocate();
      }
      buffer[size] := item;
      size := size + 1;
    }

    /** Drops the last element; does nothing on an empty vector. */
    method PopBack()
      requires Valid()
      modifies this
      ensures Valid() && buffer == old(buffer) && capacity == old(capacity) && copies == old(copies)
      ensures Elements() == Popped(old(Elements()))
    {
      if size > 0 {
        size := size - 1;
      }
    }

    /**
     * Sets the count to `newSize`: truncates, fills the new slots in place
     * when they fit, or appends `value` one `PushBack` at a time.
     */
    method Resize(newSize: nat, value: T)
      requires Valid()
      modifies this, buffer
      ensures Valid()
      ensures Elements() == Resized(old(Elements()), newSize, value)
      ensures capacity == GrownCapacity(old(capacity), newSize)
      ensures buffer == old(buffer) || fresh(buffer)
      ensures copies == old(copies) + PushCopies(old(size), old(capacity), newSize)
    {
      if newSize > size && newSize <= capacity {
        for i := size to newSize
          invariant buffer == old(buffer) && size == old(size) && capacity == old(capacity) && copies == old(copies)
          invariant buffer[..size] == old(Elements())
          invariant forall k :: size <= k < i ==> buffer[k] == value
        {
          buffer[i] := value;
        }
      } else if newSize > capacity {
        for i := size to newSize
          invariant Valid() && size == i
          invariant Elements() == Resized(old(Elements()), i, value)
          invariant capacity == GrownCapacity(old(capacity), i)
          invariant buffer == old(buffer) || fresh(buffer)
          invariant copies == old(copies) + PushCopies(old(size), old(capacity), i)
        {
          ResizeByOneIsPush(old(Elements()), i, value);
          GrownCapacityStep(old(capacity), i);
          PushCopiesStep(old(size), old(capacity), i);
          PushBack(value);
        }
      }
      size := newSize;
    }

    /** The number of live elements; reading it changes nothing. */
    function Size(): (n: nat)
      reads this, buffer
      requires Valid()
      ensures n == |Elements()|
    {
      size
    }

    /** Moves the elements to a fresh buffer of the next capacity. */
    method Reallocate()
      requires Valid()
      modifies this
      ensures Valid() && fresh(buffer)
      ensures size == old(size) && capacity == NextCapacity(old(capacity))
      ensures Elements() == old(Elements())
      ensures copies == old(copies) + old(size)
    {
      var newCapacity := NextCapacity(capacity);
      capacity := newCapacity;
      copies := copies + size;
      var data := new T[newCapacity];
      for i := 0 to size
        invariant buffer == old(buffer) && size == old(size) && capacity == newCapacity
        invariant copies == old(copies) + size
        invariant data[..i] == buffer[..i]
      {
        data[i] := buffer[i];
      }
      buffer := data;
    }
  }
}
