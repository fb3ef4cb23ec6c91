# cpplab::vector in Dafny

This project models `cpplab::vector<T>`, a hand-written growable array. It keeps a heap buffer `data_`, an element count `size_` and a buffer length `capacity_`. Its operations are:

- two constructors: the default one and the one from an initializer list;
- bounds-checked `operator[]`, which throws `std::out_of_range`, in a const and a non-const form;
- `push_back`, which doubles the capacity (0 → 1 → 2 → 4 …) through the private `reallocate` when the buffer is full;
- `pop_back`, which does nothing on an empty vector;
- `resize(n, v)`, which truncates, fills new slots in place when they fit, or appends `v` with repeated `push_back`;
- `size()`.

There are two modules:

- `CppLab` (vector.dfy) holds the class `Vector<T>`. It has the same three fields as the C++ class: an `array<T>` buffer, `size` and `capacity`. Its invariant `Valid()` says `size <= capacity == buffer.Length`. The ghost function `Elements()` gives the live elements `buffer[..size]`. `PushBack`, `PopBack`, `Resize` and `Reallocate` are proved against the value-level functions of `VectorSpec`. `Get`, `Set`, `Size` and the two constructors are stated directly in terms of `Elements()`. A ghost counter `copies`, which the C++ class does not have, records how many elements reallocation has copied so far. `Reallocate`, `PushBack` and `Resize` state its new value in terms of `PushCopies`.
- `VectorSpec` (vector_spec.dfy) holds those value-level functions and the lemmas about them:
  - capacity growth: `NextCapacity`, `GrownCapacity`, and the powers of two it produces;
  - the effect of `resize` and `pop_back` on the element sequence: `Resized`, `Popped`;
  - the number of element copies that reallocation costs over a run of `push_back` calls: `PushCopies`.

`std::out_of_range` becomes the `Err(OutOfRange)` / `Fail(OutOfRange)` value of a `Result` or `Outcome` datatype. Indices are `nat`, because the C++ `size_t` index is never negative. The element type needs a default value (`T(0)`) because Dafny fills fresh array slots with it. The C++ only needs `T` to be default-constructible. For a scalar `T`, `new T[n]` leaves the slots indeterminate, while `make_unique<T[]>` value-initializes them. No operation reads a slot at or past `size_` before writing it, so those initial values cannot be observed.

## Model

| member | source | states |
|---|---|---|
| CppLab.Vector.constructor | Lista1/vector.hpp:15-19 | default construction gives size 0, capacity 0 and no elements; the invariant holds |
| CppLab.Vector.FromList | Lista1/vector.hpp:20-26 | size and capacity both equal the list length, and element i is the i-th list item |
| CppLab.Vector.Get | Lista1/vector.hpp:37-42 | an index below the size returns the stored element; any other index is an `out_of_range` error; nothing changes (no modifies clause) |
| CppLab.Vector.Set | Lista1/vector.hpp:31-36 | writing through the non-const `operator[]` replaces exactly the element at a valid index; an index at or past the size is an `out_of_range` error and the contents are unchanged; size and capacity never change |
| CppLab.Vector.PushBack | Lista1/vector.hpp:50-56 | the new contents are the old contents followed by `item`; the capacity is the next capacity when the buffer was full and is unchanged otherwise; the copy count grows by what one push costs in `PushCopies`; the invariant is kept |
| CppLab.Vector.PopBack | Lista1/vector.hpp:57-61 | the contents lose their last element, or stay empty when already empty; the buffer and capacity are unchanged |
| CppLab.Vector.Resize | Lista1/vector.hpp:62-71 | on all three paths (truncate, fill in place, repeated push_back) the contents become `Resized(old contents, newSize, value)`; the capacity becomes `GrownCapacity(old capacity, newSize)`, which is the old capacity unless newSize exceeds it; the copy count grows by `PushCopies(old size, old capacity, newSize)`, which is zero on the truncate and fill paths |
| CppLab.Vector.Size | Lista1/vector.hpp:72-75 | reports the number of live elements, reading the state without changing it |
| CppLab.Vector.Reallocate | Lista1/vector.hpp:86-94 | switches to a fresh buffer whose capacity is `NextCapacity` of the old one, with size and contents unchanged; the copy count grows by the size |
| VectorSpec.NextCapacity | Lista1/vector.hpp:88 | the new capacity is strictly larger; it is 1 from 0; it keeps a power of two a power of two |
| VectorSpec.GrownCapacity | Lista1/vector.hpp:67-69 | the capacity after growing to hold n elements is at least n and at least the old capacity; it equals the old capacity when n fits; when it grew, it is less than 2n |
| VectorSpec.GrownCapacityStep | Lista1/vector.hpp:52-53 | growing to hold one more element reallocates exactly when the capacity reached so far is full |
| VectorSpec.GrownCapacityIsPowerOfTwo | Lista1/vector.hpp:88 | growth that starts from capacity 0 or from a power of two only produces powers of two (0 → 1 → 2 → 4 …) |
| VectorSpec.PushCopies | Lista1/vector.hpp:50-56 | counts the elements copied by the loop at lines 91-92 over repeated push_back; pushing up to a size that fits in the capacity copies no element |
| VectorSpec.PushCopiesStep | Lista1/vector.hpp:50-56 | the copies of pushing one more element are what a single push_back costs at the capacity reached so far, `GrownCapacity` |
| VectorSpec.PushCopiesBound | Lista1/vector.hpp:86-94 | starting from any nonzero capacity (a list-built vector of capacity 3 included), the copies made while pushing, plus that capacity, are at most twice the larger of the target size and the capacity |
| VectorSpec.AmortisedPushCost | Lista1/vector.hpp:50-56 | n push_back calls on a default-constructed vector copy fewer than 2n elements in all (amortised constant cost); with the contracts of `PushBack` and `Resize` this bounds the class's `copies` counter |
| VectorSpec.Resized | Lista1/vector.hpp:62-71 | after a resize the length is n; positions below the old length keep their values and the other positions hold v |
| VectorSpec.Popped | Lista1/vector.hpp:57-61 | pop_back removes exactly the last element, and the empty sequence stays empty |
| VectorSpec.PopUndoesPush | Lista1/vector.hpp:50-61 | pop_back after push_back restores the previous contents |
| VectorSpec.ResizeByOneIsPush | Lista1/vector.hpp:67-69 | growing by one position through resize is the same as appending v once |
| VectorSpec.ResizeIdempotent | Lista1/vector.hpp:62-71 | a second resize to the same size with the same value changes nothing |
| VectorSpec.ShrinkThenGrow | Lista1/vector.hpp:64-66 | values cut off by shrinking never reappear: growing again fills the freed slots with the new value |

## Left out

- `operator<<` (Lista1/vector.hpp:43-48): stream output.
- The destructor and the `unique_ptr` ownership of the buffer (Lista1/vector.hpp:27-30, 98). This is manual memory management, and the `release()` call leaks the buffer. Dafny's heap is garbage-collected.
- `begin()` and `end()` (Lista1/vector.hpp:76-83): raw pointers into the buffer. Iteration is available through the ghost `Elements()` sequence. `begin()` on a default-constructed vector would dereference a null buffer.
- The `index < 0` test in both `operator[]` overloads: it can never be true for `size_t`, so indices are `nat`.
- Overflow of `2 * capacity_` in `size_t` (Lista1/vector.hpp:88): capacities are unbounded `nat`.
- Allocation failure: `new T[new_capacity]` (Lista1/vector.hpp:90) can throw `std::bad_alloc` after line 89 has already raised `capacity_`. That leaves `capacity_` larger than the buffer. In the model, allocation cannot fail, so `Reallocate`, `PushBack` and `Resize` always succeed and always keep the invariant.
- CppLab.Vector.Set: the non-const `operator[]` returns a reference. Dafny cannot return a reference to an array slot, so the model covers its use as an assignment target. Reading through it behaves like `Get`.
- The default constructor leaves `data_` null. The model gives it an empty array instead: both have no slots.
- Lista7/zad1.cpp (`ThreadPool`) is not part of this model: it coordinates worker threads with a mutex and a condition variable, and its only computed value is a floating-point mean.
