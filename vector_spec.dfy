/**
 * Value-level specification of the growable array `cpplab::vector<T>`:
 * how its capacity grows, what `resize` and `pop_back` do to the sequence
 * of live elements, and how many element copies reallocation costs.
 * The class in module CppLab is proved against these functions.
 */
module VectorSpec {

  /** `c` is one of 1, 2, 4, 8, ... */
  predicate IsPowerOfTwo(c: nat)
    decreases c
  {
    c == 1 || (c >= 2 && c % 2 == 0 && IsPowerOfTwo(c / 2))
  }

  /** The capacity `reallocate` switches to: 1 from an empty buffer, twice the old one otherwise. */
  function NextCapacity(c: nat): (r: nat)
    ensures c < r
    ensures c == 0 ==> r == 1
    ensures IsPowerOfTwo(c) ==> IsPowerOfTwo(r)
  {
    if c == 0 then 1 else 2 * c
  }

  /**
   * The capacity reached by growing `c` one reallocation at a time until it
   * holds `n` elements: what repeated `push_back` leaves behind when `resize`
   * asks for more than the current capacity.
   */
  function GrownCapacity(c: nat, n: nat): (r: nat)
    decreases n - c
    ensures n <= r && c <= r
    ensures n <= c ==> r == c
    ensures c < r ==> r < 2 * n
  {
    if n <= c then c else GrownCapacity(NextCapacity(c), n)
  }

  /** Growing to one more element reallocates exactly when the buffer is full. */
  lemma {:induction false} GrownCapacityStep(c: nat, n: nat)
    decreases n - c
    ensures GrownCapacity(c, n + 1)
            == if n < GrownCapacity(c, n) then GrownCapacity(c, n) else NextCapacity(GrownCapacity(c, n))
  {
    if c < n {
      GrownCapacityStep(NextCapacity(c), n);
    }
  }

  /** Starting from an empty or power-of-two buffer, growth only ever yields powers of two. */
  lemma {:induction false} GrownCapacityIsPowerOfTwo(c: nat, n: nat)
    requires c == 0 || IsPowerOfTwo(c)
    decreases n - c
    ensures 0 < n ==> IsPowerOfTwo(GrownCapacity(c, n))
  {
    if c < n {
      GrownCapacityIsPowerOfTwo(NextCapacity(c), n);
    }
  }

  /**
   * Number of elements `reallocate` copies while `push_back` is called
   * repeatedly to take the size from `size` to `n`, starting at capacity `cap`.
   * Pushing within the current capacity never reallocates, so copies nothing.
   */
  function PushCopies(size: nat, cap: nat, n: nat): (r: nat)
    decreases n - size
    ensures size <= cap && n <= cap ==> r == 0
  {
    if n <= size then 0
    else if cap <= size then size + PushCopies(size + 1, NextCapacity(cap), n)
    else PushCopies(size + 1, cap, n)
  }

  /**
   * One more `push_back` after reaching size `n` copies what a single call
   * copies from the capacity reached so far, `GrownCapacity(cap, n)`.
   */
  lemma {:induction false} PushCopiesStep(size: nat, cap: nat, n: nat)
    requires size <= cap && size <= n
    decreases n - size
    ensures PushCopies(size, cap, n + 1) == PushCopies(size, cap, n) + PushCopies(n, GrownCapacity(cap, n), n + 1)
  {
    if size < n {
      if cap <= size {
        PushCopiesStep(size + 1, NextCapacity(cap), n);
      } else {
        PushCopiesStep(size + 1, cap, n);
      }
    }
  }

  /** From a nonzero capacity, the copies still to come plus that capacity stay within twice the target. */
  lemma {:induction false} PushCopiesBound(size: nat, cap: nat, n: nat)
    requires 1 <= cap && size <= cap
    decreases n - size
    ensures PushCopies(size, cap, n) + cap <= 2 * (if n <= cap then cap else n)
  {
    if n <= size {
    } else if size < cap {
      PushCopiesBound(size + 1, cap, n);
    } else {
      assert NextCapacity(cap) == 2 * cap;
      if 2 * cap < n {
        PushCopiesBound(size + 1, 2 * cap, n);
      }
    }
  }

  /**
   * Amortised doubling: filling a default-constructed vector with `n`
   * `push_back` calls copies fewer than `2 * n` elements in all.
   */
  lemma AmortisedPushCost(n: nat)
    requires 0 < n
    ensures PushCopies(0, 0, n) < 2 * n
  {
    assert PushCopies(0, 0, n) == PushCopies(1, 1, n);
    PushCopiesBound(1, 1, n);
  }

  /**
   * The live elements after `resize(n, v)`: the first `min(|s|, n)` elements
   * are kept and every new position holds `v`.
   */
  function Resized<T>(s: seq<T>, n: nat, v: T): (r: seq<T>)
    ensures |r| == n
    ensures forall i :: 0 <= i < n ==> r[i] == if i < |s| then s[i] else v
  {
    if n <= |s| then s[..n] else s + seq(n - |s|, _ => v)
  }

  /** The live elements after `pop_back`: the last one is dropped, and an empty vector stays empty. */
  function Popped<T>(s: seq<T>): (r: seq<T>)
    ensures s == [] ==> r == []
    ensures s != [] ==> r + [s[|s| - 1]] == s
  {
    if s == [] then [] else s[..|s| - 1]
  }

  /** `pop_back` undoes `push_back`. */
  lemma PopUndoesPush<T>(s: seq<T>, x: T)
    ensures Popped(s + [x]) == s
  {
  }

  /** Growing by one position through `resize` is the same as one `push_back`. */
  lemma ResizeByOneIsPush<T>(s: seq<T>, n: nat, v: T)
    requires |s| <= n
    ensures Resized(s, n + 1, v) == Resized(s, n, v) + [v]
  {
  }

  /** A second `resize` to the same size with the same value changes nothing. */
  lemma ResizeIdempotent<T>(s: seq<T>, n: nat, v: T)
    ensures Resized(Resized(s, n, v), n, v) == Resized(s, n, v)
  {
  }

  /**
   * Elements cut off by shrinking never reappear: growing again fills the
   * freed positions with the new value, not with what was stored there.
   */
  lemma ShrinkThenGrow<T>(s: seq<T>, m: nat, n: nat, v: T, w: T)
    requires m <= |s|
    ensures Resized(Resized(s, m, v), n, w) == Resized(s[..m], n, w)
  {
  }
}
