/** The growth policy of every growable buffer (memory.h) and the two
    reallocation macros, with `reallocate` itself taken as "hand back a
    buffer of the new size holding the old prefix". */
module Memory {

  const MinCapacity := 16

  /** GROW_CAPACITY: 16 below 16, otherwise `capacity * 1.5` converted back to
      an int, which for a non-negative capacity drops the fraction. */
  function GrowCapacity(capacity: nat): (r: nat)
    ensures r > capacity
    ensures r >= MinCapacity
    ensures capacity < MinCapacity ==> r == MinCapacity
    ensures capacity >= MinCapacity ==> 2 * r <= 3 * capacity < 2 * r + 2
  {
    if capacity < MinCapacity then MinCapacity else capacity + capacity / 2
  }

  /** GROW_ARRAY: a buffer of `newCount` elements whose first elements are
      those of the old buffer, as far as both reach. */
  method GrowArray<T(0)>(a: array<T>, oldCount: nat, newCount: nat) returns (b: array<T>)
    requires oldCount <= a.Length
    ensures fresh(b) && b.Length == newCount
    ensures forall i :: 0 <= i < oldCount && i < newCount ==> b[i] == a[i]
  {
    b := new T[newCount];
    var n := if oldCount < newCount then oldCount else newCount;
    var i := 0;
    while i < n
      invariant 0 <= i <= n
      invariant forall k :: 0 <= k < i ==> b[k] == a[k]
    {
      b[i] := a[i];
      i := i + 1;
    }
  }

  /** FREE_ARRAY: a reallocation to size zero. */
  method FreeArray<T(0)>(a: array<T>, oldCount: nat) returns (b: array<T>)
    requires oldCount <= a.Length
    ensures fresh(b) && b.Length == 0
  {
    b := GrowArray(a, oldCount, 0);
  }
}
