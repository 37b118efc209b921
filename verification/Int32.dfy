/** JavaScript's 32-bit shifts, as far as the index arithmetic of the sorts depends on them. */
module Int32 {

  /** The largest array length for which the midpoint of every subrange is computed correctly. */
  const MAX_LENGTH: nat := 0x4000_0000

  /** The signed 32-bit integer that a bitwise operator makes of the number x. */
  function ToInt32(x: int): int {
    var u := x % 0x1_0000_0000;
    if u < 0x8000_0000 then u else u - 0x1_0000_0000
  }

  /** `x >> 1`: an arithmetic shift of the 32-bit value, which rounds down. */
  function Half(x: int): int {
    ToInt32(x) / 2
  }

  /** `x << 1`. */
  function Double(x: int): int {
    ToInt32(2 * x)
  }

  /** `lo + hi >> 1` probes a cell of the subrange [lo, hi). */
  predicate ProbesInside(lo: nat, hi: nat) {
    lo <= Half(lo + hi) < hi
  }

  /** Every nonempty subrange of an array is probed inside exactly when the array is not longer than
      MAX_LENGTH; beyond that the sum overflows and the probe is negative. */
  lemma MidpointInRange(n: nat)
    ensures n <= MAX_LENGTH <==> forall lo: nat, hi: nat :: lo < hi <= n ==> ProbesInside(lo, hi)
  {
    if n > MAX_LENGTH {
      assert !ProbesInside(0x4000_0000, 0x4000_0001);
    }
  }

  /** If `i << 1` passes the test for being a node of the heap of n nodes, it is the left child of node i. */
  predicate ChildRight(i: nat, n: nat) {
    Double(i) <= n ==> Double(i) == 2 * i
  }

  lemma DoubleExact(i: nat)
    requires i < MAX_LENGTH
    ensures Double(i) == 2 * i
  {
  }

  /** Children are looked for inside the heap exactly when it has fewer than MAX_LENGTH nodes; the child of node
      MAX_LENGTH would be negative. */
  lemma ChildInRange(n: nat)
    ensures n < MAX_LENGTH <==> forall i: nat :: 1 <= i <= n ==> ChildRight(i, n)
  {
    if n >= MAX_LENGTH {
      assert !ChildRight(MAX_LENGTH, n);
    }
  }
}
