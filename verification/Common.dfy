/** Sizes of the machine and small facts that several modules use. */
module Common {
  const UINT_LIMIT: nat := 0x1_0000_0000

  /** KERNBASE of memlayout.h: where the kernel's half of an address space starts. */
  const KERNBASE: nat := 0x8000_0000

  /** n as a 32-bit unsigned word holds it. */
  function U32(n: int): nat
  {
    n % UINT_LIMIT
  }

  type byte = x: int | 0 <= x < 0x100

  function Min(a: nat, b: nat): nat
  {
    if a < b then a else b
  }

  lemma SubsetSize<T>(a: set<T>, b: set<T>)
    requires a <= b
    ensures |a| <= |b|
    ensures |a| == |b| ==> a == b
  {
    if x :| x in a {
      SubsetSize(a - {x}, b - {x});
      assert a - {x} == b - {x} ==> a == b;
    } else {
      assert a == {};
    }
  }
}
