/** Machine words and wrap-safe physical ranges (include/nxu/types.h, include/nxu/range.h).
    Addresses and descriptors are unsigned 64-bit values; every sum the C code forms is
    reduced modulo 2^64 here as well, so that a wrap is visible in the model. */
module Words {
  const TWO32: int := 0x1_0000_0000
  const TWO48: int := 0x1_0000_0000_0000
  const TWO64: int := 0x1_0000_0000_0000_0000
  const PAGE: int := 0x1000

  // NXU_CPU_BOUND and NXU_MEM_FACT_MAX (include/nxu/config.h), and the interrupt of the EL1 physical timer.
  const CPU_BOUND: nat := 8
  const MEM_FACT_MAX: nat := 8

  type u8 = x: int | 0 <= x < 0x100
  type u32 = x: int | 0 <= x < 0x1_0000_0000
  type u64 = x: int | 0 <= x < 0x1_0000_0000_0000_0000

  const TIMER_PPI: u32 := 30

  function Add64(a: u64, b: u64): u64 {
    (a + b) % 0x1_0000_0000_0000_0000
  }

  /** page_up of room.c, mmu_policy.c and ownership.c: the addition wraps. */
  function PageUp(n: u64): (r: u64)
    ensures r % 0x1000 == 0
    ensures n + 0xfff < TWO64 ==> n <= r < n + 0x1000
    ensures n + 0xfff >= TWO64 ==> r == 0
  {
    Add64(n, 0xfff) / 0x1000 * 0x1000
  }

  function PageDown(n: u64): (r: u64)
    ensures r <= n < r + 0x1000 && r % 0x1000 == 0
  {
    n / 0x1000 * 0x1000
  }

  datatype Range = Range(base: u64, size: u64)

  predicate RangeOk(base: u64, size: u64) {
    size != 0 && !(Add64(base, size) < base)
  }

  predicate RangeContains(outerBase: u64, outerSize: u64, innerBase: u64, innerSize: u64) {
    && RangeOk(outerBase, outerSize)
    && RangeOk(innerBase, innerSize)
    && !(innerBase < outerBase)
    && !(Add64(innerBase, innerSize) > Add64(outerBase, outerSize))
  }

  predicate RangeOverlap(a: u64, asz: u64, b: u64, bsz: u64) {
    && RangeOk(a, asz)
    && RangeOk(b, bsz)
    && !(Add64(a, asz) <= b)
    && !(Add64(b, bsz) <= a)
  }

  /** The bytes a range denotes as a set of integers, without any wrap. */
  ghost predicate InRange(x: int, base: u64, size: u64) {
    base <= x < base + size
  }

  /** A range passes the check exactly when it is non-empty and ends below 2^64. */
  lemma RangeOkMeans(base: u64, size: u64)
    ensures RangeOk(base, size) <==> 0 < size && base + size < TWO64
  {
  }

  /** The modular comparison decides containment of the unwrapped byte sets. */
  lemma ContainsMeans(ob: u64, os: u64, ib: u64, isz: u64)
    ensures RangeContains(ob, os, ib, isz) <==>
            && RangeOk(ob, os) && RangeOk(ib, isz)
            && forall x :: InRange(x, ib, isz) ==> InRange(x, ob, os)
  {
    if RangeOk(ob, os) && RangeOk(ib, isz) {
      assert InRange(ib, ib, isz);
      assert InRange(ib + isz - 1, ib, isz);
    }
  }

  /** The modular comparison decides whether the unwrapped byte sets meet. */
  lemma OverlapMeans(a: u64, asz: u64, b: u64, bsz: u64)
    ensures RangeOverlap(a, asz, b, bsz) <==>
            && RangeOk(a, asz) && RangeOk(b, bsz)
            && exists x :: InRange(x, a, asz) && InRange(x, b, bsz)
  {
    if RangeOverlap(a, asz, b, bsz) {
      var x := if a < b then b else a;
      assert InRange(x, a, asz) && InRange(x, b, bsz);
    }
  }
}
