/** Machine integers of a 64-bit target, where a saturating operation is part of what is stated. */
module Machine {
  /** `usize::MAX`. */
  const USIZE_MAX := 0xFFFF_FFFF_FFFF_FFFF

  function Saturated(n: nat): nat {
    if n > USIZE_MAX then USIZE_MAX else n
  }

  function SaturatingAdd(a: nat, b: nat): nat {
    Saturated(a + b)
  }
}
