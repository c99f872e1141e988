/**
 Kernel-side vocabulary the mull device is written against: the errno values it
 returns and the 64-bit unsigned `ulong`/`size_t` counter type, whose additions
 wrap around modulo 2^64.
 */
module Kernel {

  /** Return value of a successful open/release (mull.c:43). */
  const SUCCESS: int := 0

  /** Linux errno values (include/uapi/asm-generic/errno-base.h). */
  const EFAULT: int := 14
  const EBUSY: int := 16
  const EINVAL: int := 22

  const ULONG_MODULUS: int := 0x1_0000_0000_0000_0000

  /** A 64-bit `ulong` or `size_t` value. */
  type ulong = x: int | 0 <= x < ULONG_MODULUS

  /** `a + b` computed in `ulong` arithmetic. */
  function AddUlong(a: ulong, b: ulong): (r: ulong)
    ensures a + b < ULONG_MODULUS ==> r == a + b
    ensures a + b >= ULONG_MODULUS ==> r == a + b - ULONG_MODULUS
  {
    (a + b) % ULONG_MODULUS
  }

  /** Reducing an intermediate sum modulo 2^64 does not change the final residue. */
  lemma AddModAssociates(a: int, b: int, c: int)
    requires a >= 0 && b >= 0 && c >= 0
    ensures ((a + b) % ULONG_MODULUS + c) % ULONG_MODULUS == (a + b + c) % ULONG_MODULUS
  {
  }
}
