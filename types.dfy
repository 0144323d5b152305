/**
 * Machine integers, the nullable callback and the opaque callback token shared
 * by the timer entity, the registry and the dispatcher.
 */
module Types {

  const U32_MAX: int := 0xFFFF_FFFF
  const U64_MAX: int := 0xFFFF_FFFF_FFFF_FFFF

  /** `uint32_t` */
  type u32 = x: int | 0 <= x <= U32_MAX

  /** `uint64_t` */
  type u64 = x: int | 0 <= x <= U64_MAX

  /** `a + b` on `uint64_t`: the sum wraps around modulo 2^64. */
  function Add64(a: u64, b: u64): (r: u64)
    ensures a + b <= U64_MAX ==> r == a + b
    ensures a + b > U64_MAX ==> r == a + b - (U64_MAX + 1) && r < a
  {
    (a + b) % (U64_MAX + 1)
  }

  /** The cast `(uint32_t)x` of a `uint64_t`: keeps the low 32 bits. */
  function TruncateTo32(x: u64): (r: u32)
    ensures x <= U32_MAX ==> r == x
    ensures x > U32_MAX ==> r < x && (x - r) % (U32_MAX + 1) == 0
  {
    x % (U32_MAX + 1)
  }

  /** Truncation to 32 bits ignores a difference of 2^32. */
  lemma TruncateTo32Wraps(x: u64)
    requires x > U32_MAX
    ensures TruncateTo32(x) == TruncateTo32(x - (U32_MAX + 1))
  {
    var low := x - 0x1_0000_0000;
    assert x == (low / 0x1_0000_0000 + 1) * 0x1_0000_0000 + low % 0x1_0000_0000;
  }

  datatype Option<+T> = None | Some(value: T)

  /**
   * A `std::function<void()>` is opaque to the model: a callback is a token
   * that can only be stored, compared and handed back to be invoked.
   */
  datatype Callback = Callback(token: nat)
}
