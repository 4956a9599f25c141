/** Types shared by every modelled kernel file: the fixed-width C integer
    types, explicit wrap-around, the error numbers the code returns, and the
    Option/Result/Status shapes that replace NULL returns and negative error
    codes. */
module Kernel {

  type u8 = x: int | 0 <= x < 0x100
  type u16 = x: int | 0 <= x < 0x1_0000
  type u32 = x: int | 0 <= x < 0x1_0000_0000
  type u64 = x: int | 0 <= x < 0x1_0000_0000_0000_0000

  /** Truncating conversions, as C performs them on assignment or cast to an
      unsigned type (and as unsigned arithmetic wraps). */
  function U8(x: int): u8 { x % 0x100 }
  function U16(x: int): u16 { x % 0x1_0000 }
  function U32(x: int): u32 { x % 0x1_0000_0000 }
  function U64(x: int): u64 { x % 0x1_0000_0000_0000_0000 }

  const U64_MODULUS: int := 0x1_0000_0000_0000_0000

  /** The signed 32-bit C `int`. */
  type i32 = x: int | -0x8000_0000 <= x < 0x8000_0000

  /** Two's complement wrap to 32 bits: what an `int` holds after it
      overflows on the machines the kernel runs on (C leaves the overflow
      itself undefined). */
  function I32(x: int): i32
  {
    var m := x % 0x1_0000_0000;
    if m >= 0x8000_0000 then m - 0x1_0000_0000 else m
  }

  /** Incrementing a wrapped value wraps like incrementing the original. */
  lemma I32Inc(k: int)
    ensures I32(I32(k) + 1) == I32(k + 1)
  {
    var q := k / 0x1_0000_0000;
    var m := k % 0x1_0000_0000;
    assert k == q * 0x1_0000_0000 + m;
    var w := I32(k);
    assert w == m || w == m - 0x1_0000_0000;
    var m1 := (k + 1) % 0x1_0000_0000;
    if m + 1 == 0x1_0000_0000 {
      assert k + 1 == (q + 1) * 0x1_0000_0000;
      assert m1 == 0;
    } else {
      assert k + 1 == q * 0x1_0000_0000 + (m + 1);
      assert m1 == m + 1;
    }
  }

  /** Adding a multiple of 2^64 does not change the truncated value. */
  lemma U64Shift(x: int, q: int)
    ensures U64(x + q * U64_MODULUS) == U64(x)
  {
    var d := x / U64_MODULUS;
    assert x == d * U64_MODULUS + U64(x);
    assert x + q * U64_MODULUS == (d + q) * U64_MODULUS + U64(x);
  }

  /** A value already in range is unchanged by truncation. */
  lemma U64InRange(x: int)
    requires 0 <= x < U64_MODULUS
    ensures U64(x) == x
  {
  }

  /** Narrow truncations leave in-range values alone. */
  lemma NarrowInRange(x: int)
    ensures 0 <= x < 0x100 ==> U8(x) == x
    ensures 0 <= x < 0x1_0000 ==> U16(x) == x
  {
  }

  /** Truncating an intermediate sum does not change the truncated total. */
  lemma U64AddAbsorbs(a: int, b: int)
    ensures U64(U64(a) + b) == U64(a + b)
  {
    var d := a / U64_MODULUS;
    assert a == d * U64_MODULUS + U64(a);
    U64Shift(U64(a) + b, d);
  }

  /** Truncating after each of two additions is truncating once at the end. */
  lemma U64AddTwice(a: int, ua: int, b: int, c: int, sum: int)
    requires ua == U64(a) && a + b == sum
    ensures U64(U64(ua + b) + c) == U64(sum + c)
  {
    U64AddAbsorbs(a, b);
    U64AddAbsorbs(sum, c);
  }

  /** The all-ones u32 that `*value = -1` stores. */
  const ALL_ONES_32: u32 := 0xFFFF_FFFF

  /** Error numbers returned (negated) by the modelled code. */
  datatype Errno = ENOENT | ENXIO | ENOMEM | EEXIST | ENODEV | EINVAL | ENOSPC

  /** The positive value of each error number in the kernel's errno headers. */
  function Code(e: Errno): (c: int)
    ensures c > 0
  {
    match e
    case ENOENT => 2
    case ENXIO => 6
    case ENOMEM => 12
    case EEXIST => 17
    case ENODEV => 19
    case EINVAL => 22
    case ENOSPC => 28
  }

  datatype Option<T> = None | Some(value: T)

  /** A value on success, an error number on failure (`*out` written only on success). */
  datatype Result<T> = Ok(value: T) | Err(error: Errno)

  /** An `int` return that is 0 on success and a negated error number otherwise. */
  datatype Status = Success | Failure(error: Errno)

  /** The C return value of a Status. */
  function StatusCode(s: Status): (c: int)
    ensures c == 0 <==> s.Success?
    ensures c < 0 <==> s.Failure?
  {
    match s
    case Success => 0
    case Failure(e) => -Code(e)
  }
}
