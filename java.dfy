/** Java value semantics the storage engine relies on: the ranges of `long`
    and `int`, two's-complement wrap-around of `long` arithmetic, bytes, and
    the two exception kinds the core raises, as a result type. */
module Java {

  const LONG_MIN: int := -0x8000_0000_0000_0000
  const LONG_MAX: int := 0x7FFF_FFFF_FFFF_FFFF
  const INT_MIN: int := -0x8000_0000
  const INT_MAX: int := 0x7FFF_FFFF
  /** 2^64, the modulus of `long` arithmetic */
  const LONG_MODULUS: int := 0x1_0000_0000_0000_0000

  predicate IsLong(x: int) { LONG_MIN <= x <= LONG_MAX }
  predicate IsInt(x: int) { INT_MIN <= x <= INT_MAX }

  /** An unsigned byte as stored in a page buffer. */
  type byte = b: int | 0 <= b < 256
  type Bytes = seq<byte>

  /** The value a Java `long` holds after an operation whose exact result is x. */
  function WrapLong(x: int): (r: int)
    ensures IsLong(r)
    ensures (r - x) % LONG_MODULUS == 0
    ensures IsLong(x) ==> r == x
  {
    (x - LONG_MIN) % LONG_MODULUS + LONG_MIN
  }

  /** The value a Java `int` holds after an operation whose exact result is x. */
  function WrapInt(x: int): (r: int)
    ensures IsInt(r)
    ensures (r - x) % 0x1_0000_0000 == 0
    ensures IsInt(x) ==> r == x
  {
    (x - INT_MIN) % 0x1_0000_0000 + INT_MIN
  }

  /** `a - b` on Java longs. */
  function SubLong(a: int, b: int): (r: int)
    requires IsLong(a) && IsLong(b)
    ensures IsLong(r)
    ensures IsLong(a - b) ==> r == a - b
    ensures a - b > LONG_MAX ==> r == a - b - LONG_MODULUS
    ensures a - b < LONG_MIN ==> r == a - b + LONG_MODULUS
  {
    WrapLong(a - b)
  }

  /** `Math.abs` on a Java long: the only long without a positive
      counterpart, Long.MIN_VALUE, is returned unchanged. */
  function AbsLong(x: int): (r: int)
    requires IsLong(x)
    ensures IsLong(r)
    ensures x != LONG_MIN ==> r >= 0 && (r == x || r == -x)
    ensures x == LONG_MIN ==> r == LONG_MIN
  {
    if x < 0 then WrapLong(-x) else x
  }

  /** The exceptions the core raises besides I/O failures. */
  datatype Error = IndexOutOfBounds | IllegalArgument

  datatype Result<+T> = Ok(value: T) | Err(error: Error)

  /** The outcome of a `void` operation: it returned, or it threw. */
  datatype Outcome = Done | Failed(error: Error)

  /** A Java reference that may be `null`. */
  datatype Option<+T> = None | Some(value: T)
}
