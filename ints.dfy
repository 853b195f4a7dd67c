/** Machine integer widths used by the tracker: `unsigned short`, `uint` (32 bits)
    and the wrap-around of C++ increment and decrement on them. */
module Ints {

  const U16_LIMIT: int := 0x1_0000
  const U32_LIMIT: int := 0x1_0000_0000

  newtype uint16 = x: int | 0 <= x < 0x1_0000
  newtype uint32 = x: int | 0 <= x < 0x1_0000_0000

  /** `++x` on an `unsigned short` */
  function Inc16(x: uint16): uint16
  {
    if x as int == U16_LIMIT - 1 then 0 else x + 1
  }

  /** `++x` on a `uint` */
  function Inc32(x: uint32): uint32
  {
    if x as int == U32_LIMIT - 1 then 0 else x + 1
  }

  /** `--x` on a `uint` (wraps from 0 to 2^32 - 1) */
  function Dec32(x: uint32): uint32
  {
    if x == 0 then (U32_LIMIT - 1) as uint32 else x - 1
  }

  /** `++` and `--` wrap around: they add or subtract one modulo the width. */
  lemma WrapModulo(a: uint16, x: uint32)
    ensures Inc16(a) as int == (a as int + 1) % U16_LIMIT
    ensures Inc32(x) as int == (x as int + 1) % U32_LIMIT
    ensures Dec32(x) as int == (x as int - 1) % U32_LIMIT
  {
  }

  /** `n` successive increments of a `uint`. */
  function Add32(x: uint32, n: nat): uint32
    decreases n
  {
    if n == 0 then x else Add32(Inc32(x), n - 1)
  }

  /** `n` increments add `n` modulo 2^32. */
  lemma {:induction false} Add32Modulo(x: uint32, n: nat)
    ensures Add32(x, n) as int == (x as int + n) % U32_LIMIT
    decreases n
  {
    if n > 0 {
      Add32Modulo(Inc32(x), n - 1);
      if x as int == U32_LIMIT - 1 {
        assert x as int + n == (n - 1) + U32_LIMIT;
      }
    }
  }

  /** Without wrap-around, `n` increments add exactly `n`. */
  lemma {:induction false} Add32NoWrap(x: uint32, n: nat)
    requires x as int + n < U32_LIMIT
    ensures Add32(x, n) as int == x as int + n
    decreases n
  {
    if n > 0 {
      Add32NoWrap(Inc32(x), n - 1);
    }
  }

  /** `n` successive decrements of a `uint`. */
  function Sub32(x: uint32, n: nat): uint32
    decreases n
  {
    if n == 0 then x else Sub32(Dec32(x), n - 1)
  }

  /** `n` decrements subtract `n` modulo 2^32. */
  lemma {:induction false} Sub32Modulo(x: uint32, n: nat)
    ensures Sub32(x, n) as int == (x as int - n) % U32_LIMIT
    decreases n
  {
    if n > 0 {
      Sub32Modulo(Dec32(x), n - 1);
      if x == 0 {
        assert Dec32(x) as int - (n - 1) == (x as int - n) + U32_LIMIT;
      }
    }
  }

  /** `n` increments followed by `m` decrements move by `n - m` modulo 2^32. */
  lemma Sub32AfterAdd32(x: uint32, n: nat, m: nat)
    ensures Sub32(Add32(x, n), m) as int == (x as int + n - m) % U32_LIMIT
  {
    Add32Modulo(x, n);
    Sub32Modulo(Add32(x, n), m);
    var a := x as int + n;
    assert a == (a / U32_LIMIT) * U32_LIMIT + a % U32_LIMIT;
  }
}
