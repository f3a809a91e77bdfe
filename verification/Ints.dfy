/** Go's fixed-width integer conversions. */
module Ints {
  const U32_LIMIT: int := 0x1_0000_0000
  const U64_LIMIT: int := 0x1_0000_0000_0000_0000
  const MIB: int := 0x10_0000

  function U32(n: int): nat {
    n % U32_LIMIT
  }

  function U64(n: int): nat {
    n % U64_LIMIT
  }

  function S32(n: int): int {
    var u := U32(n);
    if u < 0x8000_0000 then u else u - U32_LIMIT
  }

  function S64(n: int): int {
    var u := U64(n);
    if u < 0x8000_0000_0000_0000 then u else u - U64_LIMIT
  }

  /** Division that truncates toward zero. */
  function Quot(a: int, b: int): int
    requires b != 0
  {
    if a >= 0 then a / b else -((-a) / b)
  }

  function Min(a: int, b: int): int {
    if a <= b then a else b
  }

  function Max(a: int, b: int): int {
    if a >= b then a else b
  }

  lemma Distribute(x: int, y: int, p: int)
    ensures (x + y) * p == x * p + y * p
  {
  }

  lemma U32Small(n: nat)
    requires n < U32_LIMIT
    ensures U32(n) == n
  {
  }

  lemma U64Small(n: nat)
    requires n < U64_LIMIT
    ensures U64(n) == n
  {
  }

  lemma U32Add(a: int, b: int)
    ensures U32(U32(a) + b) == U32(a + b)
  {
  }

  lemma U64Add(a: int, b: int)
    ensures U64(U64(a) + b) == U64(a + b)
  {
  }
}
