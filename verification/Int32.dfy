/** 32-bit signed arithmetic. */
module Int32 {
  const TWO_31: int := 0x8000_0000
  const TWO_32: int := 0x1_0000_0000

  function Wrap32(x: int): (r: int)
    ensures -TWO_31 <= r < TWO_31
    ensures (x - r) % TWO_32 == 0
  {
    (x + TWO_31) % TWO_32 - TWO_31
  }

  lemma WrapSmall(x: int)
    requires -TWO_31 <= x < TWO_31
    ensures Wrap32(x) == x
  {
  }

  /** Division and remainder that round toward zero. */
  function TruncDiv(a: int, b: nat): int
    requires b > 0
  {
    if a >= 0 then a / b else -(-a / b)
  }

  function TruncMod(a: int, b: nat): int
    requires b > 0
  {
    if a >= 0 then a % b else -(-a % b)
  }

  lemma TruncatesTowardZero(a: int, b: nat)
    requires b > 0
    ensures a == b * TruncDiv(a, b) + TruncMod(a, b) && 0 < TruncMod(a, b) + b < 2 * b
    ensures if a >= 0 then TruncMod(a, b) >= 0 else TruncMod(a, b) <= 0
  {
    assert a < 0 ==> -a == b * (-a / b) + -a % b;
  }
}
