/** Signed machine words. */
module Words {
  import opened Arith

  const INT32_LIMIT := 0x8000_0000
  const INT64_LIMIT := 0x8000_0000_0000_0000

  /** A mathematical integer truncated to a signed 32-bit word. */
  function Int32(x: int): int {
    (x + INT32_LIMIT) % (2 * INT32_LIMIT) - INT32_LIMIT
  }

  /** A mathematical integer truncated to a signed 64-bit word. */
  function Int64(x: int): int {
    (x + INT64_LIMIT) % (2 * INT64_LIMIT) - INT64_LIMIT
  }

  /** The remainder of the programs' language: it has the sign of the dividend. */
  function Rem(a: int, b: int): int
    requires b > 0
  {
    if a >= 0 then a % b else -((-a) % b)
  }

  lemma Wraps(x: int, half: int, m: int)
    requires 1 <= half && m == 2 * half
    ensures var w := (x + half) % m - half; -half <= w < half && (x - w) % m == 0
  {
    RestIsMultiple(x + half, m);
  }

  /** Truncation gives the one number of the word's range that differs by a multiple of its size. */
  lemma Truncated(x: int)
    ensures -0x8000_0000 <= Int32(x) < 0x8000_0000 && (x - Int32(x)) % 0x1_0000_0000 == 0
    ensures -0x8000_0000_0000_0000 <= Int64(x) < 0x8000_0000_0000_0000
    ensures (x - Int64(x)) % 0x1_0000_0000_0000_0000 == 0
  {
    Wraps(x, INT32_LIMIT, 2 * INT32_LIMIT);
    Wraps(x, INT64_LIMIT, 2 * INT64_LIMIT);
  }

  /** The remainder leads to a multiple of b nearer to 0. */
  lemma RemTruncates(a: int, b: int)
    requires b > 0
    ensures (a - Rem(a, b)) % b == 0 && -b < Rem(a, b) < b && (if a >= 0 then Rem(a, b) >= 0 else Rem(a, b) <= 0)
  {
    RestIsMultiple(if a >= 0 then a else -a, b);
  }
}
