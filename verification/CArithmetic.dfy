/** Integer arithmetic as C++ does it. */
module CArithmetic {

  /** Division truncates toward zero. */
  function Truncated(a: int, b: nat): int
    requires b > 0
  {
    if a >= 0 then a / b else -(-a / b)
  }

  /** A cast to `int` keeps the low 32 bits. */
  function ToInt(n: int): (r: int)
    ensures -0x8000_0000 <= r < 0x8000_0000
  {
    (n + 0x8000_0000) % 0x1_0000_0000 - 0x8000_0000
  }

  lemma ToIntKeeps(n: int)
    requires -0x8000_0000 <= n < 0x8000_0000
    ensures ToInt(n) == n
  {
  }

  function Pow2(n: nat): (p: nat)
    ensures p >= 1
  {
    if n == 0 then 1 else 2 * Pow2(n - 1)
  }

  lemma {:induction false} Pow2Gap(m: nat, n: nat)
    requires m < n
    ensures 2 * Pow2(m) <= Pow2(n)
    decreases n - m
  {
    if m + 1 < n {
      Pow2Gap(m + 1, n);
    }
  }
}
