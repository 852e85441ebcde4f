/** What several components share. */
module Basics {

  datatype Option<T> = None | Some(value: T)

  /** The number of values of a `size_t`, whose arithmetic is modulo this. */
  const WORD := 0x1_0000_0000_0000_0000

  function Min(a: nat, b: nat): nat { if a < b then a else b }

  function Max(a: int, b: int): int { if a < b then b else a }

  /** The only multiple of `n` in [0, n) is zero. */
  lemma MulSmall(n: nat, k: int)
    ensures 0 <= n * k < n ==> k == 0
  {
    if k >= 1 { assert n * k >= n; } else if k <= -1 { assert n * -k >= n; }
  }
}
