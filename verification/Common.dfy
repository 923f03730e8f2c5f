/** Stock types shared by the models. */
module Common {

  datatype Option<+T> = None | Some(value: T)

  const U32_MAX: int := 0xFFFF_FFFF

  type u32 = n: int | 0 <= n <= 0xFFFF_FFFF

  /** Attempts that a limit allows: the first one is always made. */
  function Budget(maxAttempts: u32): nat {
    if maxAttempts < 1 then 1 else maxAttempts
  }

  ghost predicate Distinct<T>(s: seq<T>) {
    forall i, j | 0 <= i < j < |s| :: s[i] != s[j]
  }

  function SaturatingInc(n: u32): u32 {
    if n == U32_MAX then n else n + 1
  }
}
