/** What several parts of the kernel have in common. */
module Common {
  const PAGE_SIZE := 0x1000
  const WORD := 0x1_0000_0000_0000_0000
  const MAX_CPUS := 8
  const MAX_ORDER := 10

  type Cpu = c: nat | c < MAX_CPUS witness 0

  datatype Option<+T> = None | Some(value: T)

  function Pow2(n: nat): (p: nat)
    ensures p >= 1
  {
    if n == 0 then 1 else 2 * Pow2(n - 1)
  }
}
