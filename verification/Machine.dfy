/** The machine's own numbers: `usize`, which saturates where the program asks for it. */
module Machine {
  const USIZE_MAX := 0xFFFF_FFFF_FFFF_FFFF

  type Usize = n: nat | n <= USIZE_MAX

  function Saturated(n: nat): Usize {
    if n <= USIZE_MAX then n else USIZE_MAX
  }
}
