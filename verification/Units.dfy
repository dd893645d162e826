/** Sizes shared by the modules. */
module Units {
  const PAGESIZE: nat := 0x1000
  const U64: nat := 0x1_0000_0000_0000_0000

  function Min(a: nat, b: nat): nat { if a <= b then a else b }
}
