/** Shared types of the core: options, privilege modes, access kinds and atomic operations. */
module Eei {

  datatype Option<+T> = None | Some(value: T)

  datatype PrivMode = U | S | M

  datatype AccessType = Read | Write | Exec

  /** Two to the width of a register. */
  const P64: nat := 0x1_0000_0000_0000_0000

  datatype AmoOp = LR | SC | SWAP | ADD | XOR | AND | OR | MIN | MAX | MINU | MAXU
}
