/** Notions several files share. */
module Basics {

  datatype Option<T> = None | Some(value: T)

  const EINVAL: int := -22

  type Byte = b: int | 0 <= b < 256

  /** A register file; a register never written reads 0. */
  type Registers = map<nat, nat>

  function Reg(r: Registers, address: nat): nat { if address in r then r[address] else 0 }
}
