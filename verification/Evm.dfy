/** Widths of the EVM's integers, and calls that may revert. */
module Evm {

  const TWO_64: int := 0x1_0000_0000_0000_0000
  const TWO_96: int := 0x1_0000_0000_0000_0000_0000_0000
  const TWO_128: int := 0x1_0000_0000_0000_0000_0000_0000_0000_0000
  const TWO_160: int := 0x1_0000_0000_0000_0000_0000_0000_0000_0000_0000_0000
  const TWO_192: int := 0x1_0000_0000_0000_0000_0000_0000_0000_0000_0000_0000_0000_0000
  const TWO_256: int := 0x1_0000_0000_0000_0000_0000_0000_0000_0000_0000_0000_0000_0000_0000_0000_0000_0000

  type Uint256 = x: int | 0 <= x < TWO_256

  /** What an external call leaves behind: a value, or nothing at all. */
  datatype Outcome<+T> = Ok(value: T) | Revert

  /** Checked addition and multiplication of Solidity 0.8. */
  function CheckedAdd(a: nat, b: nat): Outcome<nat> {
    if a + b < TWO_256 then Ok(a + b) else Revert
  }

  function CheckedMul(a: nat, b: nat): Outcome<nat> {
    if a * b < TWO_256 then Ok(a * b) else Revert
  }
}
