/** What several parts of the model share: optional values, 32-bit words and the PSA success status. */
module Common {

  datatype Option<+T> = None | Some(value: T)

  type Int32 = x: int | -0x8000_0000 <= x < 0x8000_0000
  type UInt32 = x: int | 0 <= x < 0x1_0000_0000

  const PSA_SUCCESS: int := 0

  /** Two's complement of a 32-bit word. */
  function Signed(v: UInt32): (x: int)
    ensures -0x8000_0000 <= x < 0x8000_0000
  {
    if v < 0x8000_0000 then v else v - 0x1_0000_0000
  }

  function Unsigned(x: int): UInt32 {
    x % 0x1_0000_0000
  }

  lemma SignedUnsigned(x: int)
    requires -0x8000_0000 <= x < 0x8000_0000
    ensures Signed(Unsigned(x)) == x
  {
    if x < 0 {
      assert x % 0x1_0000_0000 == x + 0x1_0000_0000;
    }
  }
}
