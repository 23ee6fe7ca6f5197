/** Fixed-width unsigned integers of the C sources, and an optional value. */
module CTypes {

  type uint8 = x: int | 0 <= x < 0x100
  type uint16 = x: int | 0 <= x < 0x1_0000
  type uint32 = x: int | 0 <= x < 0x1_0000_0000

  /** Conversion of an arithmetic result to `uint8_t` (wraps modulo 256). */
  function Wrap8(x: int): (r: uint8)
    ensures 0 <= x < 0x100 ==> r == x
    ensures x == 0x100 ==> r == 0
  {
    x % 0x100
  }

  /** Conversion of an arithmetic result to `uint32_t` (wraps modulo 2^32). */
  function Wrap32(x: int): (r: uint32)
    ensures 0 <= x < 0x1_0000_0000 ==> r == x
    ensures x == 0x1_0000_0000 ==> r == 0
  {
    x % 0x1_0000_0000
  }

  /** A callback that may be NULL, or any other optional value. */
  datatype Option<T> = None | Some(value: T)
}
