/** 32-bit words as the C code uses them: values below 2^32, with sums and differences that wrap. */
module Words {
  const WORD: nat := 0x1_0000_0000
  const UINT32_MAX: nat := 0xFFFF_FFFF

  type uint32 = x: int | 0 <= x <= UINT32_MAX

  function Add32(a: uint32, b: uint32): uint32 { (a + b) % WORD }

  function Sub32(a: uint32, b: uint32): uint32 { (a - b) % WORD }
}
