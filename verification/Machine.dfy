/** The units of the machine: bytes, and the range of `size_t` and `uint64_t`. */
module Machine {
  type Byte = b: int | 0 <= b < 256
  type Bytes = seq<Byte>

  const UINT64_WRAP: nat := 0x1_0000_0000_0000_0000
}
