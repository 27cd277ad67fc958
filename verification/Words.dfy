/** uint64_t: a number below 2^64, every result reduced modulo 2^64. */
module Words {

  type u64 = x: int | 0 <= x < 0x1_0000_0000_0000_0000

  function Wrap(x: int): u64 { x % 0x1_0000_0000_0000_0000 }
}
