/** Machine words of the 64-bit build: unsigned values with explicit wrap-around. */
module Words {

  const W64 := 0x1_0000_0000_0000_0000
  const HALF64 := 0x8000_0000_0000_0000

  type Word = w: int | 0 <= w < W64

  /** The value a C cast from `ngx_atomic_uint_t` to `ngx_atomic_int_t` yields. */
  function Signed(w: Word): int {
    if w < HALF64 then w else w - W64
  }

  /** An unsigned sum or difference of two words, wrapped at 2^64. */
  function Wrap(x: int): Word
    requires -W64 <= x < 2 * W64
  {
    if x < 0 then x + W64 else if x >= W64 then x - W64 else x
  }
}
