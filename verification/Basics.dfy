/** Types every other module uses: machine words, bytes and optional values. */
module Basics {

  /** A value of the C type uint32_t. */
  type Word = w: int | 0 <= w < 0x1_0000_0000

  /** A value of the C type uint16_t. */
  type Half = h: int | 0 <= h < 0x1_0000

  /** A value of the C type uint8_t. */
  type Byte = b: int | 0 <= b < 0x100

  type Pos = p: int | 1 <= p witness 1

  datatype Option<+T> = None | Some(value: T)

  /** `n` zero bytes. */
  function Zeros(n: nat): (z: seq<Byte>)
    ensures |z| == n
    ensures forall i :: 0 <= i < n ==> z[i] == 0
  {
    seq(n, _ => 0)
  }
}
