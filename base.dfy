/** Machine integer types of the ATtiny13A firmware and a shared Option type. */
module Base {
  /** `uint8_t` */
  type byte = x: int | 0 <= x < 0x100

  /** `uint16_t` */
  type uint16 = x: int | 0 <= x < 0x1_0000

  /** A sum that fits in 16 bits is unchanged by the `uint16_t` wrap-around. */
  lemma NoWrap16(x: int)
    requires 0 <= x < 0x1_0000
    ensures x % 0x1_0000 == x
  {
  }

  datatype Option<+T> = None | Some(value: T)
}
