/** Shared vocabulary of the libretro stream-normalisation layer: machine
    integer ranges, an optional value, and a cell standing for a C
    out-parameter. */
module Common {

  /** An unsigned 8-bit value (`uint8_t`). */
  type byte = x: int | 0 <= x < 0x100

  /** A signed 16-bit value (`int16_t`), the PCM sample and input-axis type. */
  type int16 = x: int | -0x8000 <= x < 0x8000

  /** An unsigned 32-bit value (`uint32_t`). */
  type uint32 = x: int | 0 <= x < 0x1_0000_0000

  datatype Option<+T> = None | Some(value: T)

  /** The memory a non-null C out-parameter (`T*`) points to; a null
      pointer is a `null` reference of type `Cell?<T>`. */
  class Cell<T> {
    var value: T

    constructor (v: T)
      ensures value == v
    {
      value := v;
    }
  }
}
