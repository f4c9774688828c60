/**
 * Types shared by the component models.
 */
module Common {

  /** An unsigned 8-bit value; text handled by the byte-oriented codecs is a sequence of these. */
  type byte = x: int | 0 <= x < 256

  datatype Option<+T> = None | Some(value: T)

  const TWO_32: int := 0x1_0000_0000
  const TWO_64: int := 0x1_0000_0000_0000_0000
}
