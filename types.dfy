/** Value types shared by the LCD driver, the sensor and the controller. */
module Types {

  /** An 8-bit register value or a `char` on the LCD bus. */
  type Byte = x: int | 0 <= x < 256

  /** The level of one digital pin. */
  type Bit = b: int | 0 <= b <= 1

  datatype Option<+T> = None | Some(value: T)
}
