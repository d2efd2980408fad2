/** Machine integer widths used by the monitor, and an optional value. */
module Types {
  /** `uint16_t`: distances in millimetres and zone bounds. */
  type uint16 = x: int | 0 <= x < 0x1_0000

  /** `uint32_t`: the millisecond clock and the update interval. */
  type uint32 = x: int | 0 <= x < 0x1_0000_0000

  /** A value that may be absent: a missing zone, or no sensor data ready. */
  datatype Option<T> = None | Some(value: T)
}
