/** Fixed-width integers, addresses and time, as the C++ sources use them. */
module Types {
  const TWO8 := 0x100
  const TWO16 := 0x1_0000
  const TWO31 := 0x8000_0000
  const TWO32 := 0x1_0000_0000

  type uint8 = x: int | 0 <= x < TWO8
  type uint16 = x: int | 0 <= x < TWO16
  type uint32 = x: int | 0 <= x < TWO32

  /** An `Ipv4Address` is its 32-bit value; the null address is 0.0.0.0. */
  type Address = uint32
  const NULL_ADDRESS: Address := 0

  /** A point on the simulator clock, or a duration, in milliseconds. */
  type Time = int

  datatype Option<T> = None | Some(value: T)
}
