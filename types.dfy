/** Machine-level value types shared by the firmware model. */
module Types {

  /** A 16-bit unsigned value (I/O port numbers, segment selectors). */
  type u16 = x: int | 0 <= x < 0x1_0000

  /** A 32-bit unsigned value (linear addresses, stack pointers, counters). */
  type u32 = x: int | 0 <= x < 0x1_0000_0000

  /** A linear address in the 32-bit flat address space. */
  type Addr = u32

  /** The result of an operation that may produce nothing (a NULL pointer). */
  datatype Option<+T> = None | Some(value: T)
}
