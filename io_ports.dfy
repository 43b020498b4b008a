/** The PC/AT I/O ports used by the core and the trace of port accesses. */
module IoPorts {
  import opened Types

  /** Command and data ports of the master and slave i8259 interrupt controllers. */
  const PORT_PIC1_CMD: u16 := 0x0020
  const PORT_PIC1_DATA: u16 := 0x0021
  const PORT_PIC2_CMD: u16 := 0x00a0
  const PORT_PIC2_DATA: u16 := 0x00a1

  /** Index and data ports of the CMOS real-time clock. */
  const PORT_CMOS_INDEX: u16 := 0x0070
  const PORT_CMOS_DATA: u16 := 0x0071

  /** Bit 7 of the CMOS index port masks the non-maskable interrupt. */
  const NMI_DISABLE_BIT: bv8 := 0x80

  /** One access to an I/O port, in the order the CPU issues it. */
  datatype IoOp = Inb(port: u16) | Outb(port: u16, value: bv8)
}
