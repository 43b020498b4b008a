/**
 * The helpers for the two cascaded i8259 interrupt controllers: the
 * read-modify-write updates of the interrupt-mask registers, the
 * end-of-interrupt and read-in-service command words, and the choice of
 * controller, mask bit and real-mode vector for a hardware IRQ.
 */
module Pic {
  import opened Types
  import opened IoPorts

  /** Bits of the PIC1 mask register that the firmware names (IRQ0, 1, 2, 5, 6). */
  const PIC1_IRQ0: bv8 := 1 << 0
  const PIC1_IRQ1: bv8 := 1 << 1
  const PIC1_IRQ2: bv8 := 1 << 2
  const PIC1_IRQ5: bv8 := 1 << 5
  const PIC1_IRQ6: bv8 := 1 << 6
  /** Bits of the PIC2 mask register that the firmware names (IRQ8, 12, 13, 14). */
  const PIC2_IRQ8: bv8 := 1 << 0
  const PIC2_IRQ12: bv8 := 1 << 4
  const PIC2_IRQ13: bv8 := 1 << 5
  const PIC2_IRQ14: bv8 := 1 << 6

  /** OCW2 with the EOI bit: non-specific end of interrupt. */
  const OCW2_EOI: bv8 := 0x20
  /** OCW3 with RR and RIS set: the next read of the command port returns the in-service register. */
  const OCW3_READ_ISR: bv8 := 0x0b

  /** Bit `b` of `x` is set. */
  predicate Bit(x: bv8, b: nat)
    requires b < 8
  {
    (x >> b) & 1 == 1
  }

  /** The mask with the bits of `irq` cleared (unmask_pic1/2). */
  function Unmasked(mask: bv8, irq: bv8): (r: bv8)
    ensures forall b: nat :: b < 8 ==> (Bit(r, b) <==> Bit(mask, b) && !Bit(irq, b))
  {
    AndNotBits(mask, irq);
    mask & !irq
  }

  /** Bit by bit, `x & !y` holds the bits of `x` that are not in `y`. */
  lemma AndNotBits(x: bv8, y: bv8)
    ensures forall b: nat :: b < 8 ==> (Bit(x & !y, b) <==> Bit(x, b) && !Bit(y, b))
  {
    forall b: nat | b < 8 ensures Bit(x & !y, b) <==> Bit(x, b) && !Bit(y, b) {
      if b == 0 {} else if b == 1 {} else if b == 2 {} else if b == 3 {}
      else if b == 4 {} else if b == 5 {} else if b == 6 {} else {}
    }
  }

  /** The mask with the bits of `irq` set (mask_pic1/2). */
  function Masked(mask: bv8, irq: bv8): (r: bv8)
    ensures forall b: nat :: b < 8 ==> (Bit(r, b) <==> Bit(mask, b) || Bit(irq, b))
  {
    mask | irq
  }

  /** Masking the same bits twice is masking them once. */
  lemma MaskIdempotent(mask: bv8, irq: bv8)
    ensures Masked(Masked(mask, irq), irq) == Masked(mask, irq)
  {
  }

  /** Unmasking undoes masking on the bits concerned, whatever they were before. */
  lemma UnmaskAfterMask(mask: bv8, irq: bv8)
    ensures Unmasked(Masked(mask, irq), irq) == Unmasked(mask, irq)
    ensures Masked(Unmasked(mask, irq), irq) == Masked(mask, irq)
  {
  }

  /**
   * The mask bit of hardware IRQ `hwirq` on its own controller: bit
   * `hwirq` of PIC1 for IRQ0-7, bit `hwirq - 8` of PIC2 for IRQ8-15.
   */
  function IrqBit(hwirq: int): (r: bv8)
    requires 0 <= hwirq < 16
    ensures forall b: nat :: b < 8 ==> (Bit(r, b) <==> b == hwirq % 8)
  {
    if hwirq < 8 then 1 << hwirq else 1 << (hwirq - 8)
  }

  /**
   * The real-mode interrupt vector of hardware IRQ `hwirq`, in the IBM PC/AT
   * layout: IRQ0-7 at vectors 0x08-0x0F, IRQ8-15 at vectors 0x70-0x77.
   */
  function EnableVector(hwirq: int): (v: int)
    requires 0 <= hwirq < 16
    ensures hwirq < 8 ==> 0x08 <= v <= 0x0f
    ensures 8 <= hwirq ==> 0x70 <= v <= 0x77
    ensures v % 8 == hwirq % 8
  {
    if hwirq < 8 then 0x08 + hwirq else 0x70 + hwirq - 8
  }

  /** The hardware IRQ behind one of the sixteen hardware-interrupt vectors. */
  function IrqOfVector(v: int): (hwirq: int)
    requires 0x08 <= v <= 0x0f || 0x70 <= v <= 0x77
    ensures 0 <= hwirq < 16
  {
    if v <= 0x0f then v - 0x08 else v - 0x70 + 8
  }

  /**
   * The vector map is one-to-one: every hardware IRQ gets its own vector,
   * and the IRQ can be read back from it.
   */
  lemma VectorRoundTrip(hwirq: int)
    requires 0 <= hwirq < 16
    ensures IrqOfVector(EnableVector(hwirq)) == hwirq
    ensures forall h :: 0 <= h < 16 && h != hwirq ==> EnableVector(h) != EnableVector(hwirq)
  {
    forall h | 0 <= h < 16 && h != hwirq ensures EnableVector(h) != EnableVector(hwirq) {
      assert IrqOfVector(EnableVector(h)) == h;
    }
  }

  /**
   * Which register a read of the command port returns after the command
   * word `cmd`, `isr` telling whether it was the in-service register before:
   * an ICW1 (bit 4 set) resets the choice to the request register; an OCW3
   * (bits 4-3 equal to 01) with RR set selects by RIS; an OCW2 (bits 4-3
   * equal to 00) leaves the choice alone.
   */
  function ReadsIsrAfter(cmd: bv8, isr: bool): (r: bool)
    ensures cmd & 0x18 == 0x00 ==> r == isr
    ensures cmd & 0x10 != 0 ==> !r
    ensures cmd == OCW3_READ_ISR ==> r
  {
    if cmd & 0x10 != 0 then false
    else if cmd & 0x18 == 0x08 && cmd & 0x02 != 0 then cmd & 0x01 != 0
    else isr
  }

  /**
   * The lowest-numbered bit set in `x`: in fully nested mode, the
   * in-service IRQ of highest priority.
   */
  function LowestSetBit(x: bv8): (k: nat)
    requires x != 0
    ensures k < 8 && Bit(x, k)
    ensures forall j: nat :: j < k ==> !Bit(x, j)
  {
    if x & 0x01 != 0 then 0
    else if x & 0x02 != 0 then 1
    else if x & 0x04 != 0 then 2
    else if x & 0x08 != 0 then 3
    else if x & 0x10 != 0 then 4
    else if x & 0x20 != 0 then 5
    else if x & 0x40 != 0 then 6
    else 7
  }

  /**
   * The in-service register after a non-specific EOI: the bit of highest
   * priority is cleared and every other bit is kept; with nothing in
   * service, nothing changes.
   */
  function EoiCleared(isr: bv8): (r: bv8)
    ensures isr == 0 ==> r == 0
    ensures isr != 0 ==> forall b: nat :: b < 8 ==> (Bit(r, b) <==> Bit(isr, b) && b != LowestSetBit(isr))
  {
    if isr == 0 then 0
    else
      ClearLowestBit(isr);
      isr & (isr - 1)
  }

  /** Bit by bit, `x & (x - 1)` is `x` without its lowest set bit. */
  lemma ClearLowestBit(x: bv8)
    requires x != 0
    ensures forall b: nat :: b < 8 ==> (Bit(x & (x - 1), b) <==> Bit(x, b) && b != LowestSetBit(x))
  {
    var k := LowestSetBit(x);
    forall b: nat | b < 8 ensures Bit(x & (x - 1), b) <==> Bit(x, b) && b != k {
      if k == 0 {} else if k == 1 {} else if k == 2 {} else if k == 3 {}
      else if k == 4 {} else if k == 5 {} else if k == 6 {} else {}
    }
  }

  /** A handler handed to __set_irq for a vector. */
  datatype IrqInstall = IrqInstall(vector: int, handler: Addr)

  /**
   * The two cascaded controllers as the firmware sees them through their
   * ports, the port accesses made so far, and the vectors handed to
   * __set_irq.
   */
  class PicPair {
    /** Interrupt-mask registers, read and written through the data ports. */
    var imr1: bv8
    var imr2: bv8
    /** Interrupt-request and in-service registers, read through the command ports. */
    var irr1: bv8
    var irr2: bv8
    var isr1: bv8
    var isr2: bv8
    /** Whether the command port of each controller reads back the in-service register. */
    var readIsr1: bool
    var readIsr2: bool
    var io: seq<IoOp>
    var installs: seq<IrqInstall>

    /** An `outb` to one of the four controller ports. */
    method WritePort(port: u16, value: bv8)
      requires port in {PORT_PIC1_CMD, PORT_PIC1_DATA, PORT_PIC2_CMD, PORT_PIC2_DATA}
      modifies this
      ensures io == old(io) + [Outb(port, value)] && installs == old(installs)
      ensures imr1 == (if port == PORT_PIC1_DATA then value else old(imr1))
      ensures imr2 == (if port == PORT_PIC2_DATA then value else old(imr2))
      ensures readIsr1 == (if port == PORT_PIC1_CMD then ReadsIsrAfter(value, old(readIsr1)) else old(readIsr1))
      ensures readIsr2 == (if port == PORT_PIC2_CMD then ReadsIsrAfter(value, old(readIsr2)) else old(readIsr2))
      ensures isr1 == (if port == PORT_PIC1_CMD && value == OCW2_EOI then EoiCleared(old(isr1)) else old(isr1))
      ensures isr2 == (if port == PORT_PIC2_CMD && value == OCW2_EOI then EoiCleared(old(isr2)) else old(isr2))
      ensures irr1 == old(irr1) && irr2 == old(irr2)
    {
      io := io + [Outb(port, value)];
      if port == PORT_PIC1_DATA {
        imr1 := value;
      } else if port == PORT_PIC2_DATA {
        imr2 := value;
      } else if port == PORT_PIC1_CMD {
        readIsr1 := ReadsIsrAfter(value, readIsr1);
        if value == OCW2_EOI {
          isr1 := EoiCleared(isr1);
        }
      } else {
        readIsr2 := ReadsIsrAfter(value, readIsr2);
        if value == OCW2_EOI {
          isr2 := EoiCleared(isr2);
        }
      }
    }

    /** An `inb` from one of the four controller ports. */
    method ReadPort(port: u16) returns (value: bv8)
      requires port in {PORT_PIC1_CMD, PORT_PIC1_DATA, PORT_PIC2_CMD, PORT_PIC2_DATA}
      modifies this
      ensures io == old(io) + [Inb(port)]
      ensures value == if port == PORT_PIC1_DATA then imr1
                       else if port == PORT_PIC2_DATA then imr2
                       else if port == PORT_PIC1_CMD then (if readIsr1 then isr1 else irr1)
                       else (if readIsr2 then isr2 else irr2)
      ensures imr1 == old(imr1) && imr2 == old(imr2) && readIsr1 == old(readIsr1) && readIsr2 == old(readIsr2)
      ensures irr1 == old(irr1) && irr2 == old(irr2) && isr1 == old(isr1) && isr2 == old(isr2)
      ensures installs == old(installs)
    {
      io := io + [Inb(port)];
      if port == PORT_PIC1_DATA {
        value := imr1;
      } else if port == PORT_PIC2_DATA {
        value := imr2;
      } else if port == PORT_PIC1_CMD {
        value := if readIsr1 then isr1 else irr1;
      } else {
        value := if readIsr2 then isr2 else irr2;
      }
    }

    /**
     * eoi_pic1: a non-specific EOI to PIC1, which takes its highest-priority
     * IRQ out of service; the masks stay as they are.
     */
    method Eoi1()
      modifies this
      ensures io == old(io) + [Outb(PORT_PIC1_CMD, OCW2_EOI)]
      ensures isr1 == EoiCleared(old(isr1)) && isr2 == old(isr2)
      ensures imr1 == old(imr1) && imr2 == old(imr2) && readIsr1 == old(readIsr1) && readIsr2 == old(readIsr2)
      ensures installs == old(installs)
      ensures irr1 == old(irr1) && irr2 == old(irr2)
    {
      WritePort(PORT_PIC1_CMD, OCW2_EOI);
    }

    /**
     * eoi_pic2: a non-specific EOI to PIC2, then one to PIC1 (the cascade
     * input); each takes its controller's highest-priority IRQ out of service.
     */
    method Eoi2()
      modifies this
      ensures io == old(io) + [Outb(PORT_PIC2_CMD, OCW2_EOI), Outb(PORT_PIC1_CMD, OCW2_EOI)]
      ensures isr2 == EoiCleared(old(isr2)) && isr1 == EoiCleared(old(isr1))
      ensures imr1 == old(imr1) && imr2 == old(imr2) && readIsr1 == old(readIsr1) && readIsr2 == old(readIsr2)
      ensures installs == old(installs)
      ensures irr1 == old(irr1) && irr2 == old(irr2)
    {
      WritePort(PORT_PIC2_CMD, OCW2_EOI);
      Eoi1();
    }

    /** unmask_pic1: clear exactly the bits of `irq` in PIC1's mask. */
    method Unmask1(irq: bv8)
      modifies this
      ensures imr1 == Unmasked(old(imr1), irq) && imr2 == old(imr2)
      ensures io == old(io) + [Inb(PORT_PIC1_DATA), Outb(PORT_PIC1_DATA, Unmasked(old(imr1), irq))]
      ensures readIsr1 == old(readIsr1) && readIsr2 == old(readIsr2) && installs == old(installs)
      ensures irr1 == old(irr1) && irr2 == old(irr2) && isr1 == old(isr1) && isr2 == old(isr2)
    {
      var m := ReadPort(PORT_PIC1_DATA);
      WritePort(PORT_PIC1_DATA, m & !irq);
    }

    /** unmask_pic2: clear exactly the bits of `irq` in PIC2's mask. */
    method Unmask2(irq: bv8)
      modifies this
      ensures imr2 == Unmasked(old(imr2), irq) && imr1 == old(imr1)
      ensures io == old(io) + [Inb(PORT_PIC2_DATA), Outb(PORT_PIC2_DATA, Unmasked(old(imr2), irq))]
      ensures readIsr1 == old(readIsr1) && readIsr2 == old(readIsr2) && installs == old(installs)
      ensures irr1 == old(irr1) && irr2 == old(irr2) && isr1 == old(isr1) && isr2 == old(isr2)
    {
      var m := ReadPort(PORT_PIC2_DATA);
      WritePort(PORT_PIC2_DATA, m & !irq);
    }

    /** mask_pic1: set exactly the bits of `irq` in PIC1's mask. */
    method Mask1(irq: bv8)
      modifies this
      ensures imr1 == Masked(old(imr1), irq) && imr2 == old(imr2)
      ensures io == old(io) + [Inb(PORT_PIC1_DATA), Outb(PORT_PIC1_DATA, Masked(old(imr1), irq))]
      ensures readIsr1 == old(readIsr1) && readIsr2 == old(readIsr2) && installs == old(installs)
      ensures irr1 == old(irr1) && irr2 == old(irr2) && isr1 == old(isr1) && isr2 == old(isr2)
    {
      var m := ReadPort(PORT_PIC1_DATA);
      WritePort(PORT_PIC1_DATA, m | irq);
    }

    /** mask_pic2: set exactly the bits of `irq` in PIC2's mask. */
    method Mask2(irq: bv8)
      modifies this
      ensures imr2 == Masked(old(imr2), irq) && imr1 == old(imr1)
      ensures io == old(io) + [Inb(PORT_PIC2_DATA), Outb(PORT_PIC2_DATA, Masked(old(imr2), irq))]
      ensures readIsr1 == old(readIsr1) && readIsr2 == old(readIsr2) && installs == old(installs)
      ensures irr1 == old(irr1) && irr2 == old(irr2) && isr1 == old(isr1) && isr2 == old(isr2)
    {
      var m := ReadPort(PORT_PIC2_DATA);
      WritePort(PORT_PIC2_DATA, m | irq);
    }

    /**
     * get_pic1_isr: select the in-service register with OCW3, then read it
     * from the same command port; neither mask changes.
     */
    method GetPic1Isr() returns (r: bv8)
      modifies this
      ensures r == old(isr1) && readIsr1 && readIsr2 == old(readIsr2)
      ensures io == old(io) + [Outb(PORT_PIC1_CMD, OCW3_READ_ISR), Inb(PORT_PIC1_CMD)]
      ensures imr1 == old(imr1) && imr2 == old(imr2) && installs == old(installs)
      ensures irr1 == old(irr1) && irr2 == old(irr2) && isr1 == old(isr1) && isr2 == old(isr2)
    {
      WritePort(PORT_PIC1_CMD, OCW3_READ_ISR);
      r := ReadPort(PORT_PIC1_CMD);
    }

    /**
     * get_pic2_isr: select the in-service register with OCW3, then read it
     * from the same command port; neither mask changes.
     */
    method GetPic2Isr() returns (r: bv8)
      modifies this
      ensures r == old(isr2) && readIsr2 && readIsr1 == old(readIsr1)
      ensures io == old(io) + [Outb(PORT_PIC2_CMD, OCW3_READ_ISR), Inb(PORT_PIC2_CMD)]
      ensures imr1 == old(imr1) && imr2 == old(imr2) && installs == old(installs)
      ensures irr1 == old(irr1) && irr2 == old(irr2) && isr1 == old(isr1) && isr2 == old(isr2)
    {
      WritePort(PORT_PIC2_CMD, OCW3_READ_ISR);
      r := ReadPort(PORT_PIC2_CMD);
    }

    /**
     * __enable_hwirq: unmask the IRQ's bit on its own controller only, then
     * hand the handler to __set_irq for the IRQ's vector.
     */
    method EnableHwIrq(hwirq: int, handler: Addr)
      requires 0 <= hwirq < 16
      modifies this
      ensures hwirq < 8 ==> imr1 == Unmasked(old(imr1), IrqBit(hwirq)) && imr2 == old(imr2)
      ensures 8 <= hwirq ==> imr2 == Unmasked(old(imr2), IrqBit(hwirq)) && imr1 == old(imr1)
      ensures installs == old(installs) + [IrqInstall(EnableVector(hwirq), handler)]
      ensures hwirq < 8 ==> io == old(io) + [Inb(PORT_PIC1_DATA), Outb(PORT_PIC1_DATA, Unmasked(old(imr1), IrqBit(hwirq)))]
      ensures 8 <= hwirq ==> io == old(io) + [Inb(PORT_PIC2_DATA), Outb(PORT_PIC2_DATA, Unmasked(old(imr2), IrqBit(hwirq)))]
      ensures readIsr1 == old(readIsr1) && readIsr2 == old(readIsr2)
      ensures irr1 == old(irr1) && irr2 == old(irr2) && isr1 == old(isr1) && isr2 == old(isr2)
    {
      var vector: int;
      if hwirq < 8 {
        Unmask1(1 << hwirq);
        vector := 0x08 + hwirq;
      } else {
        Unmask2(1 << (hwirq - 8));
        vector := 0x70 + hwirq - 8;
      }
      installs := installs + [IrqInstall(vector, handler)];
    }
  }

  /**
   * Unmasking the bit of hardware IRQ `hwirq` clears exactly bit
   * `hwirq % 8` of its controller's mask and keeps every other bit.
   */
  lemma UnmaskIrqClearsOnlyItsBit(mask: bv8, hwirq: int)
    requires 0 <= hwirq < 16
    ensures forall b: nat :: b < 8 ==> (Bit(Unmasked(mask, IrqBit(hwirq)), b) <==> Bit(mask, b) && b != hwirq % 8)
  {
    var r := Unmasked(mask, IrqBit(hwirq));
    forall b: nat | b < 8 ensures Bit(r, b) <==> Bit(mask, b) && b != hwirq % 8 {
      assert Bit(IrqBit(hwirq), b) <==> b == hwirq % 8;
    }
  }
}
