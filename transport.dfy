/**
  Register transport: how the driver addresses a register on the bus.
  A read sends the address with bit 7 clear, a write sends it with bit 7 set;
  the data byte follows in the same chip-select window.
 */
module Transport {
  import opened Registers
  import opened Chip

  /** Command byte of a read of `addr`. */
  function ReadCommand(addr: bv8): (cmd: bv8)
    ensures cmd & 0x80 == 0
    ensures cmd & 0x7f == addr & 0x7f
  {
    addr & 0x7f
  }

  /** Command byte of a write to `addr`. */
  function WriteCommand(addr: bv8): (cmd: bv8)
    ensures cmd & 0x80 == 0x80
    ensures cmd & 0x7f == addr & 0x7f
  {
    addr | 0x80
  }

  /**
    The driver's register read, on the chip state: the chip decodes the
    command as a read of the register the driver named.
   */
  function ReadRegister(s: ChipState, addr: bv8): (r: (ChipState, bv8))
    requires s.WellFormed()
    ensures r == ChipRead(s, addr & 0x7f)
  {
    ChipTransfer(s, ReadCommand(addr), 0x00)
  }

  /**
    The driver's register write, on the chip state: the chip decodes the
    command as a write of `x` to the register the driver named.
   */
  function WriteRegister(s: ChipState, addr: bv8, x: bv8): (r: ChipState)
    requires s.WellFormed()
    ensures r == ChipWrite(s, addr & 0x7f, x)
  {
    ChipTransfer(s, WriteCommand(addr), x).0
  }
}
