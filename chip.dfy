/**
  A simulated SX127x seen from the SPI bus: 128 eight-bit registers, the
  256-byte packet FIFO and a log of every register access, in order.

  Two behaviours of the real chip that the driver relies on are stated here
  as assumptions of the simulation:
  - an access to RegFifo reads or writes the FIFO byte at RegFifoAddrPtr and
    then advances that pointer by one, wrapping at 256;
  - RegIrqFlags is write-one-to-clear: writing a byte clears exactly the
    flags set in it.
  Every other register is a plain store.
 */
module Chip {
  import opened Registers

  /** One register transaction on the bus, as the chip saw it. */
  datatype Access = RegRead(addr: bv8, value: bv8) | RegWrite(addr: bv8, value: bv8)

  /** The chip as a value: registers, FIFO and the log of accesses so far. */
  datatype ChipState = ChipState(regs: seq<bv8>, fifo: seq<bv8>, log: seq<Access>)
  {
    predicate WellFormed() {
      |regs| == 128 && |fifo| == 256
    }

    /** Current value of the FIFO pointer register. */
    function FifoPtr(): bv8
      requires WellFormed()
    {
      regs[RegFifoAddrPtr as int]
    }
  }

  /** The chip's answer to a read of the 7-bit register address `addr`. */
  function ChipRead(s: ChipState, addr: bv8): (r: (ChipState, bv8))
    requires s.WellFormed() && addr < 0x80
    ensures r.0.WellFormed()
  {
    if addr == RegFifo then
      var p := s.FifoPtr();
      var v := s.fifo[p as int];
      (s.(regs := s.regs[RegFifoAddrPtr as int := p + 1], log := s.log + [RegRead(addr, v)]), v)
    else
      var v := s.regs[addr as int];
      (s.(log := s.log + [RegRead(addr, v)]), v)
  }

  /** The chip's effect of a write of `x` to the 7-bit register address `addr`. */
  function ChipWrite(s: ChipState, addr: bv8, x: bv8): (r: ChipState)
    requires s.WellFormed() && addr < 0x80
    ensures r.WellFormed()
  {
    var logged := s.log + [RegWrite(addr, x)];
    if addr == RegFifo then
      var p := s.FifoPtr();
      s.(fifo := s.fifo[p as int := x], regs := s.regs[RegFifoAddrPtr as int := p + 1], log := logged)
    else if addr == RegIrqFlags then
      s.(regs := s.regs[addr as int := s.regs[addr as int] & !x], log := logged)
    else
      s.(regs := s.regs[addr as int := x], log := logged)
  }

  /**
    One SPI transaction: bit 7 of the command byte selects a write, bits 0-6
    name the register. A write answers 0 (the driver ignores the answer).
   */
  function ChipTransfer(s: ChipState, cmd: bv8, x: bv8): (r: (ChipState, bv8))
    requires s.WellFormed()
    ensures r.0.WellFormed()
  {
    var addr := cmd & 0x7f;
    if cmd & 0x80 != 0 then (ChipWrite(s, addr, x), 0) else ChipRead(s, addr)
  }

  /** The hardware raises interrupt flags: they are ORed into RegIrqFlags. */
  function WithIrqRaised(s: ChipState, flags: bv8): (r: ChipState)
    requires s.WellFormed()
    ensures r.WellFormed()
    ensures r.regs[RegIrqFlags as int] & flags == flags
  {
    s.(regs := s.regs[RegIrqFlags as int := s.regs[RegIrqFlags as int] | flags])
  }

  /**
    The physical chip as an object the driver talks to: its register file,
    FIFO and access log change with every transaction.
   */
  class Sx127x {
    var regs: seq<bv8>
    var fifo: seq<bv8>
    ghost var log: seq<Access>

    ghost predicate Valid()
      reads this
    {
      |regs| == 128 && |fifo| == 256
    }

    ghost function State(): (s: ChipState)
      reads this
      requires Valid()
      ensures s.WellFormed()
    {
      ChipState(regs, fifo, log)
    }

    /** A chip whose registers and FIFO hold `initial`, with nothing logged yet. */
    constructor (initial: ChipState)
      requires initial.WellFormed()
      ensures Valid() && State() == initial.(log := [])
    {
      regs := initial.regs;
      fifo := initial.fifo;
      log := [];
    }

    /** One bus transaction, with the effect `ChipTransfer` describes. */
    method Transfer(cmd: bv8, x: bv8) returns (resp: bv8)
      requires Valid()
      modifies this
      ensures Valid()
      ensures (State(), resp) == ChipTransfer(old(State()), cmd, x)
    {
      var addr := cmd & 0x7f;
      if cmd & 0x80 != 0 {
        Store(addr, x);
        resp := 0;
      } else {
        resp := Load(addr);
      }
    }

    /** The chip's side of a write transaction, as `ChipWrite` describes it. */
    method Store(addr: bv8, x: bv8)
      requires Valid() && addr < 0x80
      modifies this
      ensures Valid()
      ensures State() == ChipWrite(old(State()), addr, x)
    {
      if addr == RegFifo {
        var p := regs[RegFifoAddrPtr as int];
        fifo := fifo[p as int := x];
        regs := regs[RegFifoAddrPtr as int := p + 1];
      } else if addr == RegIrqFlags {
        regs := regs[addr as int := regs[addr as int] & !x];
      } else {
        regs := regs[addr as int := x];
      }
      log := log + [RegWrite(addr, x)];
    }

    /** The chip's side of a read transaction, as `ChipRead` describes it. */
    method Load(addr: bv8) returns (v: bv8)
      requires Valid() && addr < 0x80
      modifies this
      ensures Valid()
      ensures (State(), v) == ChipRead(old(State()), addr)
    {
      if addr == RegFifo {
        var p := regs[RegFifoAddrPtr as int];
        v := fifo[p as int];
        regs := regs[RegFifoAddrPtr as int := p + 1];
      } else {
        v := regs[addr as int];
      }
      log := log + [RegRead(addr, v)];
    }
  }
}
