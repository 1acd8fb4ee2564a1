/**
  What the interrupt handler and the receive path do: the flags are
  acknowledged by writing back exactly the byte read; transmit-done returns
  the chip to continuous receive and wakes the sender; receive-done without
  a CRC error drains exactly the announced packet and wakes the receiver;
  a packet with a CRC error is never delivered.
 */
module InterruptProperties {
  import opened Registers
  import opened Chip
  import opened Transport
  import opened Driver
  import opened FifoProperties

  /** The two accesses of the acknowledgement: read the flags, write the same byte back. */
  function AckLog(f: bv8): seq<Access> {
    [RegRead(RegIrqFlags, f), RegWrite(RegIrqFlags, f)]
  }

  /** The two writes of the transmit-done branch. */
  const TxDoneLog: seq<Access> := [RegWrite(RegDioMapping1, 0x00), RegWrite(RegOpMode, ModeLora | ModeRxContinuous)]

  /** Whether the handler takes the receive branch on flags `f`. */
  predicate DeliversPacket(f: bv8) {
    f & IrqRxDoneMask != 0 && f & IrqPayloadCrcErrorMask == 0
  }

  // ------------------------------------------------------------ handler parts

  /**
    Acknowledging: the flags are read and the same byte is written back,
    which clears every flag that was read and nothing else.
   */
  lemma GetIrqFlagsSpec(s: ChipState)
    requires s.WellFormed()
    ensures var f := s.regs[RegIrqFlags as int];
      GetIrqFlagsEffect(s) == (ChipState(s.regs[RegIrqFlags as int := 0x00], s.fifo, s.log + AckLog(f)), f)
  {
    var f := s.regs[RegIrqFlags as int];
    var s1 := ChipState(s.regs, s.fifo, s.log + [RegRead(RegIrqFlags, f)]);
    assert ReadRegister(s, RegIrqFlags) == (s1, f);
    assert f & !f == 0;
    assert WriteRegister(s1, RegIrqFlags, f).regs == s.regs[RegIrqFlags as int := 0x00];
    assert s1.log + [RegWrite(RegIrqFlags, f)] == s.log + AckLog(f);
  }

  /**
    A flag the chip raises between the read and the write-back survives
    the acknowledgement unless it was already set when the flags were read.
   */
  lemma AcknowledgeKeepsLateFlags(s: ChipState, late: bv8)
    requires s.WellFormed()
    ensures var f := s.regs[RegIrqFlags as int];
      var s1 := ReadRegister(s, RegIrqFlags).0;
      && ReadRegister(s, RegIrqFlags).1 == f
      && WriteRegister(WithIrqRaised(s1, late), RegIrqFlags, f).regs[RegIrqFlags as int] == late & !f
  {
    var f := s.regs[RegIrqFlags as int];
    var s1 := ChipState(s.regs, s.fifo, s.log + [RegRead(RegIrqFlags, f)]);
    assert ReadRegister(s, RegIrqFlags) == (s1, f);
    var s2 := WithIrqRaised(s1, late);
    ClearFlags(s2, f);
    LateFlagBits(f, late);
  }

  /** A write to RegIrqFlags clears the written bits and keeps the others. */
  lemma ClearFlags(s: ChipState, x: bv8)
    requires s.WellFormed()
    ensures WriteRegister(s, RegIrqFlags, x).regs[RegIrqFlags as int] == s.regs[RegIrqFlags as int] & !x
  {
  }

  /** Clearing the bits of `f` from `f | late` leaves the bits of `late` outside `f`. */
  lemma LateFlagBits(f: bv8, late: bv8)
    ensures (f | late) & !f == late & !f
  {
  }

  /** Transmit done: receive-done mapping, continuous receive, and the send signal raised. */
  lemma TxDoneSpec(d: DriverState)
    requires d.Valid()
    ensures var c := d.chip;
      TxDoneEffect(d) ==
        d.(chip := ChipState(c.regs[RegDioMapping1 as int := 0x00][RegOpMode as int := ModeLora | ModeRxContinuous],
                             c.fifo, c.log + TxDoneLog),
           sendFlag := true)
  {
  }

  /**
    Receive done: the FIFO pointer is set to the start of the last packet,
    its length is read, and exactly that many bytes from there on become
    the stored packet; the receive signal is raised.
   */
  lemma RxDoneSpec(d: DriverState)
    requires d.Valid()
    ensures var c := d.chip;
      var addr := c.regs[RegFifoRxCurrentAddr as int];
      var n := c.regs[RegRxNbBytes as int];
      RxDoneEffect(d) ==
        d.(chip := ChipState(c.regs[RegFifoAddrPtr as int := Advance(addr, n as int)], c.fifo,
                             c.log + [RegRead(RegFifoRxCurrentAddr, addr), RegWrite(RegFifoAddrPtr, addr), RegRead(RegRxNbBytes, n)]
                                   + DrainLog(c.fifo, addr, n as int)),
           data := Some(FifoSlice(c.fifo, addr, n as int)),
           recvFlag := true)
  {
    var c := d.chip;
    var addr := c.regs[RegFifoRxCurrentAddr as int];
    var n := c.regs[RegRxNbBytes as int];
    var s1 := ChipState(c.regs, c.fifo, c.log + [RegRead(RegFifoRxCurrentAddr, addr)]);
    assert ReadRegister(c, RegFifoRxCurrentAddr) == (s1, addr);
    var s2 := ChipState(c.regs[RegFifoAddrPtr as int := addr], c.fifo, s1.log + [RegWrite(RegFifoAddrPtr, addr)]);
    assert WriteRegister(s1, RegFifoAddrPtr, addr) == s2;
    var s3 := ChipState(s2.regs, c.fifo, s2.log + [RegRead(RegRxNbBytes, n)]);
    assert ReadRegister(s2, RegRxNbBytes) == (s3, n);
    FifoDrain(s3, n as int);
    StoreTwice(c.regs, RegFifoAddrPtr as int, addr, Advance(addr, n as int));
    assert s3.log + DrainLog(c.fifo, addr, n as int) ==
           c.log + [RegRead(RegFifoRxCurrentAddr, addr), RegWrite(RegFifoAddrPtr, addr), RegRead(RegRxNbBytes, n)]
           + DrainLog(c.fifo, addr, n as int);
  }

  // ----------------------------------------------------------------- handler

  /** The state after acknowledging and, when its flag is set, handling transmit done. */
  function AfterTx(d: DriverState): DriverState
    requires d.Valid()
  {
    var c := d.chip;
    var f := c.regs[RegIrqFlags as int];
    var c1 := ChipState(c.regs[RegIrqFlags as int := 0x00], c.fifo, c.log + AckLog(f));
    if f & IrqTxDoneMask != 0 then
      d.(chip := ChipState(c1.regs[RegDioMapping1 as int := 0x00][RegOpMode as int := ModeLora | ModeRxContinuous],
                           c.fifo, c1.log + TxDoneLog),
         sendFlag := true)
    else
      d.(chip := c1)
  }

  /** The handler is the acknowledgement and transmit part, then the receive part if the flags call for it. */
  lemma IrqPhases(d: DriverState)
    requires d.Valid()
    ensures AfterTx(d).Valid()
    ensures IrqEffect(d) ==
      if DeliversPacket(d.chip.regs[RegIrqFlags as int]) then RxDoneEffect(AfterTx(d)) else AfterTx(d)
  {
    GetIrqFlagsSpec(d.chip);
    var c := d.chip;
    var f := c.regs[RegIrqFlags as int];
    var d1 := d.(chip := ChipState(c.regs[RegIrqFlags as int := 0x00], c.fifo, c.log + AckLog(f)));
    TxDoneSpec(d1);
    assert (c.log + AckLog(f)) + TxDoneLog == c.log + AckLog(f) + TxDoneLog;
  }

  /**
    Every run of the handler starts by reading the flags and writing the
    same byte back, and leaves the flags register clear.
   */
  lemma IrqAcknowledges(d: DriverState)
    requires d.Valid()
    ensures var f := d.chip.regs[RegIrqFlags as int];
      var r := IrqEffect(d);
      && |r.chip.log| >= |d.chip.log| + 2
      && r.chip.log[..|d.chip.log| + 2] == d.chip.log + AckLog(f)
      && r.chip.regs[RegIrqFlags as int] == 0x00
      && r.chip.fifo == d.chip.fifo
      && r.frequency == d.frequency
  {
    IrqPhases(d);
    AfterTxAcknowledges(d);
    if DeliversPacket(d.chip.regs[RegIrqFlags as int]) {
      var a := AfterTx(d);
      RxDoneKeeps(a);
      PrefixOfPrefix(IrqEffect(d).chip.log, a.chip.log, |d.chip.log| + 2);
    }
  }

  /** The acknowledgement and transmit part starts its log with the acknowledgement and clears the flags. */
  lemma AfterTxAcknowledges(d: DriverState)
    requires d.Valid()
    ensures var a := AfterTx(d);
      && |a.chip.log| >= |d.chip.log| + 2
      && a.chip.log[..|d.chip.log| + 2] == d.chip.log + AckLog(d.chip.regs[RegIrqFlags as int])
      && a.chip.regs[RegIrqFlags as int] == 0x00
      && a.chip.fifo == d.chip.fifo
      && a.frequency == d.frequency
  {
  }

  /** The receive part only appends to the log and keeps the flags, the FIFO and the frequency. */
  lemma RxDoneKeeps(d: DriverState)
    requires d.Valid()
    ensures var r := RxDoneEffect(d);
      && |r.chip.log| >= |d.chip.log|
      && r.chip.log[..|d.chip.log|] == d.chip.log
      && r.chip.regs[RegIrqFlags as int] == d.chip.regs[RegIrqFlags as int]
      && r.chip.regs[RegOpMode as int] == d.chip.regs[RegOpMode as int]
      && r.chip.regs[RegDioMapping1 as int] == d.chip.regs[RegDioMapping1 as int]
      && r.chip.fifo == d.chip.fifo
      && r.frequency == d.frequency
      && r.sendFlag == d.sendFlag
  {
    RxDoneSpec(d);
  }

  /** A prefix of a prefix is a prefix. */
  lemma PrefixOfPrefix(a: seq<Access>, b: seq<Access>, n: nat)
    requires |b| <= |a| && a[..|b|] == b && n <= |b|
    ensures a[..n] == b[..n]
  {
    assert forall k :: 0 <= k < n ==> a[k] == a[..|b|][k];
  }

  /**
    Transmit done (flag bit 3): the handler maps the interrupt back to
    receive-done, enters continuous receive and raises the send signal;
    without that flag it leaves the mode, the mapping and the send signal
    alone.
   */
  lemma IrqTransmitDone(d: DriverState)
    requires d.Valid()
    ensures var f := d.chip.regs[RegIrqFlags as int];
      var r := IrqEffect(d);
      && (f & IrqTxDoneMask != 0 ==>
            && r.sendFlag
            && r.chip.regs[RegOpMode as int] == ModeLora | ModeRxContinuous
            && r.chip.regs[RegDioMapping1 as int] == 0x00
            && |r.chip.log| >= |d.chip.log| + 4
            && r.chip.log[|d.chip.log| + 2..|d.chip.log| + 4] == TxDoneLog)
      && (f & IrqTxDoneMask == 0 ==>
            && r.sendFlag == d.sendFlag
            && r.chip.regs[RegOpMode as int] == d.chip.regs[RegOpMode as int]
            && r.chip.regs[RegDioMapping1 as int] == d.chip.regs[RegDioMapping1 as int])
  {
    IrqPhases(d);
    AfterTxTransmits(d);
    if DeliversPacket(d.chip.regs[RegIrqFlags as int]) {
      var a := AfterTx(d);
      RxDoneKeeps(a);
      if d.chip.regs[RegIrqFlags as int] & IrqTxDoneMask != 0 {
        SliceOfPrefix(IrqEffect(d).chip.log, a.chip.log, |d.chip.log| + 2, |d.chip.log| + 4);
      }
    }
  }

  /** The transmit part of the handler, before any receive handling. */
  lemma AfterTxTransmits(d: DriverState)
    requires d.Valid()
    ensures var f := d.chip.regs[RegIrqFlags as int];
      var a := AfterTx(d);
      && (f & IrqTxDoneMask != 0 ==>
            && a.sendFlag
            && a.chip.regs[RegOpMode as int] == ModeLora | ModeRxContinuous
            && a.chip.regs[RegDioMapping1 as int] == 0x00
            && |a.chip.log| == |d.chip.log| + 4
            && a.chip.log[|d.chip.log| + 2..|d.chip.log| + 4] == TxDoneLog)
      && (f & IrqTxDoneMask == 0 ==>
            && a.sendFlag == d.sendFlag
            && a.chip.regs[RegOpMode as int] == d.chip.regs[RegOpMode as int]
            && a.chip.regs[RegDioMapping1 as int] == d.chip.regs[RegDioMapping1 as int])
  {
    var f := d.chip.regs[RegIrqFlags as int];
    if f & IrqTxDoneMask != 0 {
      assert AfterTx(d).chip.log == d.chip.log + AckLog(f) + TxDoneLog;
    }
  }

  /** A slice within a prefix is the same slice of the longer sequence. */
  lemma SliceOfPrefix(a: seq<Access>, b: seq<Access>, i: nat, j: nat)
    requires |b| <= |a| && a[..|b|] == b && i <= j <= |b|
    ensures a[i..j] == b[i..j]
  {
    assert forall k :: i <= k < j ==> a[k] == a[..|b|][k];
  }

  /**
    Receive done without a CRC error: the stored packet is the run of
    RegRxNbBytes FIFO bytes from RegFifoRxCurrentAddr on, as they were when
    the handler ran, and the receive signal is raised.
   */
  lemma IrqReceiveDone(d: DriverState)
    requires d.Valid() && DeliversPacket(d.chip.regs[RegIrqFlags as int])
    ensures var c := d.chip;
      var r := IrqEffect(d);
      && r.recvFlag
      && r.data == Some(FifoSlice(c.fifo, c.regs[RegFifoRxCurrentAddr as int], c.regs[RegRxNbBytes as int] as int))
      && |r.data.value| == c.regs[RegRxNbBytes as int] as int
      && forall i :: 0 <= i < |r.data.value| ==>
           r.data.value[i] == c.fifo[(c.regs[RegFifoRxCurrentAddr as int] as int + i) % 256]
  {
    ReceivedIsSlice(d);
    FifoSliceAt(d.chip.fifo, d.chip.regs[RegFifoRxCurrentAddr as int], d.chip.regs[RegRxNbBytes as int] as int);
  }

  /** The receive-done branch stores the FIFO slice the chip reports and raises the signal. */
  lemma ReceivedIsSlice(d: DriverState)
    requires d.Valid() && DeliversPacket(d.chip.regs[RegIrqFlags as int])
    ensures var c := d.chip;
      var r := IrqEffect(d);
      && r.recvFlag
      && r.data == Some(FifoSlice(c.fifo, c.regs[RegFifoRxCurrentAddr as int], c.regs[RegRxNbBytes as int] as int))
  {
    IrqPhases(d);
    RxDoneSpec(AfterTx(d));
  }

  /**
    Without receive done, or with a CRC error, the handler reads nothing
    from the FIFO and stores nothing: its accesses are the acknowledgement
    and, on transmit done, the two transmit-done writes; the stored packet
    and the receive signal are unchanged.
   */
  lemma IrqIgnoresOtherFlags(d: DriverState)
    requires d.Valid() && !DeliversPacket(d.chip.regs[RegIrqFlags as int])
    ensures var f := d.chip.regs[RegIrqFlags as int];
      var r := IrqEffect(d);
      && r.data == d.data
      && r.recvFlag == d.recvFlag
      && r.chip.regs[RegFifoAddrPtr as int] == d.chip.regs[RegFifoAddrPtr as int]
      && r.chip.log == d.chip.log + AckLog(f) + (if f & IrqTxDoneMask != 0 then TxDoneLog else [])
  {
    IrqPhases(d);
  }

  // ---------------------------------------------------------------- receive

  /**
    `recv` hands over the stored packet once per receive signal: with the
    signal raised it returns the packet and clears the signal, so an
    immediate second call returns nothing; with it clear it returns nothing
    and changes nothing.
   */
  lemma RecvConsumesSignal(d: DriverState)
    requires d.Valid()
    ensures var (d1, p) := RecvEffect(d);
      && (d.recvFlag ==> p == d.data && p.Some? && !d1.recvFlag && d1 == d.(recvFlag := false))
      && (!d.recvFlag ==> p == None && d1 == d)
      && RecvEffect(d1).1 == None
  {
  }

  /** A packet received without a CRC error is what the next `recv` returns. */
  lemma ReceiveThenRecv(d: DriverState)
    requires d.Valid() && DeliversPacket(d.chip.regs[RegIrqFlags as int])
    ensures var c := d.chip;
      var (d1, p) := RecvEffect(IrqEffect(d));
      && p == Some(FifoSlice(c.fifo, c.regs[RegFifoRxCurrentAddr as int], c.regs[RegRxNbBytes as int] as int))
      && RecvEffect(d1).1 == None
  {
    IrqReceiveDone(d);
  }

  /** A packet with a CRC error is never handed to `recv`. */
  lemma CorruptPacketNotDelivered(d: DriverState)
    requires d.Valid() && !d.recvFlag
    requires d.chip.regs[RegIrqFlags as int] & IrqPayloadCrcErrorMask != 0
    ensures RecvEffect(IrqEffect(d)).1 == None
  {
    IrqIgnoresOtherFlags(d);
  }
}
