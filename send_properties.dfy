/**
  What `send` does on the bus: standby, transmit-done interrupt mapping and
  the FIFO pointer at the transmit base come first; only then is the
  payload length checked. An accepted payload is written to the FIFO byte
  by byte, followed by its length and transmit mode, and the sender wakes
  once the interrupt handler has seen transmit done.
 */
module SendProperties {
  import opened Registers
  import opened Chip
  import opened Transport
  import opened Encoding
  import opened Driver
  import opened FifoProperties
  import opened InterruptProperties
  import opened Bytes

  /** The three writes `send` makes before it checks the length. */
  const ArmLog: seq<Access> :=
    [RegWrite(RegOpMode, ModeLora | ModeStdby), RegWrite(RegDioMapping1, 0x40), RegWrite(RegFifoAddrPtr, TxBaseAddr)]

  /** The chip after those three writes. */
  function Armed(s: ChipState): (r: ChipState)
    requires s.WellFormed()
    ensures r.WellFormed() && r.FifoPtr() == TxBaseAddr
  {
    ChipState(s.regs[RegOpMode as int := ModeLora | ModeStdby][RegDioMapping1 as int := 0x40][RegFifoAddrPtr as int := TxBaseAddr],
              s.fifo, s.log + ArmLog)
  }

  /** The three writes before the length check. */
  lemma SendArms(s: ChipState)
    requires s.WellFormed()
    ensures var s1 := WriteRegister(s, RegOpMode, ModeLora | ModeStdby);
      var s2 := WriteRegister(s1, RegDioMapping1, 0x40);
      WriteRegister(s2, RegFifoAddrPtr, TxBaseAddr) == Armed(s)
  {
    var s1 := WriteRegister(s, RegOpMode, ModeLora | ModeStdby);
    var s2 := WriteRegister(s1, RegDioMapping1, 0x40);
    assert (s.log + [ArmLog[0]] + [ArmLog[1]]) + [ArmLog[2]] == s.log + ArmLog;
  }

  /**
    A payload longer than 255 bytes is rejected with the limit 255, but
    only after the three arming writes: nothing reaches the FIFO, the
    payload length or transmit mode.
   */
  lemma SendRejectsLongPayload(s: ChipState, x: seq<bv8>)
    requires s.WellFormed() && |x| > MaxPktLength
    ensures SendEffect(s, x) == (Armed(s), Failed(PayloadTooLarge(255)))
  {
    SendArms(s);
  }

  /** The two writes that end an accepted `send`: the payload length, then transmit mode. */
  lemma LengthThenTransmit(c: ChipState, n: bv8)
    requires c.WellFormed()
    ensures WriteRegister(WriteRegister(c, RegPayloadLength, n), RegOpMode, ModeLora | ModeTx) ==
      ChipState(c.regs[RegPayloadLength as int := n][RegOpMode as int := ModeLora | ModeTx], c.fifo,
                c.log + [RegWrite(RegPayloadLength, n), RegWrite(RegOpMode, ModeLora | ModeTx)])
  {
    assert (c.log + [RegWrite(RegPayloadLength, n)]) + [RegWrite(RegOpMode, ModeLora | ModeTx)]
      == c.log + [RegWrite(RegPayloadLength, n), RegWrite(RegOpMode, ModeLora | ModeTx)];
  }

  /** An accepted `send` is arming, filling, then length and transmit mode. */
  lemma SendPhases(s: ChipState, x: seq<bv8>)
    requires s.WellFormed() && |x| <= MaxPktLength
    ensures SendEffect(s, x) ==
      (WriteRegister(WriteRegister(WriteFifo(Armed(s), x), RegPayloadLength, |x| as bv8), RegOpMode, ModeLora | ModeTx), Done)
  {
    SendArms(s);
  }

  /** The chip after an accepted `send`, as a chain of stores. */
  lemma SendState(s: ChipState, x: seq<bv8>)
    requires s.WellFormed() && |x| <= MaxPktLength
    ensures var n := |x| as bv8;
      SendEffect(s, x) ==
        (ChipState(Armed(s).regs[RegFifoAddrPtr as int := Advance(0, |x|)][RegPayloadLength as int := n][RegOpMode as int := ModeLora | ModeTx],
                   x + s.fifo[|x|..],
                   s.log + ArmLog + FillLog(x) + [RegWrite(RegPayloadLength, n), RegWrite(RegOpMode, ModeLora | ModeTx)]),
         Done)
  {
    SendPhases(s, x);
    FifoFill(Armed(s), x);
    LengthThenTransmit(WriteFifo(Armed(s), x), |x| as bv8);
  }

  /** The registers `send` leaves behind, read off the chain of stores. */
  lemma SendRegisters(regs: seq<bv8>, r: seq<bv8>, p: bv8, n: bv8)
    requires |regs| == 128
    requires r == regs[RegOpMode as int := ModeLora | ModeStdby][RegDioMapping1 as int := 0x40][RegFifoAddrPtr as int := TxBaseAddr]
                  [RegFifoAddrPtr as int := p][RegPayloadLength as int := n][RegOpMode as int := ModeLora | ModeTx]
    ensures r[RegPayloadLength as int] == n
    ensures r[RegOpMode as int] == ModeLora | ModeTx
    ensures r[RegDioMapping1 as int] == 0x40
    ensures r[RegFifoAddrPtr as int] == p
  {
  }

  /**
    A payload of at most 255 bytes is accepted: after the arming writes the
    bus carries one RegFifo write per byte in order, then the length, then
    transmit mode; the FIFO holds the payload from position 0 and is
    otherwise unchanged.
   */
  lemma SendLoadsPayload(s: ChipState, x: seq<bv8>)
    requires s.WellFormed() && |x| <= MaxPktLength
    ensures var (r, status) := SendEffect(s, x);
      && status == Done
      && r.fifo[..|x|] == x
      && r.fifo[|x|..] == s.fifo[|x|..]
      && r.log == s.log + ArmLog + FillLog(x)
                  + [RegWrite(RegPayloadLength, r.regs[RegPayloadLength as int]), RegWrite(RegOpMode, ModeLora | ModeTx)]
      && r.regs[RegPayloadLength as int] as int == |x|
      && r.regs[RegOpMode as int] == ModeLora | ModeTx
      && r.regs[RegDioMapping1 as int] == 0x40
      && r.regs[RegFifoAddrPtr as int] as int == |x|
  {
    SendState(s, x);
    FifoFill(Armed(s), x);
    ByteCast(|x|);
    var r := SendEffect(s, x).0;
    SendRegisters(s.regs, r.regs, Advance(0, |x|), |x| as bv8);
    assert (x + s.fifo[|x|..])[..|x|] == x;
    assert (x + s.fifo[|x|..])[|x|..] == s.fifo[|x|..];
  }

  /** The payload writes are one RegFifo write per byte, in order. */
  lemma {:induction false} FillLogInOrder(xs: seq<bv8>)
    ensures |FillLog(xs)| == |xs|
    ensures forall i :: 0 <= i < |xs| ==> FillLog(xs)[i] == RegWrite(RegFifo, xs[i])
  {
    if |xs| > 0 {
      var init := xs[..|xs| - 1];
      FillLogInOrder(init);
      assert forall i :: 0 <= i < |init| ==> init[i] == xs[i];
    }
  }

  /**
    The wait that ends `send` consumes the transmit-done signal once: it
    reports success and clears the signal when it is raised, and reports
    "not yet" without changing anything when it is clear.
   */
  lemma AwaitSentConsumesSignal(d: DriverState)
    requires d.Valid()
    ensures var (d1, sent) := AwaitSentEffect(d);
      && sent == d.sendFlag
      && d1 == d.(sendFlag := false)
      && !AwaitSentEffect(d1).1
  {
  }

  /**
    A whole transmission: an accepted `send` leaves the chip transmitting
    while its sender waits; once the chip raises transmit done and the
    handler runs, the chip is back in continuous receive and the wait
    completes exactly once.
   */
  lemma SendThenTransmitDone(s: ChipState, x: seq<bv8>, d: DriverState)
    requires s.WellFormed() && |x| <= MaxPktLength
    requires d.Valid() && !d.sendFlag && d.chip == SendEffect(s, x).0
    ensures d.chip.regs[RegOpMode as int] == ModeLora | ModeTx
    ensures var d1 := d.(chip := WithIrqRaised(d.chip, IrqTxDoneMask));
      var r := IrqEffect(d1);
      && r.chip.regs[RegOpMode as int] == ModeLora | ModeRxContinuous
      && AwaitSentEffect(r).1
      && !AwaitSentEffect(AwaitSentEffect(r).0).1
  {
    SendLoadsPayload(s, x);
    var d1 := d.(chip := WithIrqRaised(d.chip, IrqTxDoneMask));
    IrqTransmitDone(d1);
  }
}
