/**
  The LoRa driver. Each operation is given twice: as a function on chip and
  driver state values (what the operation does to the registers, the FIFO,
  the bus log and the driver's own fields), and as a method of class `LoRa`
  that performs the register accesses one at a time and is proved to have
  exactly that effect.

  The two one-shot wake signals are booleans: the interrupt handler sets
  them, and a waiter that finds one set consumes it; a waiter that finds it
  clear would suspend, which the model reports as "not yet".
 */
module Driver {
  import opened Registers
  import opened Chip
  import opened Transport
  import opened Encoding

  datatype Option<T> = None | Some(value: T)

  datatype Error = BadVersion | SpreadingFactorOutOfRange | PayloadTooLarge(max: int)

  /** Outcome of an operation that can raise. */
  datatype Status = Done | Failed(error: Error)

  datatype Result<T> = Success(value: T) | Failure(error: Error)

  /** Construction parameters, with the driver's defaults in `DefaultConfig`. */
  datatype Config = Config(
    frequency: real,
    bandwidth: int,
    spreadingFactor: int,
    codingRate: int,
    preambleLength: int,
    crc: bool,
    txPower: int,
    syncWord: bv8)

  const DefaultConfig: Config := Config(915.0, 250000, 10, 8, 4, false, 24, 0x12)

  /** The chip together with the driver's fields. */
  datatype DriverState = DriverState(
    chip: ChipState,
    frequency: real,
    data: Option<seq<bv8>>,
    sendFlag: bool,
    recvFlag: bool)
  {
    /** A raised receive signal always has a packet behind it. */
    predicate Valid() {
      chip.WellFormed() && (recvFlag ==> data.Some?)
    }
  }

  // ------------------------------------------------------------ configuration

  function SetTxPowerEffect(s: ChipState, level: int, pin: int): (r: ChipState)
    requires s.WellFormed()
    ensures r.WellFormed()
  {
    WriteRegister(s, RegPaConfig, PaConfigValue(level, pin))
  }

  function SetFrequencyEffect(s: ChipState, mhz: real): (r: ChipState)
    requires s.WellFormed()
    ensures r.WellFormed()
  {
    var x := FrequencyWord(mhz);
    var s1 := WriteRegister(s, RegFrfMsb, FrfMsb(x));
    var s2 := WriteRegister(s1, RegFrfMid, FrfMid(x));
    WriteRegister(s2, RegFrfLsb, FrfLsb(x))
  }

  function SetSpreadingFactorEffect(s: ChipState, sf: int): (r: (ChipState, Status))
    requires s.WellFormed()
    ensures r.0.WellFormed()
  {
    if sf < 6 || sf > 12 then
      (s, Failed(SpreadingFactorOutOfRange))
    else
      var s1 := WriteRegister(s, RegDetectionOptimize, DetectionOptimize(sf));
      var s2 := WriteRegister(s1, RegDetectionThreshold, DetectionThreshold(sf));
      var (s3, reg2) := ReadRegister(s2, RegModemConfig2);
      (WriteRegister(s3, RegModemConfig2, SpreadingFactorConfig(reg2, sf)), Done)
  }

  function SetBandwidthEffect(s: ChipState, bw: int): (r: ChipState)
    requires s.WellFormed()
    ensures r.WellFormed()
  {
    var (s1, reg1) := ReadRegister(s, RegModemConfig1);
    WriteRegister(s1, RegModemConfig1, BandwidthConfig(reg1, BandwidthIndex(bw)))
  }

  function SetCodingRateEffect(s: ChipState, denom: int): (r: ChipState)
    requires s.WellFormed()
    ensures r.WellFormed()
  {
    var (s1, reg1) := ReadRegister(s, RegModemConfig1);
    WriteRegister(s1, RegModemConfig1, CodingRateConfig(reg1, denom))
  }

  function SetPreambleLengthEffect(s: ChipState, n: int): (r: ChipState)
    requires s.WellFormed()
    ensures r.WellFormed()
  {
    var s1 := WriteRegister(s, RegPreambleMsb, PreambleMsb(n));
    WriteRegister(s1, RegPreambleLsb, PreambleLsb(n))
  }

  function SetCrcEffect(s: ChipState, crc: bool): (r: ChipState)
    requires s.WellFormed()
    ensures r.WellFormed()
  {
    var (s1, reg2) := ReadRegister(s, RegModemConfig2);
    WriteRegister(s1, RegModemConfig2, CrcConfig(reg2, crc))
  }

  function SetSyncWordEffect(s: ChipState, sw: bv8): (r: ChipState)
    requires s.WellFormed()
    ensures r.WellFormed()
  {
    WriteRegister(s, RegSyncWord, sw)
  }

  // ---------------------------------------------------------- signal quality

  function GetRssiEffect(s: ChipState, mhz: real): (r: (ChipState, int))
    requires s.WellFormed()
    ensures r.0.WellFormed()
  {
    var (s1, raw) := ReadRegister(s, RegPktRssiValue);
    (s1, RssiDbm(raw, mhz))
  }

  function GetSnrEffect(s: ChipState): (r: (ChipState, real))
    requires s.WellFormed()
    ensures r.0.WellFormed()
  {
    var (s1, raw) := ReadRegister(s, RegPktSnrValue);
    (s1, SnrDb(raw))
  }

  // -------------------------------------------------------------- FIFO access

  /** `n` successive reads of RegFifo, and the bytes they return in order. */
  function ReadFifo(s: ChipState, n: nat): (r: (ChipState, seq<bv8>))
    requires s.WellFormed()
    ensures r.0.WellFormed()
  {
    if n == 0 then (s, [])
    else
      var (s1, bytes) := ReadFifo(s, n - 1);
      var (s2, b) := ReadRegister(s1, RegFifo);
      (s2, bytes + [b])
  }

  /** Successive writes of the bytes `xs` to RegFifo. */
  function WriteFifo(s: ChipState, xs: seq<bv8>): (r: ChipState)
    requires s.WellFormed()
    ensures r.WellFormed()
  {
    if |xs| == 0 then s
    else WriteRegister(WriteFifo(s, xs[..|xs| - 1]), RegFifo, xs[|xs| - 1])
  }

  // ---------------------------------------------------- interrupt handling

  /** Read the interrupt flags and write the same byte back to acknowledge them. */
  function GetIrqFlagsEffect(s: ChipState): (r: (ChipState, bv8))
    requires s.WellFormed()
    ensures r.0.WellFormed()
  {
    var (s1, f) := ReadRegister(s, RegIrqFlags);
    (WriteRegister(s1, RegIrqFlags, f), f)
  }

  /** Transmit done: interrupt mapping back to receive, continuous receive, wake the sender. */
  function TxDoneEffect(d: DriverState): (r: DriverState)
    requires d.Valid()
    ensures r.Valid()
  {
    var s1 := WriteRegister(d.chip, RegDioMapping1, 0x00);
    var s2 := WriteRegister(s1, RegOpMode, ModeLora | ModeRxContinuous);
    d.(chip := s2, sendFlag := true)
  }

  /** Receive done without CRC error: drain the packet from the FIFO, wake the receiver. */
  function RxDoneEffect(d: DriverState): (r: DriverState)
    requires d.Valid()
    ensures r.Valid()
  {
    var (s1, addr) := ReadRegister(d.chip, RegFifoRxCurrentAddr);
    var s2 := WriteRegister(s1, RegFifoAddrPtr, addr);
    var (s3, n) := ReadRegister(s2, RegRxNbBytes);
    var (s4, payload) := ReadFifo(s3, n as int);
    d.(chip := s4, data := Some(payload), recvFlag := true)
  }

  /** One run of the interrupt handler. */
  function IrqEffect(d: DriverState): (r: DriverState)
    requires d.Valid()
    ensures r.Valid()
  {
    var (s1, f) := GetIrqFlagsEffect(d.chip);
    var d1 := d.(chip := s1);
    var d2 := if f & IrqTxDoneMask != 0 then TxDoneEffect(d1) else d1;
    if f & IrqRxDoneMask != 0 && f & IrqPayloadCrcErrorMask == 0 then RxDoneEffect(d2) else d2
  }

  // --------------------------------------------------------- send and receive

  /**
    The register part of `send`: standby, transmit-done interrupt mapping,
    FIFO pointer to the transmit base, then the length check, then the
    payload, its length and transmit mode.
   */
  function SendEffect(s: ChipState, x: seq<bv8>): (r: (ChipState, Status))
    requires s.WellFormed()
    ensures r.0.WellFormed()
  {
    var s1 := WriteRegister(s, RegOpMode, ModeLora | ModeStdby);
    var s2 := WriteRegister(s1, RegDioMapping1, 0x40);
    var s3 := WriteRegister(s2, RegFifoAddrPtr, TxBaseAddr);
    var m := MaxPktLength - TxBaseAddr as int;
    if |x| > m then
      (s3, Failed(PayloadTooLarge(m)))
    else
      var s4 := WriteFifo(s3, x);
      var s5 := WriteRegister(s4, RegPayloadLength, |x| as bv8);
      (WriteRegister(s5, RegOpMode, ModeLora | ModeTx), Done)
  }

  /** The wait at the end of `send`: consumes the transmit-done signal if it is raised. */
  function AwaitSentEffect(d: DriverState): (r: (DriverState, bool))
    requires d.Valid()
    ensures r.0.Valid()
  {
    if d.sendFlag then (d.(sendFlag := false), true) else (d, false)
  }

  /** `recv`: consumes the receive signal if it is raised and returns the stored packet. */
  function RecvEffect(d: DriverState): (r: (DriverState, Option<seq<bv8>>))
    requires d.Valid()
    ensures r.0.Valid()
  {
    if d.recvFlag then (d.(recvFlag := false), d.data) else (d, None)
  }

  // ------------------------------------------------------------- construction

  /**
    The radio settings of construction, in the driver's order: frequency,
    bandwidth, spreading factor (which may fail and end the sequence),
    coding rate, preamble length and CRC.
   */
  function ConfigureEffect(s: ChipState, cfg: Config): (r: (ChipState, Status))
    requires s.WellFormed()
    ensures r.0.WellFormed()
  {
    var s1 := SetFrequencyEffect(s, cfg.frequency);
    var s2 := SetBandwidthEffect(s1, cfg.bandwidth);
    var (s3, status) := SetSpreadingFactorEffect(s2, cfg.spreadingFactor);
    if status.Failed? then
      (s3, status)
    else
      var s4 := SetCodingRateEffect(s3, cfg.codingRate);
      var s5 := SetPreambleLengthEffect(s4, cfg.preambleLength);
      (SetCrcEffect(s5, cfg.crc), Done)
  }

  /**
    The rest of construction: LNA boost, automatic gain control, PA_BOOST
    power, sync word, both FIFO bases, receive-done interrupt mapping and
    continuous receive.
   */
  function FinishEffect(s: ChipState, cfg: Config): (r: ChipState)
    requires s.WellFormed()
    ensures r.WellFormed()
  {
    var (s1, lna) := ReadRegister(s, RegLna);
    var s2 := WriteRegister(s1, RegLna, lna | 0x03);
    var s3 := WriteRegister(s2, RegModemConfig3, 0x04);
    var s4 := SetTxPowerEffect(s3, cfg.txPower, PaOutputPaBoostPin);
    var s5 := SetSyncWordEffect(s4, cfg.syncWord);
    var s6 := WriteRegister(s5, RegFifoTxBaseAddr, TxBaseAddr);
    var s7 := WriteRegister(s6, RegFifoRxBaseAddr, RxBaseAddr);
    var s8 := WriteRegister(s7, RegDioMapping1, 0x00);
    WriteRegister(s8, RegOpMode, ModeLora | ModeRxContinuous)
  }

  /**
    The register accesses of construction: the version probe, then (if it
    matches) sleep mode, the radio settings (which stop early if the
    spreading factor is rejected) and the rest.
   */
  function InitEffect(s: ChipState, cfg: Config): (r: (ChipState, Status))
    requires s.WellFormed()
    ensures r.0.WellFormed()
  {
    var (s0, version) := ReadRegister(s, RegVersion);
    if version != ExpectedVersion then
      (s0, Failed(BadVersion))
    else
      var s1 := WriteRegister(s0, RegOpMode, ModeLora | ModeSleep);
      var (s2, status) := ConfigureEffect(s1, cfg);
      if status.Failed? then (s2, status) else (FinishEffect(s2, cfg), Done)
  }

  // ------------------------------------------------------------------- driver

  class LoRa {
    const chip: Sx127x
    var frequency: real
    var data: Option<seq<bv8>>
    var sendFlag: bool
    var recvFlag: bool

    ghost predicate Valid()
      reads this, chip
    {
      chip.Valid() && (recvFlag ==> data.Some?)
    }

    ghost function State(): (d: DriverState)
      reads this, chip
      requires Valid()
      ensures d.Valid()
    {
      DriverState(chip.State(), frequency, data, sendFlag, recvFlag)
    }

    /** The fields as construction sets them before it probes the chip. */
    constructor Attach(chip: Sx127x)
      requires chip.Valid()
      ensures Valid() && this.chip == chip
      ensures data == None && !sendFlag && !recvFlag
    {
      this.chip := chip;
      data := None;
      sendFlag := false;
      recvFlag := false;
    }

    /**
      Construction: probe the version register, then configure the chip
      from `cfg` and enter continuous receive. Fails on a wrong version, or
      on a spreading factor outside 6..12 (after the writes that precede it).
     */
    static method Create(chip: Sx127x, cfg: Config) returns (r: Result<LoRa>)
      requires chip.Valid()
      modifies chip
      ensures chip.Valid()
      ensures chip.State() == InitEffect(old(chip.State()), cfg).0
      ensures r.Failure? <==> InitEffect(old(chip.State()), cfg).1.Failed?
      ensures r.Failure? ==> r.error == InitEffect(old(chip.State()), cfg).1.error
      ensures r.Success? ==> fresh(r.value) && r.value.chip == chip && r.value.Valid()
      ensures r.Success? ==> r.value.State() == DriverState(chip.State(), cfg.frequency, None, false, false)
    {
      var radio := new LoRa.Attach(chip);
      var version := radio.Read(RegVersion);
      if version != ExpectedVersion {
        return Failure(BadVersion);
      }
      radio.Write(RegOpMode, ModeLora | ModeSleep);
      radio.SetFrequency(cfg.frequency);
      radio.SetBandwidth(cfg.bandwidth);
      var status := radio.SetSpreadingFactor(cfg.spreadingFactor);
      if status.Failed? {
        return Failure(status.error);
      }
      radio.SetCodingRate(cfg.codingRate);
      radio.SetPreambleLength(cfg.preambleLength);
      radio.SetCrc(cfg.crc);
      var lna := radio.Read(RegLna);
      radio.Write(RegLna, lna | 0x03);
      radio.Write(RegModemConfig3, 0x04);
      radio.SetTxPower(cfg.txPower, PaOutputPaBoostPin);
      radio.SetSyncWord(cfg.syncWord);
      radio.Write(RegFifoTxBaseAddr, TxBaseAddr);
      radio.Write(RegFifoRxBaseAddr, RxBaseAddr);
      radio.Write(RegDioMapping1, 0x00);
      radio.Write(RegOpMode, ModeLora | ModeRxContinuous);
      r := Success(radio);
    }

    /** `_read`: one read transaction. */
    method Read(addr: bv8) returns (v: bv8)
      requires Valid()
      modifies chip
      ensures Valid()
      ensures (chip.State(), v) == ReadRegister(old(chip.State()), addr)
    {
      v := chip.Transfer(ReadCommand(addr), 0x00);
    }

    /** `_write`: one write transaction. */
    method Write(addr: bv8, x: bv8)
      requires Valid()
      modifies chip
      ensures Valid()
      ensures chip.State() == WriteRegister(old(chip.State()), addr, x)
    {
      var _ := chip.Transfer(WriteCommand(addr), x);
    }

    method SetTxPower(level: int, pin: int)
      requires Valid()
      modifies chip
      ensures Valid()
      ensures chip.State() == SetTxPowerEffect(old(chip.State()), level, pin)
    {
      if pin == PaOutputRfoPin {
        var clamped := Clamp(level, 0, 14);
        Write(RegPaConfig, 0x70 | clamped as bv8);
      } else {
        var clamped := Clamp(level, 2, 17);
        Write(RegPaConfig, PaBoost | (clamped - 2) as bv8);
      }
    }

    method SetFrequency(mhz: real)
      requires Valid()
      modifies this, chip
      ensures Valid()
      ensures State() == old(State()).(chip := SetFrequencyEffect(old(chip.State()), mhz), frequency := mhz)
    {
      frequency := mhz;
      var x := FrequencyWord(mhz);
      Write(RegFrfMsb, FrfMsb(x));
      Write(RegFrfMid, FrfMid(x));
      Write(RegFrfLsb, FrfLsb(x));
    }

    method SetSpreadingFactor(sf: int) returns (status: Status)
      requires Valid()
      modifies chip
      ensures Valid()
      ensures (chip.State(), status) == SetSpreadingFactorEffect(old(chip.State()), sf)
    {
      if sf < 6 || sf > 12 {
        return Failed(SpreadingFactorOutOfRange);
      }
      Write(RegDetectionOptimize, if sf == 6 then 0xc5 else 0xc3);
      Write(RegDetectionThreshold, if sf == 6 then 0x0c else 0x0a);
      var reg2 := Read(RegModemConfig2);
      Write(RegModemConfig2, (reg2 & 0x0f) | ((sf as bv8 << 4) & 0xf0));
      status := Done;
    }

    method SetBandwidth(bw: int)
      requires Valid()
      modifies chip
      ensures Valid()
      ensures chip.State() == SetBandwidthEffect(old(chip.State()), bw)
    {
      var i := BandwidthFallback;
      var j := 0;
      while j < |Bandwidths|
        invariant 0 <= j <= |Bandwidths|
        invariant forall k :: 0 <= k < j ==> bw > Bandwidths[k]
        invariant i == BandwidthFallback
      {
        if bw <= Bandwidths[j] {
          i := j;
          break;
        }
        j := j + 1;
      }
      assert i == BandwidthIndex(bw);
      var x := Read(RegModemConfig1);
      x := x & 0x0f;
      Write(RegModemConfig1, x | (i as bv8 << 4));
    }

    method SetCodingRate(denom: int)
      requires Valid()
      modifies chip
      ensures Valid()
      ensures chip.State() == SetCodingRateEffect(old(chip.State()), denom)
    {
      var clamped := Clamp(denom, 5, 8);
      var cr := clamped - 4;
      var reg1 := Read(RegModemConfig1);
      Write(RegModemConfig1, (reg1 & 0xf1) | (cr as bv8 << 1));
    }

    method SetPreambleLength(n: int)
      requires Valid()
      modifies chip
      ensures Valid()
      ensures chip.State() == SetPreambleLengthEffect(old(chip.State()), n)
    {
      Write(RegPreambleMsb, PreambleMsb(n));
      Write(RegPreambleLsb, PreambleLsb(n));
    }

    method SetCrc(crc: bool)
      requires Valid()
      modifies chip
      ensures Valid()
      ensures chip.State() == SetCrcEffect(old(chip.State()), crc)
    {
      var config2 := Read(RegModemConfig2);
      var config;
      if crc {
        config := config2 | 0x04;
      } else {
        config := config2 & 0xfb;
      }
      Write(RegModemConfig2, config);
    }

    method SetSyncWord(sw: bv8)
      requires Valid()
      modifies chip
      ensures Valid()
      ensures chip.State() == SetSyncWordEffect(old(chip.State()), sw)
    {
      Write(RegSyncWord, sw);
    }

    method GetRssi() returns (dbm: int)
      requires Valid()
      modifies chip
      ensures Valid()
      ensures (chip.State(), dbm) == GetRssiEffect(old(chip.State()), frequency)
    {
      var rssi := Read(RegPktRssiValue);
      if frequency >= HighBandMhz {
        return rssi as int - 157;
      }
      return rssi as int - 164;
    }

    method GetSnr() returns (db: real)
      requires Valid()
      modifies chip
      ensures Valid()
      ensures (chip.State(), db) == GetSnrEffect(old(chip.State()))
    {
      var raw := Read(RegPktSnrValue);
      db := raw as real * 0.25;
    }

    method GetIrqFlags() returns (f: bv8)
      requires Valid()
      modifies chip
      ensures Valid()
      ensures (chip.State(), f) == GetIrqFlagsEffect(old(chip.State()))
    {
      f := Read(RegIrqFlags);
      Write(RegIrqFlags, f);
    }

    /** The interrupt handler, run once per rising edge of the interrupt line. */
    method Irq()
      requires Valid()
      modifies this, chip
      ensures Valid()
      ensures State() == IrqEffect(old(State()))
    {
      var f := GetIrqFlags();
      ghost var d1 := State();
      if f & IrqTxDoneMask != 0 {
        Write(RegDioMapping1, 0x00);
        Write(RegOpMode, ModeLora | ModeRxContinuous);
        sendFlag := true;
      }
      ghost var d2 := State();
      assert d2 == if f & IrqTxDoneMask != 0 then TxDoneEffect(d1) else d1;
      if f & IrqRxDoneMask != 0 {
        if f & IrqPayloadCrcErrorMask == 0 {
          ReceivePacket();
        }
      }
    }

    /**
      The receive-done branch of the interrupt handler: point the FIFO at the
      last packet, read its length, drain that many bytes into a fresh
      buffer, store it as the packet and raise the receive signal.
     */
    method ReceivePacket()
      requires Valid()
      modifies this, chip
      ensures Valid()
      ensures State() == RxDoneEffect(old(State()))
    {
      var addr := Read(RegFifoRxCurrentAddr);
      Write(RegFifoAddrPtr, addr);
      var n := Read(RegRxNbBytes);
      var payload := DrainFifo(n);
      data := Some(payload[..]);
      recvFlag := true;
    }

    /** The packet-copy loop of the receive-done branch: `n` reads of RegFifo into a fresh buffer. */
    method DrainFifo(n: bv8) returns (payload: array<bv8>)
      requires Valid()
      modifies chip
      ensures Valid()
      ensures fresh(payload) && payload.Length == n as int
      ensures (chip.State(), payload[..]) == ReadFifo(old(chip.State()), n as int)
    {
      ghost var s0 := chip.State();
      payload := new bv8[n as int];
      for i := 0 to n as int
        invariant Valid()
        invariant (chip.State(), payload[..i]) == ReadFifo(s0, i)
      {
        ghost var prefix := payload[..i];
        var b := Read(RegFifo);
        payload[i] := b;
        assert payload[..i + 1] == prefix + [b];
      }
      assert payload[..] == payload[..n as int];
    }

    /** The register part of `send`, up to arming transmit mode. */
    method Send(x: seq<bv8>) returns (status: Status)
      requires Valid()
      modifies chip
      ensures Valid()
      ensures (chip.State(), status) == SendEffect(old(chip.State()), x)
    {
      Write(RegOpMode, ModeLora | ModeStdby);
      Write(RegDioMapping1, 0x40);
      Write(RegFifoAddrPtr, TxBaseAddr);
      var n := |x|;
      var m := MaxPktLength - TxBaseAddr as int;
      if n > m {
        return Failed(PayloadTooLarge(m));
      }
      ghost var s3 := chip.State();
      for i := 0 to n
        invariant Valid()
        invariant chip.State() == WriteFifo(s3, x[..i])
      {
        Write(RegFifo, x[i]);
        assert x[..i + 1][..i] == x[..i];
      }
      assert x[..n] == x;
      Write(RegPayloadLength, n as bv8);
      Write(RegOpMode, ModeLora | ModeTx);
      status := Done;
    }

    /** The wait that ends `send`: true once the transmit-done signal is consumed. */
    method AwaitSent() returns (sent: bool)
      requires Valid()
      modifies this
      ensures Valid()
      ensures (State(), sent) == AwaitSentEffect(old(State()))
    {
      sent := sendFlag;
      sendFlag := false;
    }

    /** `recv`: the stored packet once the receive signal is consumed, None while it is clear. */
    method Recv() returns (packet: Option<seq<bv8>>)
      requires Valid()
      modifies this
      ensures Valid()
      ensures (State(), packet) == RecvEffect(old(State()))
    {
      if !recvFlag {
        return None;
      }
      recvFlag := false;
      packet := data;
    }
  }
}
