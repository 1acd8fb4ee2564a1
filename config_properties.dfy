/**
  What the configuration operations do to the chip: for each setter, the
  exact bus accesses it makes, the registers it changes and the bits it
  leaves alone; and for construction, the register values it leaves behind.
 */
module ConfigProperties {
  import opened Registers
  import opened Chip
  import opened Transport
  import opened Encoding
  import opened Driver
  import opened Bytes

  // ------------------------------------------------------- single accesses

  /** Writing a plain register stores the byte and logs the write. */
  lemma PlainWrite(s: ChipState, a: bv8, x: bv8)
    requires s.WellFormed() && a < 0x80 && a != RegFifo && a != RegIrqFlags
    ensures WriteRegister(s, a, x) == ChipState(s.regs[a as int := x], s.fifo, s.log + [RegWrite(a, x)])
  {
  }

  /** Reading a register other than RegFifo returns its value and only logs the read. */
  lemma PlainRead(s: ChipState, a: bv8)
    requires s.WellFormed() && a < 0x80 && a != RegFifo
    ensures ReadRegister(s, a) == (ChipState(s.regs, s.fifo, s.log + [RegRead(a, s.regs[a as int])]), s.regs[a as int])
  {
  }

  // ---------------------------------------------------------------- setters

  /** Transmit power: one write of RegPaConfig, with the output bits and a clamped level. */
  lemma SetTxPowerSpec(s: ChipState, level: int, pin: int)
    requires s.WellFormed()
    ensures var r := SetTxPowerEffect(s, level, pin);
      var v := r.regs[RegPaConfig as int];
      && r == ChipState(s.regs[RegPaConfig as int := v], s.fifo, s.log + [RegWrite(RegPaConfig, v)])
      && (pin == PaOutputRfoPin ==> v & 0xf0 == 0x70 && (v & 0x0f) as int == Clamp(level, 0, 14))
      && (pin != PaOutputRfoPin ==> v & 0xf0 == PaBoost && (v & 0x0f) as int + 2 == Clamp(level, 2, 17))
  {
    PlainWrite(s, RegPaConfig, PaConfigValue(level, pin));
  }

  /**
    Frequency: three writes, most significant byte first, whose bytes
    reassemble to the frequency word modulo 2^24; the word is within half a
    step of `mhz * 16384`.
   */
  lemma SetFrequencySpec(s: ChipState, mhz: real)
    requires s.WellFormed()
    ensures var r := SetFrequencyEffect(s, mhz);
      var x := FrequencyWord(mhz);
      var msb := r.regs[RegFrfMsb as int];
      var mid := r.regs[RegFrfMid as int];
      var lsb := r.regs[RegFrfLsb as int];
      && r.regs == s.regs[RegFrfMsb as int := msb][RegFrfMid as int := mid][RegFrfLsb as int := lsb]
      && r.fifo == s.fifo
      && r.log == s.log + [RegWrite(RegFrfMsb, msb), RegWrite(RegFrfMid, mid), RegWrite(RegFrfLsb, lsb)]
      && Reassemble3(msb, mid, lsb) == x % 0x100_0000
      && -0.5 <= x as real - mhz * 16384.0 <= 0.5
  {
    var x := FrequencyWord(mhz);
    var s1 := WriteRegister(s, RegFrfMsb, FrfMsb(x));
    var s2 := WriteRegister(s1, RegFrfMid, FrfMid(x));
    PlainWrite(s, RegFrfMsb, FrfMsb(x));
    PlainWrite(s1, RegFrfMid, FrfMid(x));
    PlainWrite(s2, RegFrfLsb, FrfLsb(x));
    FrequencyBytesRoundTrip(x);
  }

  /**
    Spreading factor: outside 6..12 it is rejected before any access;
    otherwise the detection pair for SF6 or for the other factors is
    written, then RegModemConfig2 is read and written back with the factor
    in its high nibble and its low nibble kept.
   */
  lemma SetSpreadingFactorSpec(s: ChipState, sf: int)
    requires s.WellFormed()
    ensures var (r, status) := SetSpreadingFactorEffect(s, sf);
      && ((sf < 6 || sf > 12) <==> status == Failed(SpreadingFactorOutOfRange))
      && ((sf < 6 || sf > 12) ==> r == s)
      && (6 <= sf <= 12 ==>
            var opt: bv8 := if sf == 6 then 0xc5 else 0xc3;
            var thr: bv8 := if sf == 6 then 0x0c else 0x0a;
            var old2 := s.regs[RegModemConfig2 as int];
            var new2 := r.regs[RegModemConfig2 as int];
            && status == Done
            && (new2 >> 4) as int == sf
            && new2 & 0x0f == old2 & 0x0f
            && r.regs == s.regs[RegDetectionOptimize as int := opt][RegDetectionThreshold as int := thr][RegModemConfig2 as int := new2]
            && r.fifo == s.fifo
            && r.log == s.log + [RegWrite(RegDetectionOptimize, opt), RegWrite(RegDetectionThreshold, thr),
                                 RegRead(RegModemConfig2, old2), RegWrite(RegModemConfig2, new2)])
  {
    if 6 <= sf <= 12 {
      var s1 := WriteRegister(s, RegDetectionOptimize, DetectionOptimize(sf));
      var s2 := WriteRegister(s1, RegDetectionThreshold, DetectionThreshold(sf));
      PlainWrite(s, RegDetectionOptimize, DetectionOptimize(sf));
      PlainWrite(s1, RegDetectionThreshold, DetectionThreshold(sf));
      PlainRead(s2, RegModemConfig2);
      var (s3, reg2) := ReadRegister(s2, RegModemConfig2);
      PlainWrite(s3, RegModemConfig2, SpreadingFactorConfig(reg2, sf));
    }
  }

  /**
    Bandwidth: RegModemConfig1 is read and written back with the index of
    the narrowest listed bandwidth that is at least `bw` (9 when `bw` is
    above every entry) in its high nibble, and its low nibble kept.
   */
  lemma SetBandwidthSpec(s: ChipState, bw: int)
    requires s.WellFormed()
    ensures var r := SetBandwidthEffect(s, bw);
      var old1 := s.regs[RegModemConfig1 as int];
      var new1 := r.regs[RegModemConfig1 as int];
      var i := (new1 >> 4) as int;
      && r.regs == s.regs[RegModemConfig1 as int := new1]
      && r.fifo == s.fifo
      && r.log == s.log + [RegRead(RegModemConfig1, old1), RegWrite(RegModemConfig1, new1)]
      && new1 & 0x0f == old1 & 0x0f
      && (i < |Bandwidths| ==> bw <= Bandwidths[i])
      && (forall k :: 0 <= k < i && k < |Bandwidths| ==> bw > Bandwidths[k])
      && (i == 9 <==> bw > 250000)
  {
    PlainRead(s, RegModemConfig1);
    var (s1, reg1) := ReadRegister(s, RegModemConfig1);
    PlainWrite(s1, RegModemConfig1, BandwidthConfig(reg1, BandwidthIndex(bw)));
  }

  /**
    Reading back the bandwidth nibble: a request of 20000 Hz selects the
    20800 Hz entry (index 3); 500000 Hz is above every entry and selects 9.
   */
  lemma BandwidthReadBack(s: ChipState)
    requires s.WellFormed()
    ensures SetBandwidthEffect(s, 20000).regs[RegModemConfig1 as int] >> 4 == 3
    ensures SetBandwidthEffect(s, 500000).regs[RegModemConfig1 as int] >> 4 == 9
  {
    SetBandwidthSpec(s, 20000);
    SetBandwidthSpec(s, 500000);
  }

  /**
    Coding rate: RegModemConfig1 is read and written back with 4/`denom`
    (denominator clamped to 5..8) in bits 1-3 and every other bit kept.
   */
  lemma SetCodingRateSpec(s: ChipState, denom: int)
    requires s.WellFormed()
    ensures var r := SetCodingRateEffect(s, denom);
      var old1 := s.regs[RegModemConfig1 as int];
      var new1 := r.regs[RegModemConfig1 as int];
      && r.regs == s.regs[RegModemConfig1 as int := new1]
      && r.fifo == s.fifo
      && r.log == s.log + [RegRead(RegModemConfig1, old1), RegWrite(RegModemConfig1, new1)]
      && ((new1 >> 1) & 0x07) as int + 4 == Clamp(denom, 5, 8)
      && new1 & 0xf1 == old1 & 0xf1
  {
    PlainRead(s, RegModemConfig1);
    var (s1, reg1) := ReadRegister(s, RegModemConfig1);
    PlainWrite(s1, RegModemConfig1, CodingRateConfig(reg1, denom));
  }

  /**
    Bandwidth and coding rate share RegModemConfig1 without interfering:
    in either order both settings land, the remaining bit is kept, and
    the registers end up the same.
   */
  lemma BandwidthCodingRateIndependent(s: ChipState, bw: int, denom: int)
    requires s.WellFormed()
    ensures var r1 := SetCodingRateEffect(SetBandwidthEffect(s, bw), denom);
      var r2 := SetBandwidthEffect(SetCodingRateEffect(s, denom), bw);
      var v := r1.regs[RegModemConfig1 as int];
      && r1.regs == r2.regs
      && (v >> 4) as int == BandwidthIndex(bw)
      && ((v >> 1) & 0x07) as int + 4 == Clamp(denom, 5, 8)
      && v & 0x01 == s.regs[RegModemConfig1 as int] & 0x01
  {
    var old1 := s.regs[RegModemConfig1 as int];
    var i := BandwidthIndex(bw);
    var x := CodingRateConfig(BandwidthConfig(old1, i), denom);
    PlainRead(s, RegModemConfig1);
    var (s1, _) := ReadRegister(s, RegModemConfig1);
    PlainWrite(s1, RegModemConfig1, BandwidthConfig(old1, i));
    var a := SetBandwidthEffect(s, bw);
    PlainRead(a, RegModemConfig1);
    var (a1, _) := ReadRegister(a, RegModemConfig1);
    PlainWrite(a1, RegModemConfig1, x);
    assert SetCodingRateEffect(a, denom).regs == s.regs[RegModemConfig1 as int := x];
    PlainWrite(s1, RegModemConfig1, CodingRateConfig(old1, denom));
    var b := SetCodingRateEffect(s, denom);
    PlainRead(b, RegModemConfig1);
    var (b1, _) := ReadRegister(b, RegModemConfig1);
    PlainWrite(b1, RegModemConfig1, BandwidthConfig(CodingRateConfig(old1, denom), i));
    ConfigBitsCommute(old1, i, denom);
    assert SetBandwidthEffect(b, bw).regs == s.regs[RegModemConfig1 as int := x];
  }

  /** The bandwidth nibble and the coding-rate bits are disjoint fields of one byte. */
  lemma ConfigBitsCommute(v: bv8, i: nat, denom: int)
    requires i <= 9
    ensures var x := CodingRateConfig(BandwidthConfig(v, i), denom);
      && x == BandwidthConfig(CodingRateConfig(v, denom), i)
      && (x >> 4) as int == i
      && ((x >> 1) & 0x07) as int + 4 == Clamp(denom, 5, 8)
      && x & 0x01 == v & 0x01
  {
    var cr := Clamp(denom, 5, 8) - 4;
    var c: bv8 := cr as bv8;
    var b: bv8 := i as bv8;
    assert c <= 4 && b <= 9;
    assert (((v & 0x0f) | (b << 4)) & 0xf1) | (c << 1) == (((v & 0xf1) | (c << 1)) & 0x0f) | (b << 4);
  }

  /** Preamble length: two writes, high byte first, that reassemble to the length modulo 2^16. */
  lemma SetPreambleLengthSpec(s: ChipState, n: int)
    requires s.WellFormed()
    ensures var r := SetPreambleLengthEffect(s, n);
      var msb := r.regs[RegPreambleMsb as int];
      var lsb := r.regs[RegPreambleLsb as int];
      && r.regs == s.regs[RegPreambleMsb as int := msb][RegPreambleLsb as int := lsb]
      && r.fifo == s.fifo
      && r.log == s.log + [RegWrite(RegPreambleMsb, msb), RegWrite(RegPreambleLsb, lsb)]
      && msb as int * 0x100 + lsb as int == n % 0x10000
  {
    PlainWrite(s, RegPreambleMsb, PreambleMsb(n));
    PlainWrite(WriteRegister(s, RegPreambleMsb, PreambleMsb(n)), RegPreambleLsb, PreambleLsb(n));
    PreambleBytesRoundTrip(n);
  }

  /**
    CRC: RegModemConfig2 is read and written back with bit 2 equal to
    `crc` and every other bit kept, so the spreading factor survives.
   */
  lemma SetCrcSpec(s: ChipState, crc: bool)
    requires s.WellFormed()
    ensures var r := SetCrcEffect(s, crc);
      var old2 := s.regs[RegModemConfig2 as int];
      var new2 := r.regs[RegModemConfig2 as int];
      && r.regs == s.regs[RegModemConfig2 as int := new2]
      && r.fifo == s.fifo
      && r.log == s.log + [RegRead(RegModemConfig2, old2), RegWrite(RegModemConfig2, new2)]
      && (new2 & 0x04 != 0) == crc
      && new2 & 0xfb == old2 & 0xfb
      && new2 >> 4 == old2 >> 4
  {
    PlainRead(s, RegModemConfig2);
    var (s1, reg2) := ReadRegister(s, RegModemConfig2);
    PlainWrite(s1, RegModemConfig2, CrcConfig(reg2, crc));
    var new2 := CrcConfig(reg2, crc);
    assert new2 >> 4 == (new2 & 0xfb) >> 4;
    assert reg2 >> 4 == (reg2 & 0xfb) >> 4;
  }

  /** Setting the CRC flag twice leaves the registers as setting it once. */
  lemma SetCrcIdempotent(s: ChipState, crc: bool)
    requires s.WellFormed()
    ensures SetCrcEffect(SetCrcEffect(s, crc), crc).regs == SetCrcEffect(s, crc).regs
    ensures SetCrcEffect(SetCrcEffect(s, crc), crc).fifo == s.fifo
  {
    var r1 := SetCrcEffect(s, crc);
    SetCrcSpec(s, crc);
    SetCrcSpec(r1, crc);
    var v := r1.regs[RegModemConfig2 as int];
    var w := SetCrcEffect(r1, crc).regs[RegModemConfig2 as int];
    assert (w & 0x04 != 0) == (v & 0x04 != 0) && w & 0xfb == v & 0xfb;
    assert w == (w & 0xfb) | (w & 0x04);
    assert v == (v & 0xfb) | (v & 0x04);
  }

  /** A later spreading-factor change keeps the CRC bit. */
  lemma SpreadingFactorKeepsCrc(s: ChipState, crc: bool, sf: int)
    requires s.WellFormed() && 6 <= sf <= 12
    ensures var r := SetSpreadingFactorEffect(SetCrcEffect(s, crc), sf).0;
      (r.regs[RegModemConfig2 as int] & 0x04 != 0) == crc
  {
    var r1 := SetCrcEffect(s, crc);
    SetCrcSpec(s, crc);
    SetSpreadingFactorSpec(r1, sf);
    var v := r1.regs[RegModemConfig2 as int];
    var w := SetSpreadingFactorEffect(r1, sf).0.regs[RegModemConfig2 as int];
    assert w & 0x0f == v & 0x0f;
    assert w & 0x04 == (w & 0x0f) & 0x04;
    assert v & 0x04 == (v & 0x0f) & 0x04;
  }

  /** Sync word: one write of RegSyncWord. */
  lemma SetSyncWordSpec(s: ChipState, sw: bv8)
    requires s.WellFormed()
    ensures var r := SetSyncWordEffect(s, sw);
      r.regs[RegSyncWord as int] == sw
      && r == ChipState(s.regs[RegSyncWord as int := sw], s.fifo, s.log + [RegWrite(RegSyncWord, sw)])
  {
    PlainWrite(s, RegSyncWord, sw);
  }

  // ----------------------------------------------------------- construction

  /** A chip that does not answer the expected version is rejected after that single read. */
  lemma InitRejectsWrongVersion(s: ChipState, cfg: Config)
    requires s.WellFormed() && s.regs[RegVersion as int] != ExpectedVersion
    ensures InitEffect(s, cfg) ==
      (ChipState(s.regs, s.fifo, s.log + [RegRead(RegVersion, s.regs[RegVersion as int])]), Failed(BadVersion))
  {
    PlainRead(s, RegVersion);
  }

  /** The radio settings stop at a rejected spreading factor, after frequency and bandwidth. */
  lemma ConfigureRejectsSpreadingFactor(s: ChipState, cfg: Config)
    requires s.WellFormed()
    requires cfg.spreadingFactor < 6 || cfg.spreadingFactor > 12
    ensures var (r, status) := ConfigureEffect(s, cfg);
      && status == Failed(SpreadingFactorOutOfRange)
      && r == SetBandwidthEffect(SetFrequencyEffect(s, cfg.frequency), cfg.bandwidth)
      && r.fifo == s.fifo
      && |r.log| == |s.log| + 5
  {
    SetFrequencySpec(s, cfg.frequency);
    var s1 := SetFrequencyEffect(s, cfg.frequency);
    SetBandwidthSpec(s1, cfg.bandwidth);
    SetSpreadingFactorSpec(SetBandwidthEffect(s1, cfg.bandwidth), cfg.spreadingFactor);
  }

  /**
    The radio settings with a valid spreading factor: each field lands in
    its register, the bits of RegModemConfig1 and RegModemConfig2 that no
    setting owns are kept, and the FIFO is untouched.
   */
  lemma ConfigureSpec(s: ChipState, cfg: Config)
    requires s.WellFormed() && 6 <= cfg.spreadingFactor <= 12
    ensures var (r, status) := ConfigureEffect(s, cfg);
      var mc1 := r.regs[RegModemConfig1 as int];
      var mc2 := r.regs[RegModemConfig2 as int];
      && status == Done
      && r.fifo == s.fifo
      && Reassemble3(r.regs[RegFrfMsb as int], r.regs[RegFrfMid as int], r.regs[RegFrfLsb as int])
           == FrequencyWord(cfg.frequency) % 0x100_0000
      && (mc1 >> 4) as int == BandwidthIndex(cfg.bandwidth)
      && ((mc1 >> 1) & 0x07) as int + 4 == Clamp(cfg.codingRate, 5, 8)
      && mc1 & 0x01 == s.regs[RegModemConfig1 as int] & 0x01
      && (mc2 >> 4) as int == cfg.spreadingFactor
      && (mc2 & 0x04 != 0) == cfg.crc
      && r.regs[RegDetectionOptimize as int] == (if cfg.spreadingFactor == 6 then 0xc5 else 0xc3)
      && r.regs[RegDetectionThreshold as int] == (if cfg.spreadingFactor == 6 then 0x0c else 0x0a)
      && r.regs[RegPreambleMsb as int] as int * 0x100 + r.regs[RegPreambleLsb as int] as int
           == cfg.preambleLength % 0x10000
      && forall k :: 0 <= k < 128 && !ConfigureRegister(k) ==> r.regs[k] == s.regs[k]
  {
    var x := FrequencyWord(cfg.frequency);
    var v1 := s.regs[RegModemConfig1 as int];
    var v2 := s.regs[RegModemConfig2 as int];
    var i := BandwidthIndex(cfg.bandwidth);
    var sf := cfg.spreadingFactor;
    var mc1 := CodingRateConfig(BandwidthConfig(v1, i), cfg.codingRate);
    var mc2 := CrcConfig(SpreadingFactorConfig(v2, sf), cfg.crc);
    ConfigureState(s, cfg);
    ConfigureStores(s.regs, ConfigureEffect(s, cfg).0.regs, FrfMsb(x), FrfMid(x), FrfLsb(x),
                    BandwidthConfig(v1, i), DetectionOptimize(sf), DetectionThreshold(sf),
                    SpreadingFactorConfig(v2, sf), mc1, PreambleMsb(cfg.preambleLength),
                    PreambleLsb(cfg.preambleLength), mc2);
    FrequencyBytesRoundTrip(x);
    PreambleBytesRoundTrip(cfg.preambleLength);
    ConfigBitsCommute(v1, i, cfg.codingRate);
    CrcKeepsSpreadingFactor(SpreadingFactorConfig(v2, sf), cfg.crc);
  }

  /** The CRC bit lies outside the spreading-factor nibble. */
  lemma CrcKeepsSpreadingFactor(v: bv8, crc: bool)
    ensures CrcConfig(v, crc) >> 4 == v >> 4
  {
    var w := CrcConfig(v, crc);
    assert w >> 4 == (w & 0xfb) >> 4;
    assert v >> 4 == (v & 0xfb) >> 4;
  }

  /** The register file after the radio settings, as the chain of stores they make. */
  lemma ConfigureState(s: ChipState, cfg: Config)
    requires s.WellFormed() && 6 <= cfg.spreadingFactor <= 12
    ensures var (r, status) := ConfigureEffect(s, cfg);
      var x := FrequencyWord(cfg.frequency);
      var v1 := s.regs[RegModemConfig1 as int];
      var v2 := s.regs[RegModemConfig2 as int];
      var i := BandwidthIndex(cfg.bandwidth);
      var sf := cfg.spreadingFactor;
      && status == Done
      && r.fifo == s.fifo
      && r.regs == s.regs[RegFrfMsb as int := FrfMsb(x)][RegFrfMid as int := FrfMid(x)][RegFrfLsb as int := FrfLsb(x)]
                         [RegModemConfig1 as int := BandwidthConfig(v1, i)]
                         [RegDetectionOptimize as int := DetectionOptimize(sf)]
                         [RegDetectionThreshold as int := DetectionThreshold(sf)]
                         [RegModemConfig2 as int := SpreadingFactorConfig(v2, sf)]
                         [RegModemConfig1 as int := CodingRateConfig(BandwidthConfig(v1, i), cfg.codingRate)]
                         [RegPreambleMsb as int := PreambleMsb(cfg.preambleLength)]
                         [RegPreambleLsb as int := PreambleLsb(cfg.preambleLength)]
                         [RegModemConfig2 as int := CrcConfig(SpreadingFactorConfig(v2, sf), cfg.crc)]
  {
    var x := FrequencyWord(cfg.frequency);
    var sf := cfg.spreadingFactor;
    var s1 := WriteRegister(s, RegFrfMsb, FrfMsb(x));
    var s2 := WriteRegister(s1, RegFrfMid, FrfMid(x));
    PlainWrite(s, RegFrfMsb, FrfMsb(x));
    PlainWrite(s1, RegFrfMid, FrfMid(x));
    PlainWrite(s2, RegFrfLsb, FrfLsb(x));
    var t1 := SetFrequencyEffect(s, cfg.frequency);
    PlainRead(t1, RegModemConfig1);
    var (u1, reg1) := ReadRegister(t1, RegModemConfig1);
    PlainWrite(u1, RegModemConfig1, BandwidthConfig(reg1, BandwidthIndex(cfg.bandwidth)));
    var t2 := SetBandwidthEffect(t1, cfg.bandwidth);
    var w1 := WriteRegister(t2, RegDetectionOptimize, DetectionOptimize(sf));
    var w2 := WriteRegister(w1, RegDetectionThreshold, DetectionThreshold(sf));
    PlainWrite(t2, RegDetectionOptimize, DetectionOptimize(sf));
    PlainWrite(w1, RegDetectionThreshold, DetectionThreshold(sf));
    PlainRead(w2, RegModemConfig2);
    var (w3, reg2) := ReadRegister(w2, RegModemConfig2);
    PlainWrite(w3, RegModemConfig2, SpreadingFactorConfig(reg2, sf));
    var t3 := SetSpreadingFactorEffect(t2, sf).0;
    PlainRead(t3, RegModemConfig1);
    var (u3, reg1b) := ReadRegister(t3, RegModemConfig1);
    PlainWrite(u3, RegModemConfig1, CodingRateConfig(reg1b, cfg.codingRate));
    var t4 := SetCodingRateEffect(t3, cfg.codingRate);
    PlainWrite(t4, RegPreambleMsb, PreambleMsb(cfg.preambleLength));
    PlainWrite(WriteRegister(t4, RegPreambleMsb, PreambleMsb(cfg.preambleLength)), RegPreambleLsb,
               PreambleLsb(cfg.preambleLength));
    var t5 := SetPreambleLengthEffect(t4, cfg.preambleLength);
    PlainRead(t5, RegModemConfig2);
    var (u5, reg2b) := ReadRegister(t5, RegModemConfig2);
    PlainWrite(u5, RegModemConfig2, CrcConfig(reg2b, cfg.crc));
  }

  /** What the chain of stores of the radio settings leaves in each register. */
  lemma ConfigureStores(a: seq<bv8>, b: seq<bv8>, msb: bv8, mid: bv8, lsb: bv8, bw1: bv8, opt: bv8, thr: bv8,
                        sf2: bv8, mc1: bv8, pmsb: bv8, plsb: bv8, mc2: bv8)
    requires |a| == 128
    requires b == a[RegFrfMsb as int := msb][RegFrfMid as int := mid][RegFrfLsb as int := lsb]
                   [RegModemConfig1 as int := bw1][RegDetectionOptimize as int := opt]
                   [RegDetectionThreshold as int := thr][RegModemConfig2 as int := sf2]
                   [RegModemConfig1 as int := mc1][RegPreambleMsb as int := pmsb]
                   [RegPreambleLsb as int := plsb][RegModemConfig2 as int := mc2]
    ensures b[RegFrfMsb as int] == msb && b[RegFrfMid as int] == mid && b[RegFrfLsb as int] == lsb
    ensures b[RegModemConfig1 as int] == mc1 && b[RegModemConfig2 as int] == mc2
    ensures b[RegDetectionOptimize as int] == opt && b[RegDetectionThreshold as int] == thr
    ensures b[RegPreambleMsb as int] == pmsb && b[RegPreambleLsb as int] == plsb
    ensures forall k :: 0 <= k < 128 && !ConfigureRegister(k) ==> b[k] == a[k]
  {
  }

  /** Registers the radio settings may change. */
  predicate ConfigureRegister(k: int) {
    k in {0x06, 0x07, 0x08, 0x1d, 0x1e, 0x20, 0x21, 0x31, 0x37}
  }

  /**
    The rest of construction sets the LNA boost bits on top of the previous
    LNA value, the remaining settings and continuous receive, and changes no
    register the radio settings own.
   */
  lemma FinishSpec(s: ChipState, cfg: Config)
    requires s.WellFormed()
    ensures var r := FinishEffect(s, cfg);
      && r.fifo == s.fifo
      && r.regs[RegOpMode as int] == ModeLora | ModeRxContinuous
      && r.regs[RegDioMapping1 as int] == 0x00
      && r.regs[RegLna as int] == s.regs[RegLna as int] | 0x03
      && r.regs[RegModemConfig3 as int] == 0x04
      && r.regs[RegPaConfig as int] == PaConfigValue(cfg.txPower, PaOutputPaBoostPin)
      && r.regs[RegSyncWord as int] == cfg.syncWord
      && r.regs[RegFifoTxBaseAddr as int] == 0x00
      && r.regs[RegFifoRxBaseAddr as int] == 0x00
      && forall k :: ConfigureRegister(k) ==> r.regs[k] == s.regs[k]
  {
    FinishState(s, cfg);
    FinishStores(s.regs, FinishEffect(s, cfg).regs, s.regs[RegLna as int] | 0x03,
                        PaConfigValue(cfg.txPower, PaOutputPaBoostPin), cfg.syncWord);
  }

  /**
    What the chain of stores of the rest of construction leaves in each
    register; it misses every register the radio settings own.
   */
  lemma FinishStores(a: seq<bv8>, b: seq<bv8>, lna: bv8, pa: bv8, sw: bv8)
    requires |a| == 128
    requires b == a[RegLna as int := lna][RegModemConfig3 as int := 0x04][RegPaConfig as int := pa]
                   [RegSyncWord as int := sw][RegFifoTxBaseAddr as int := 0x00]
                   [RegFifoRxBaseAddr as int := 0x00][RegDioMapping1 as int := 0x00]
                   [RegOpMode as int := ModeLora | ModeRxContinuous]
    ensures b[RegOpMode as int] == ModeLora | ModeRxContinuous && b[RegDioMapping1 as int] == 0x00
    ensures b[RegLna as int] == lna && b[RegModemConfig3 as int] == 0x04 && b[RegPaConfig as int] == pa
    ensures b[RegSyncWord as int] == sw && b[RegFifoTxBaseAddr as int] == 0x00 && b[RegFifoRxBaseAddr as int] == 0x00
    ensures forall k :: ConfigureRegister(k) ==> b[k] == a[k]
  {
  }

  /** The register file after the rest of construction, as a chain of stores. */
  lemma FinishState(s: ChipState, cfg: Config)
    requires s.WellFormed()
    ensures var r := FinishEffect(s, cfg);
      && r.fifo == s.fifo
      && r.regs == s.regs[RegLna as int := s.regs[RegLna as int] | 0x03][RegModemConfig3 as int := 0x04]
                         [RegPaConfig as int := PaConfigValue(cfg.txPower, PaOutputPaBoostPin)]
                         [RegSyncWord as int := cfg.syncWord][RegFifoTxBaseAddr as int := 0x00]
                         [RegFifoRxBaseAddr as int := 0x00][RegDioMapping1 as int := 0x00]
                         [RegOpMode as int := ModeLora | ModeRxContinuous]
  {
    var lna := s.regs[RegLna as int];
    var pa := PaConfigValue(cfg.txPower, PaOutputPaBoostPin);
    PlainRead(s, RegLna);
    var s1 := ReadRegister(s, RegLna).0;
    PlainWrite(s1, RegLna, lna | 0x03);
    var s2 := WriteRegister(s1, RegLna, lna | 0x03);
    PlainWrite(s2, RegModemConfig3, 0x04);
    var s3 := WriteRegister(s2, RegModemConfig3, 0x04);
    PlainWrite(s3, RegPaConfig, pa);
    var s4 := SetTxPowerEffect(s3, cfg.txPower, PaOutputPaBoostPin);
    PlainWrite(s4, RegSyncWord, cfg.syncWord);
    var s5 := SetSyncWordEffect(s4, cfg.syncWord);
    PlainWrite(s5, RegFifoTxBaseAddr, TxBaseAddr);
    var s6 := WriteRegister(s5, RegFifoTxBaseAddr, TxBaseAddr);
    PlainWrite(s6, RegFifoRxBaseAddr, RxBaseAddr);
    var s7 := WriteRegister(s6, RegFifoRxBaseAddr, RxBaseAddr);
    PlainWrite(s7, RegDioMapping1, 0x00);
    var s8 := WriteRegister(s7, RegDioMapping1, 0x00);
    PlainWrite(s8, RegOpMode, ModeLora | ModeRxContinuous);
  }

  /**
    A spreading factor outside 6..12 fails construction after the chip was
    put to sleep and the frequency and bandwidth were written, and before
    anything that follows it.
   */
  lemma InitRejectsSpreadingFactor(s: ChipState, cfg: Config)
    requires s.WellFormed() && s.regs[RegVersion as int] == ExpectedVersion
    requires cfg.spreadingFactor < 6 || cfg.spreadingFactor > 12
    ensures var (r, status) := InitEffect(s, cfg);
      && status == Failed(SpreadingFactorOutOfRange)
      && r.regs[RegOpMode as int] == ModeLora | ModeSleep
      && r.fifo == s.fifo
      && |r.log| == |s.log| + 7
      && r.log[|s.log| + 1] == RegWrite(RegOpMode, ModeLora | ModeSleep)
  {
    PlainRead(s, RegVersion);
    var (s0, _) := ReadRegister(s, RegVersion);
    PlainWrite(s0, RegOpMode, ModeLora | ModeSleep);
    var s1 := WriteRegister(s0, RegOpMode, ModeLora | ModeSleep);
    ConfigureRejectsSpreadingFactor(s1, cfg);
    SetFrequencySpec(s1, cfg.frequency);
    SetBandwidthSpec(SetFrequencyEffect(s1, cfg.frequency), cfg.bandwidth);
    var r := ConfigureEffect(s1, cfg).0;
    assert r.log[..|s1.log|] == s1.log;
  }

  /** With a valid spreading factor the radio settings run to the end. */
  lemma ConfigureAccepts(s: ChipState, cfg: Config)
    requires s.WellFormed() && 6 <= cfg.spreadingFactor <= 12
    ensures ConfigureEffect(s, cfg).1 == Done
  {
  }

  /** Construction with the expected version and a valid spreading factor, phase by phase. */
  lemma InitPhases(s: ChipState, cfg: Config)
    requires s.WellFormed() && s.regs[RegVersion as int] == ExpectedVersion
    requires 6 <= cfg.spreadingFactor <= 12
    ensures var s1 := WriteRegister(ReadRegister(s, RegVersion).0, RegOpMode, ModeLora | ModeSleep);
      && s1 == ChipState(s.regs[RegOpMode as int := ModeLora | ModeSleep], s.fifo,
                         s.log + [RegRead(RegVersion, ExpectedVersion), RegWrite(RegOpMode, ModeLora | ModeSleep)])
      && InitEffect(s, cfg) == (FinishEffect(ConfigureEffect(s1, cfg).0, cfg), Done)
  {
    PlainRead(s, RegVersion);
    var s0 := ReadRegister(s, RegVersion).0;
    PlainWrite(s0, RegOpMode, ModeLora | ModeSleep);
    ConfigureAccepts(WriteRegister(s0, RegOpMode, ModeLora | ModeSleep), cfg);
  }

  /**
    Successful construction leaves the radio configured from `cfg`:
    frequency, bandwidth, coding rate, spreading factor with its detection
    pair, preamble and CRC; the FIFO is untouched.
   */
  lemma InitRadioSettings(s: ChipState, cfg: Config)
    requires s.WellFormed() && s.regs[RegVersion as int] == ExpectedVersion
    requires 6 <= cfg.spreadingFactor <= 12
    ensures var (r, status) := InitEffect(s, cfg);
      var mc1 := r.regs[RegModemConfig1 as int];
      var mc2 := r.regs[RegModemConfig2 as int];
      && status == Done
      && r.fifo == s.fifo
      && Reassemble3(r.regs[RegFrfMsb as int], r.regs[RegFrfMid as int], r.regs[RegFrfLsb as int])
           == FrequencyWord(cfg.frequency) % 0x100_0000
      && (mc1 >> 4) as int == BandwidthIndex(cfg.bandwidth)
      && ((mc1 >> 1) & 0x07) as int + 4 == Clamp(cfg.codingRate, 5, 8)
      && mc1 & 0x01 == s.regs[RegModemConfig1 as int] & 0x01
      && (mc2 >> 4) as int == cfg.spreadingFactor
      && (mc2 & 0x04 != 0) == cfg.crc
      && r.regs[RegDetectionOptimize as int] == (if cfg.spreadingFactor == 6 then 0xc5 else 0xc3)
      && r.regs[RegDetectionThreshold as int] == (if cfg.spreadingFactor == 6 then 0x0c else 0x0a)
      && r.regs[RegPreambleMsb as int] as int * 0x100 + r.regs[RegPreambleLsb as int] as int
           == cfg.preambleLength % 0x10000
  {
    InitPhases(s, cfg);
    var s1 := WriteRegister(ReadRegister(s, RegVersion).0, RegOpMode, ModeLora | ModeSleep);
    ConfigureSpec(s1, cfg);
    var s2 := ConfigureEffect(s1, cfg).0;
    FinishSpec(s2, cfg);
    assert ConfigureRegister(RegModemConfig1 as int) && ConfigureRegister(RegModemConfig2 as int);
    assert ConfigureRegister(RegFrfMsb as int) && ConfigureRegister(RegFrfMid as int) && ConfigureRegister(RegFrfLsb as int);
    assert ConfigureRegister(RegDetectionOptimize as int) && ConfigureRegister(RegDetectionThreshold as int);
    assert ConfigureRegister(RegPreambleMsb as int) && ConfigureRegister(RegPreambleLsb as int);
  }

  /**
    Successful construction ends in LoRa continuous receive with the
    receive-done interrupt mapping, the LNA boost bits set on top of the
    previous LNA value, automatic gain control, PA_BOOST power, the sync
    word and both FIFO bases at 0.
   */
  lemma InitFinalState(s: ChipState, cfg: Config)
    requires s.WellFormed() && s.regs[RegVersion as int] == ExpectedVersion
    requires 6 <= cfg.spreadingFactor <= 12
    ensures var (r, status) := InitEffect(s, cfg);
      && status == Done
      && r.regs[RegOpMode as int] == ModeLora | ModeRxContinuous
      && r.regs[RegDioMapping1 as int] == 0x00
      && r.regs[RegLna as int] == s.regs[RegLna as int] | 0x03
      && r.regs[RegModemConfig3 as int] == 0x04
      && r.regs[RegPaConfig as int] == PaConfigValue(cfg.txPower, PaOutputPaBoostPin)
      && r.regs[RegSyncWord as int] == cfg.syncWord
      && r.regs[RegFifoTxBaseAddr as int] == 0x00
      && r.regs[RegFifoRxBaseAddr as int] == 0x00
  {
    InitPhases(s, cfg);
    var s1 := WriteRegister(ReadRegister(s, RegVersion).0, RegOpMode, ModeLora | ModeSleep);
    ConfigureSpec(s1, cfg);
    var s2 := ConfigureEffect(s1, cfg).0;
    FinishSpec(s2, cfg);
    assert !ConfigureRegister(RegLna as int);
  }

  /**
    Construction with every parameter left at its default: 915 MHz, the
    250 kHz bandwidth (index 8), spreading factor 10, coding rate 4/8, a
    preamble of 4, no CRC, sync word 0x12, and a requested power of 24
    that PA_BOOST clamps to 17, so RegPaConfig holds 0x8f.
   */
  lemma DefaultConstruction(s: ChipState, cfg: Config)
    requires s.WellFormed() && s.regs[RegVersion as int] == ExpectedVersion
    requires cfg == DefaultConfig
    ensures var (r, status) := InitEffect(s, cfg);
      var mc1 := r.regs[RegModemConfig1 as int];
      var mc2 := r.regs[RegModemConfig2 as int];
      && status == Done
      && Reassemble3(r.regs[RegFrfMsb as int], r.regs[RegFrfMid as int], r.regs[RegFrfLsb as int]) == 14991360
      && (mc1 >> 4) as int == 8
      && ((mc1 >> 1) & 0x07) as int == 4
      && (mc2 >> 4) as int == 10
      && mc2 & 0x04 == 0
      && r.regs[RegDetectionOptimize as int] == 0xc3
      && r.regs[RegDetectionThreshold as int] == 0x0a
      && r.regs[RegPreambleMsb as int] == 0 && r.regs[RegPreambleLsb as int] == 4
      && r.regs[RegPaConfig as int] == 0x8f
      && r.regs[RegSyncWord as int] == 0x12
      && r.regs[RegOpMode as int] == ModeLora | ModeRxContinuous
  {
    InitRadioSettings(s, cfg);
    InitFinalState(s, cfg);
    DefaultWord();
    DefaultBandwidth();
    DefaultPower();
    assert Clamp(cfg.codingRate, 5, 8) == 8;
    assert cfg.frequency == 915.0;
    var r := InitEffect(s, cfg).0;
    DefaultPreamble(cfg);
    SmallPair(r.regs[RegPreambleMsb as int], r.regs[RegPreambleLsb as int], 4);
  }

  /** A default bandwidth of 250000 Hz is the table's index 8. */
  lemma DefaultBandwidth()
    ensures BandwidthIndex(250000) == 8
  {
    assert Bandwidths[8] == 250000;
  }

  /** The default preamble length of 4 fits its two bytes unchanged. */
  lemma DefaultPreamble(cfg: Config)
    requires cfg == DefaultConfig
    ensures cfg.preambleLength % 0x10000 == 4
  {
  }

  /** The default frequency of 915 MHz is the word 0xe4c000. */
  lemma DefaultWord()
    ensures FrequencyWord(915.0) == 14991360
    ensures FrequencyWord(915.0) % 0x100_0000 == 14991360
  {
    assert 915.0 * 1000000.0 / 61.03515625 == 14991360.0;
  }

  /** A requested power of 24 on PA_BOOST clamps to 17 and encodes as 0x8f. */
  lemma DefaultPower()
    ensures PaConfigValue(24, PaOutputPaBoostPin) == 0x8f
  {
    var k := Clamp(24, 2, 17) - 2;
    assert k == 15;
    LowNibble(PaBoost, k);
  }

  // ---------------------------------------------------------- signal quality

  /**
    RSSI: one read of RegPktRssiValue, minus 157 at or above 779 MHz and
    minus 164 below.
   */
  lemma GetRssiSpec(s: ChipState, mhz: real)
    requires s.WellFormed()
    ensures var (r, dbm) := GetRssiEffect(s, mhz);
      var raw := s.regs[RegPktRssiValue as int];
      && r == ChipState(s.regs, s.fifo, s.log + [RegRead(RegPktRssiValue, raw)])
      && dbm == raw as int - (if mhz >= 779.0 then 157 else 164)
  {
    PlainRead(s, RegPktRssiValue);
  }

  /** SNR: one read of RegPktSnrValue, a quarter of the byte read as unsigned. */
  lemma GetSnrSpec(s: ChipState)
    requires s.WellFormed()
    ensures var (r, db) := GetSnrEffect(s);
      var raw := s.regs[RegPktSnrValue as int];
      && r == ChipState(s.regs, s.fifo, s.log + [RegRead(RegPktSnrValue, raw)])
      && db * 4.0 == raw as real
      && db >= 0.0
  {
    PlainRead(s, RegPktSnrValue);
  }
}
