/**
  Device configuration encoders: how each setting becomes register bits,
  and how the signal-quality registers decode to physical units.
  Each function owns the bits its contract names and keeps the others.
 */
module Encoding {
  import opened Registers
  import opened Bytes

  /** `min(max(v, lo), hi)`. */
  function Clamp(v: int, lo: int, hi: int): (r: int)
    requires lo <= hi
    ensures lo <= r <= hi
    ensures lo <= v <= hi ==> r == v
    ensures v < lo ==> r == lo
    ensures hi < v ==> r == hi
  {
    if v < lo then lo else if v > hi then hi else v
  }

  // ---------------------------------------------------------------- TX power

  /**
    RegPaConfig value for an output `level` in dBm. Pin 0 selects the RFO
    output (level clamped to 0..14, written under 0x70); any other pin the
    PA_BOOST output (level clamped to 2..17, written as level - 2 under 0x80).
   */
  function PaConfigValue(level: int, pin: int): (r: bv8)
    ensures pin == PaOutputRfoPin ==> r & 0xf0 == 0x70 && (r & 0x0f) as int == Clamp(level, 0, 14)
    ensures pin != PaOutputRfoPin ==> r & 0xf0 == PaBoost && (r & 0x0f) as int == Clamp(level, 2, 17) - 2
    ensures 0x70 <= r <= 0x7e || 0x80 <= r <= 0x8f
  {
    if pin == PaOutputRfoPin then
      var k := Clamp(level, 0, 14);
      LowNibble(0x70, k);
      0x70 | k as bv8
    else
      var k := Clamp(level, 2, 17) - 2;
      LowNibble(PaBoost, k);
      PaBoost | k as bv8
  }

  // --------------------------------------------------------------- frequency

  /** Python's `round`: nearest integer, ties to the even one. */
  function RoundHalfEven(y: real): (r: int)
    ensures -0.5 <= r as real - y <= 0.5
    ensures (r as real - y == 0.5 || y - r as real == 0.5) ==> r % 2 == 0
  {
    var f := y.Floor;
    var d := y - f as real;
    if d < 0.5 then f
    else if d > 0.5 then f + 1
    else if f % 2 == 0 then f
    else f + 1
  }

  /**
    The 24-bit frequency word for `mhz` megahertz: the frequency in hertz
    divided by the synthesizer step of 61.03515625 Hz, rounded. In exact
    arithmetic that is `mhz * 16384`, rounded.
   */
  function FrequencyWord(mhz: real): (x: int)
    ensures -0.5 <= x as real - mhz * 16384.0 <= 0.5
    ensures (x as real - mhz * 16384.0 == 0.5 || mhz * 16384.0 - x as real == 0.5) ==> x % 2 == 0
  {
    RoundHalfEven(mhz * 1000000.0 / 61.03515625)
  }

  /** `(x >> 16) & 0xff`, `(x >> 8) & 0xff` and `x & 0xff` for any integer `x`. */
  function FrfMsb(x: int): bv8 { ((x / 0x10000) % 0x100) as bv8 }
  function FrfMid(x: int): bv8 { ((x / 0x100) % 0x100) as bv8 }
  function FrfLsb(x: int): bv8 { (x % 0x100) as bv8 }

  /** The three frequency bytes, most significant first, reassembled. */
  function Reassemble3(msb: bv8, mid: bv8, lsb: bv8): int {
    msb as int * 0x10000 + mid as int * 0x100 + lsb as int
  }

  /** The three bytes keep the low 24 bits of the word; a 24-bit word survives intact. */
  lemma FrequencyBytesRoundTrip(x: int)
    ensures Reassemble3(FrfMsb(x), FrfMid(x), FrfLsb(x)) == x % 0x100_0000
    ensures 0 <= x < 0x100_0000 ==> Reassemble3(FrfMsb(x), FrfMid(x), FrfLsb(x)) == x
  {
    var msb, mid, lsb := x / 0x10000 % 0x100, x / 0x100 % 0x100, x % 0x100;
    ByteCast(msb);
    ByteCast(mid);
    ByteCast(lsb);
    assert Reassemble3(FrfMsb(x), FrfMid(x), FrfLsb(x)) == msb * 0x10000 + mid * 0x100 + lsb;
    SplitThree(x);
  }

  /** The three byte digits of `x` add back up to `x` modulo 2^24. */
  lemma SplitThree(x: int)
    ensures (x / 0x10000 % 0x100) * 0x10000 + (x / 0x100 % 0x100) * 0x100 + x % 0x100 == x % 0x100_0000
    ensures 0 <= x < 0x100_0000 ==> x % 0x100_0000 == x
  {
    var q := x / 0x10000;
    var r := x % 0x10000;
    var r1 := r / 0x100;
    var r0 := r % 0x100;
    assert x == q * 0x10000 + r1 * 0x100 + r0;
    DivModUnique(x, 0x100, q * 0x100 + r1, r0);
    DivModUnique(q * 0x100 + r1, 0x100, q, r1);
    var qh := q / 0x100;
    var ql := q % 0x100;
    assert x == qh * 0x100_0000 + (ql * 0x10000 + r);
    DivModUnique(x, 0x100_0000, qh, ql * 0x10000 + r);
    if 0 <= x < 0x100_0000 {
      DivModUnique(x, 0x100_0000, 0, x);
    }
  }

  /** Euclidean division by a positive divisor has a unique quotient and remainder. */
  lemma DivModUnique(x: int, d: int, q: int, r: int)
    requires d > 0 && 0 <= r < d && x == q * d + r
    ensures x / d == q && x % d == r
  {
    var k := x / d - q;
    assert k * d == r - x % d;
  }

  // ---------------------------------------------------------------- preamble

  /** `(n >> 8) & 0xff` and `n & 0xff` for any integer `n`. */
  function PreambleMsb(n: int): bv8 { ((n / 0x100) % 0x100) as bv8 }
  function PreambleLsb(n: int): bv8 { (n % 0x100) as bv8 }

  /** The two preamble bytes keep the low 16 bits of the length. */
  lemma PreambleBytesRoundTrip(n: int)
    ensures PreambleMsb(n) as int * 0x100 + PreambleLsb(n) as int == n % 0x10000
    ensures 0 <= n < 0x10000 ==> PreambleMsb(n) as int * 0x100 + PreambleLsb(n) as int == n
  {
    var msb, lsb := n / 0x100 % 0x100, n % 0x100;
    ByteCast(msb);
    ByteCast(lsb);
    assert PreambleMsb(n) as int * 0x100 + PreambleLsb(n) as int == msb * 0x100 + lsb;
    SplitTwo(n);
  }

  /** The two byte digits of `n` add back up to `n` modulo 2^16. */
  lemma SplitTwo(n: int)
    ensures (n / 0x100 % 0x100) * 0x100 + n % 0x100 == n % 0x10000
    ensures 0 <= n < 0x10000 ==> n % 0x10000 == n
  {
    var q := n / 0x100;
    var r := n % 0x100;
    var qh := q / 0x100;
    var ql := q % 0x100;
    assert n == qh * 0x10000 + (ql * 0x100 + r);
    DivModUnique(n, 0x10000, qh, ql * 0x100 + r);
    if 0 <= n < 0x10000 {
      DivModUnique(n, 0x10000, 0, n);
    }
  }

  // -------------------------------------------------------- spreading factor

  /** Detection-optimize and detection-threshold values: the SF6 pair or the standard pair. */
  function DetectionOptimize(sf: int): bv8 { if sf == 6 then 0xc5 else 0xc3 }
  function DetectionThreshold(sf: int): bv8 { if sf == 6 then 0x0c else 0x0a }

  /** RegModemConfig2 with the spreading factor in bits 4-7. */
  function SpreadingFactorConfig(reg2: bv8, sf: int): (r: bv8)
    requires 6 <= sf <= 12
    ensures (r >> 4) as int == sf
    ensures r & 0x0f == reg2 & 0x0f
  {
    (reg2 & 0x0f) | ((sf as bv8 << 4) & 0xf0)
  }

  // --------------------------------------------------------------- bandwidth

  /** Signal bandwidths in Hz, by RegModemConfig1 bandwidth index. */
  const Bandwidths: seq<int> := [7800, 10400, 15600, 20800, 31250, 41700, 62500, 125000, 250000]

  /** Index used when the request exceeds every entry of `Bandwidths`. */
  const BandwidthFallback: nat := 9

  /** The least index `i >= j` whose bandwidth is at least `bw`, or the fallback. */
  function FirstFitFrom(bw: int, j: nat): (i: nat)
    requires j <= |Bandwidths|
    ensures j <= i
    ensures i < |Bandwidths| ==> bw <= Bandwidths[i]
    ensures i >= |Bandwidths| ==> i == BandwidthFallback
    ensures forall k :: j <= k < |Bandwidths| && k < i ==> bw > Bandwidths[k]
    decreases |Bandwidths| - j
  {
    if j == |Bandwidths| then BandwidthFallback
    else if bw <= Bandwidths[j] then j
    else FirstFitFrom(bw, j + 1)
  }

  /**
    Bandwidth index for a request of `bw` Hz: the least index whose
    bandwidth is at least `bw`; 9 when `bw` exceeds every entry.
   */
  function BandwidthIndex(bw: int): (i: nat)
    ensures i <= BandwidthFallback
    ensures i < |Bandwidths| ==> bw <= Bandwidths[i]
    ensures forall k :: 0 <= k < i && k < |Bandwidths| ==> bw > Bandwidths[k]
    ensures i == BandwidthFallback <==> bw > Bandwidths[|Bandwidths| - 1]
  {
    FirstFitFrom(bw, 0)
  }

  /** RegModemConfig1 with the bandwidth index in bits 4-7. */
  function BandwidthConfig(reg1: bv8, i: nat): (r: bv8)
    requires i < 16
    ensures (r >> 4) as int == i
    ensures r & 0x0f == reg1 & 0x0f
  {
    (reg1 & 0x0f) | (i as bv8 << 4)
  }

  // ------------------------------------------------------------- coding rate

  /** RegModemConfig1 with coding rate 4/`denom` (clamped to 5..8) in bits 1-3. */
  function CodingRateConfig(reg1: bv8, denom: int): (r: bv8)
    ensures ((r >> 1) & 0x07) as int == Clamp(denom, 5, 8) - 4
    ensures r & 0xf1 == reg1 & 0xf1
  {
    var cr := Clamp(denom, 5, 8) - 4;
    (reg1 & 0xf1) | (cr as bv8 << 1)
  }

  // --------------------------------------------------------------------- CRC

  /** RegModemConfig2 with the payload-CRC bit (bit 2) set or cleared. */
  function CrcConfig(reg2: bv8, crc: bool): (r: bv8)
    ensures (r & 0x04 != 0) == crc
    ensures r & 0xfb == reg2 & 0xfb
  {
    if crc then reg2 | 0x04 else reg2 & 0xfb
  }

  // -------------------------------------------------------- signal quality

  /** Frequencies at or above this (MHz) use the high-band RSSI offset. */
  const HighBandMhz: real := 779.0

  /** Packet RSSI in dBm from the raw register: offset 157 in the high band, 164 below. */
  function RssiDbm(raw: bv8, mhz: real): (r: int)
    ensures mhz >= HighBandMhz <==> r == raw as int - 157
    ensures mhz < HighBandMhz <==> r == raw as int - 164
    ensures -164 <= r <= 255 - 157
  {
    if mhz >= HighBandMhz then raw as int - 157 else raw as int - 164
  }

  /**
    Packet SNR in dB as the driver computes it: the raw register times 0.25,
    reading the byte as unsigned (it is never negative).
   */
  function SnrDb(raw: bv8): (r: real)
    ensures 0.0 <= r <= 63.75
    ensures r * 4.0 == raw as real
  {
    raw as real * 0.25
  }

  /** The same register read as a two's-complement byte, as the chip defines it. */
  function SignedSnrDb(raw: bv8): (r: real)
    ensures -32.0 <= r <= 31.75
    ensures raw < 0x80 ==> r == SnrDb(raw)
  {
    (if raw < 0x80 then raw as int else raw as int - 256) as real * 0.25
  }

  /** For every raw value with bit 7 set, the driver's SNR is 64 dB above the chip's signed reading. */
  lemma SnrNotSignExtended(raw: bv8)
    requires raw >= 0x80
    ensures SnrDb(raw) == SignedSnrDb(raw) + 64.0
    ensures SnrDb(raw) >= 32.0 && SignedSnrDb(raw) < 0.0
  {
  }
}
