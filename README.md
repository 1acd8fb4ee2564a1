# aiolora SX127x driver, modelled in Dafny

This project models the `LoRa` class of `aiolora.py`, an asyncio driver for
Semtech SX127x LoRa transceivers, and proves what it does to the chip. The
driver talks to the chip only through 8-bit register reads and writes over
SPI. It covers:

- construction (version probe, radio settings, continuous receive);
- the configuration setters;
- RSSI and SNR read-out;
- the interrupt handler;
- `send` and `recv`.

## How the model is built

- **The chip** (`chip.dfy`) is a simulated register file: 128 registers, the
  256-byte packet FIFO and a log of every register access in order. It is
  given as a value (`ChipState`) and as an object (`Chip.Sx127x`) whose
  `Transfer` method answers one bus transaction. The driver relies on two
  chip behaviours that do not appear in its source. They are stated as
  assumptions of the simulation:
  - an access to `RegFifo` uses the FIFO byte at `RegFifoAddrPtr`, then
    advances that pointer by one, wrapping at 256;
  - `RegIrqFlags` is write-one-to-clear.
- **Transport** (`transport.dfy`): `_read` sends the address with bit 7
  clear, `_write` with bit 7 set.
- **Encoders** (`encoding.dfy`): the pure bit-field and unit conversions:
  - transmit-power byte;
  - frequency word and its three bytes;
  - detection pair;
  - bandwidth index;
  - coding-rate and CRC bits;
  - preamble bytes;
  - RSSI offset and SNR scaling.
- **Driver** (`driver.dfy`): every operation twice over.
  - As a function on state values. It gives the new registers, FIFO, access
    log and driver fields. These functions are named `...Effect`, except
    `Driver.ReadFifo` and `Driver.WriteFifo` (the FIFO loops) and
    `Transport.ReadRegister` and `Transport.WriteRegister` (one bus
    transaction).
  - As a method of class `Driver.LoRa`. The method performs the accesses one
    by one, with the source's loops, and is proved to have exactly that
    effect.
  - The two `ThreadSafeFlag`s are the booleans `sendFlag` and `recvFlag`.
    The interrupt handler sets them, and a waiter consumes them.
- **Properties** (`config_properties.dfy`, `fifo_properties.dfy`,
  `interrupt_properties.dfy`, `send_properties.dfy`): lemmas about the
  `...Effect` functions. They state:
  - which bits each setter owns and keeps;
  - non-interference of the setters that share a register;
  - the state construction leaves behind;
  - what the interrupt handler acknowledges, writes and delivers;
  - that `send` rejects an oversized payload before the FIFO is touched, and
    otherwise loads the payload in order.

Three behaviours of the code differ from what a reader of the method names
or of the chip's datasheet might expect. The model states what the code does:

- Index 9 for oversized bandwidth requests. `set_bandwidth` sets its result
  to index 9, one past the nine-entry table, before searching the table from
  index 0 (aiolora.py:140-144). So a request above every entry does not fall
  back to the table's last index. It keeps 9, which on the SX127x is the
  500 kHz setting.
- `send` writes before it checks the length. It writes `RegOpMode`,
  `RegDioMapping1` and `RegFifoAddrPtr` before the check (aiolora.py:87-93),
  so an oversized payload still changes three registers. The model proves
  this order: three writes, then the rejection. It also proves that nothing
  reaches the FIFO, the payload length or transmit mode.
- `get_snr` reads the SNR register as unsigned. It multiplies the raw byte
  by 0.25 without sign extension (aiolora.py:112). The Semtech SX1276/77/78/79
  datasheet defines RegPktSnrValue as a two's-complement byte.
  `Encoding.SnrNotSignExtended` shows the gap: for every raw value at or
  above 0x80, the driver reports 64 dB more than the signed reading.

## Model

| member | source | states |
|---|---|---|
| Transport.ReadCommand | aiolora.py:199-201 | the command byte of a read has bit 7 clear and carries the register's 7-bit address |
| Transport.WriteCommand | aiolora.py:203-204 | the command byte of a write has bit 7 set and carries the register's 7-bit address |
| Transport.ReadRegister | aiolora.py:199-201 | a driver read is the chip's read of the register named by the low 7 address bits |
| Transport.WriteRegister | aiolora.py:203-204 | a driver write is the chip's write of the byte to the register named by the low 7 address bits |
| Driver.LoRa.Read | aiolora.py:199-201 | one read transaction with exactly the effect and answer of `ReadRegister` |
| Driver.LoRa.Write | aiolora.py:203-204 | one write transaction with exactly the effect of `WriteRegister` |
| Encoding.Clamp | aiolora.py:116 | `min(max(v, lo), hi)` lies in `lo..hi`, is `v` inside the range and the nearer bound outside it |
| Encoding.PaConfigValue | aiolora.py:114-120 | RFO pin: high nibble 0x7, low nibble the level clamped to 0..14; other pins: high nibble 0x8 (PA_BOOST), low nibble the level clamped to 2..17 minus 2; so the byte is in 0x70..0x7e or 0x80..0x8f |
| Encoding.RoundHalfEven | aiolora.py:125 | Python `round`: within 0.5 of its argument, and even on a tie |
| Encoding.FrequencyWord | aiolora.py:124-125 | the frequency word is within half a synthesizer step of `mhz * 16384`, and on an exact tie it is the even neighbour, as Python's `round` chooses |
| Encoding.FrfMsb | aiolora.py:126 | `(x >> 16) & 0xff`; with `FrfMid` and `FrfLsb` it reassembles to the word modulo 2^24, proved in `Encoding.FrequencyBytesRoundTrip` |
| Encoding.FrfMid | aiolora.py:127 | `(x >> 8) & 0xff`; its meaning is proved in `Encoding.FrequencyBytesRoundTrip` |
| Encoding.FrfLsb | aiolora.py:128 | `x & 0xff`; its meaning is proved in `Encoding.FrequencyBytesRoundTrip` |
| Encoding.FrequencyBytesRoundTrip | aiolora.py:126-128 | the bytes `(x>>16)&0xff`, `(x>>8)&0xff`, `x&0xff` reassemble to `x` modulo 2^24, and to `x` itself for a 24-bit word |
| Encoding.PreambleMsb | aiolora.py:155 | `(n >> 8) & 0xff`; with `PreambleLsb` it reassembles to the length modulo 2^16, proved in `Encoding.PreambleBytesRoundTrip` |
| Encoding.PreambleLsb | aiolora.py:156 | `n & 0xff`; its meaning is proved in `Encoding.PreambleBytesRoundTrip` |
| Encoding.PreambleBytesRoundTrip | aiolora.py:155-156 | the two preamble bytes reassemble to the length modulo 2^16, and to the length itself below 2^16 |
| Encoding.DetectionOptimize | aiolora.py:133 | the RegDetectionOptimize byte: 0xc5 for SF6, else 0xc3; its place in the setter is proved in `ConfigProperties.SetSpreadingFactorSpec` |
| Encoding.DetectionThreshold | aiolora.py:134 | the RegDetectionThreshold byte: 0x0c for SF6, else 0x0a; its place in the setter is proved in `ConfigProperties.SetSpreadingFactorSpec` |
| Encoding.SpreadingFactorConfig | aiolora.py:136 | RegModemConfig2's high nibble becomes `sf` and its low nibble is kept |
| Encoding.FirstFitFrom | aiolora.py:141-144 | the search loop from entry `j`: the first entry at or above `bw`, every earlier entry below `bw`, 9 when none fits |
| Encoding.BandwidthIndex | aiolora.py:139-144 | the least index whose bandwidth is at least `bw`; 9 exactly when `bw` exceeds 250000 |
| Encoding.BandwidthConfig | aiolora.py:145-146 | RegModemConfig1's high nibble becomes the index and its low nibble is kept |
| Encoding.CodingRateConfig | aiolora.py:149-152 | bits 1-3 of RegModemConfig1 become the denominator clamped to 5..8 minus 4; bits 0 and 4-7 are kept |
| Encoding.CrcConfig | aiolora.py:159-164 | bit 2 of RegModemConfig2 is set exactly when CRC is on; every other bit is kept |
| Encoding.RssiDbm | aiolora.py:106-109 | RSSI is the raw byte minus 157 at or above 779 MHz and minus 164 below, so it lies in -164..98 |
| Encoding.SnrDb | aiolora.py:112 | SNR is a quarter of the raw byte read as unsigned: four times it is the byte, and it is never negative |
| Encoding.SnrNotSignExtended | aiolora.py:112 | for every raw byte at or above 0x80 the driver's SNR is 64 dB above the two's-complement reading, positive where the chip means negative |
| ConfigProperties.SetTxPowerSpec | aiolora.py:114-120 | `set_tx_power` is one write of RegPaConfig, with the RFO or PA_BOOST bits and the clamped level; nothing else changes |
| ConfigProperties.SetFrequencySpec | aiolora.py:122-128 | `set_frequency` writes FRF MSB, MID and LSB in that order and nothing else; the bytes reassemble to the frequency word modulo 2^24, and the word is within half a step of `mhz * 16384` |
| ConfigProperties.SetSpreadingFactorSpec | aiolora.py:130-136 | outside 6..12 it fails, and only then, with no access at all; otherwise it writes the detection pair (0xc5/0x0c for SF6, else 0xc3/0x0a), then reads RegModemConfig2 and writes it back with `sf` in the high nibble and the low nibble kept |
| ConfigProperties.SetBandwidthSpec | aiolora.py:138-146 | `set_bandwidth` reads RegModemConfig1 and writes it back with the low nibble kept; the high nibble is the least index whose bandwidth is at least `bw`, and 9 exactly when `bw` exceeds 250000 |
| ConfigProperties.BandwidthReadBack | aiolora.py:138-146 | a request of 20000 Hz reads back as index 3 (20800 Hz); 500000 Hz reads back as 9 |
| ConfigProperties.SetCodingRateSpec | aiolora.py:148-152 | `set_coding_rate` reads RegModemConfig1 and writes it back with bits 1-3 = clamped denominator minus 4 and every other bit kept |
| ConfigProperties.BandwidthCodingRateIndependent | aiolora.py:138-152 | bandwidth and coding rate share RegModemConfig1 without interference: in either order the registers end up equal, both fields land, and bit 0 is kept |
| ConfigProperties.ConfigBitsCommute | aiolora.py:145-152 | the bandwidth nibble and the coding-rate bits are disjoint fields: the two encoders commute and each keeps the other's field |
| ConfigProperties.SetPreambleLengthSpec | aiolora.py:154-156 | `set_preamble_length` writes MSB then LSB and nothing else; the bytes reassemble to the length modulo 2^16 |
| ConfigProperties.SetCrcSpec | aiolora.py:158-164 | `set_crc` reads RegModemConfig2 and writes it back with bit 2 = `crc` and every other bit kept, so the spreading-factor nibble survives |
| ConfigProperties.SetCrcIdempotent | aiolora.py:158-164 | setting the CRC flag twice leaves the registers as setting it once |
| ConfigProperties.SpreadingFactorKeepsCrc | aiolora.py:130-164 | a spreading-factor change after `set_crc` keeps the CRC bit |
| ConfigProperties.CrcKeepsSpreadingFactor | aiolora.py:159-164 | the CRC bit lies outside the spreading-factor nibble |
| ConfigProperties.SetSyncWordSpec | aiolora.py:166-167 | `set_sync_word` is one write of RegSyncWord and nothing else |
| ConfigProperties.InitRejectsWrongVersion | aiolora.py:62-63 | construction with a version byte other than 0x12 fails after that single read, with nothing written |
| ConfigProperties.ConfigureRejectsSpreadingFactor | aiolora.py:65-67 | an invalid spreading factor stops the radio settings right after frequency and bandwidth (five accesses) |
| ConfigProperties.ConfigureSpec | aiolora.py:65-70 | with a valid spreading factor, frequency, bandwidth, spreading factor and detection pair, coding rate, preamble and CRC all land; RegModemConfig1 bit 0 is kept; the FIFO is untouched; every other register is unchanged |
| ConfigProperties.ConfigureState | aiolora.py:65-70 | the radio settings as the exact chain of eleven register stores, in call order |
| ConfigProperties.FinishSpec | aiolora.py:72-81 | the rest of construction: LNA = old LNA with 0x03 ORed in, RegModemConfig3 = 0x04, PA_BOOST power, sync word, both FIFO bases 0, DIO mapping 0, then `OpMode = 0x85`; the FIFO and every register the radio settings own are unchanged |
| ConfigProperties.FinishState | aiolora.py:72-81 | the rest of construction as the exact chain of register stores, in call order |
| ConfigProperties.InitRejectsSpreadingFactor | aiolora.py:62-67 | an invalid spreading factor fails construction after the version read, the sleep-mode write, frequency and bandwidth (seven accesses); the chip is left in LoRa sleep |
| ConfigProperties.InitPhases | aiolora.py:62-81 | successful construction is the version read, the sleep write, the radio settings and the rest, in that order |
| ConfigProperties.InitRadioSettings | aiolora.py:62-70 | successful construction leaves every radio setting of the configuration in its register: frequency, bandwidth, coding rate (bit 0 kept), spreading factor with both detection registers, preamble and CRC; the FIFO is untouched |
| ConfigProperties.InitFinalState | aiolora.py:62-81 | successful construction ends in LoRa continuous receive (0x85) with DIO mapping 0, LNA boost ORed in, AGC on, PA_BOOST power, the sync word and both FIFO bases at 0 |
| ConfigProperties.DefaultConstruction | aiolora.py:62-81 | construction with every default (915 MHz, 250 kHz, SF 10, 4/8, preamble 4, no CRC, power 24, sync word 0x12) succeeds with frequency word 0xe4c000, bandwidth index 8, the SF 10 detection pair, PA_BOOST clamped to 17 (RegPaConfig 0x8f) and continuous receive |
| ConfigProperties.GetRssiSpec | aiolora.py:105-109 | `get_rssi` is one read of RegPktRssiValue, minus 157 at or above 779 MHz, else minus 164 |
| ConfigProperties.GetSnrSpec | aiolora.py:111-112 | `get_snr` is one read of RegPktSnrValue; four times the result is the raw byte |
| Driver.SetTxPowerEffect | aiolora.py:114-120 | the chip after `set_tx_power`; its meaning is proved in `ConfigProperties.SetTxPowerSpec` |
| Driver.SetFrequencyEffect | aiolora.py:122-128 | the chip after `set_frequency`; its meaning is proved in `ConfigProperties.SetFrequencySpec` |
| Driver.SetSpreadingFactorEffect | aiolora.py:130-136 | the chip and status after `set_spreading_factor`; its meaning is proved in `ConfigProperties.SetSpreadingFactorSpec` |
| Driver.SetBandwidthEffect | aiolora.py:138-146 | the chip after `set_bandwidth`; its meaning is proved in `ConfigProperties.SetBandwidthSpec` |
| Driver.SetCodingRateEffect | aiolora.py:148-152 | the chip after `set_coding_rate`; its meaning is proved in `ConfigProperties.SetCodingRateSpec` |
| Driver.SetPreambleLengthEffect | aiolora.py:154-156 | the chip after `set_preamble_length`; its meaning is proved in `ConfigProperties.SetPreambleLengthSpec` |
| Driver.SetCrcEffect | aiolora.py:158-164 | the chip after `set_crc`; its meaning is proved in `ConfigProperties.SetCrcSpec` |
| Driver.SetSyncWordEffect | aiolora.py:166-167 | the chip after `set_sync_word`; its meaning is proved in `ConfigProperties.SetSyncWordSpec` |
| Driver.GetRssiEffect | aiolora.py:105-109 | the chip and result of `get_rssi`; its meaning is proved in `ConfigProperties.GetRssiSpec` |
| Driver.GetSnrEffect | aiolora.py:111-112 | the chip and result of `get_snr`; its meaning is proved in `ConfigProperties.GetSnrSpec` |
| Driver.ReadFifo | aiolora.py:185-187 | the chip and bytes after `n` reads of RegFifo; its meaning is proved in `FifoProperties.FifoDrain` and `FifoProperties.FifoSliceAt` |
| Driver.WriteFifo | aiolora.py:94-95 | the chip after one RegFifo write per payload byte; its meaning is proved in `FifoProperties.FifoFill` |
| Driver.GetIrqFlagsEffect | aiolora.py:169-172 | the chip and flags of `_get_irq_flags`; its meaning is proved in `InterruptProperties.GetIrqFlagsSpec` |
| Driver.TxDoneEffect | aiolora.py:176-179 | the transmit-done branch of `_irq`; its meaning is proved in `InterruptProperties.TxDoneSpec` |
| Driver.RxDoneEffect | aiolora.py:182-189 | the receive branch of `_irq`; its meaning is proved in `InterruptProperties.RxDoneSpec` |
| Driver.IrqEffect | aiolora.py:174-189 | one run of `_irq`; its meaning is proved in `InterruptProperties.IrqPhases`, `IrqAcknowledges`, `IrqTransmitDone`, `IrqReceiveDone` and `IrqIgnoresOtherFlags` |
| Driver.SendEffect | aiolora.py:86-97 | the register part of `send`; its meaning is proved in `SendProperties.SendRejectsLongPayload` and `SendProperties.SendLoadsPayload` |
| Driver.AwaitSentEffect | aiolora.py:98 | the wait that ends `send`; its meaning is proved in `SendProperties.AwaitSentConsumesSignal` |
| Driver.RecvEffect | aiolora.py:100-103 | `recv`; its meaning is proved in `InterruptProperties.RecvConsumesSignal` and `InterruptProperties.ReceiveThenRecv` |
| Driver.ConfigureEffect | aiolora.py:64-70 | the radio-settings phase of construction; its meaning is proved in `ConfigProperties.ConfigureSpec` and `ConfigProperties.ConfigureRejectsSpreadingFactor` |
| Driver.FinishEffect | aiolora.py:71-81 | the rest of construction; its meaning is proved in `ConfigProperties.FinishSpec` |
| Driver.InitEffect | aiolora.py:62-81 | the register part of construction; its meaning is proved in `ConfigProperties.InitPhases`, `InitRadioSettings`, `InitFinalState` and the two rejection lemmas |
| Driver.LoRa.Create | aiolora.py:53-81 | construction has exactly the effect of `InitEffect`; it fails exactly when that fails, with the same error; on success the driver holds the configured frequency, no packet and both signals clear |
| Driver.LoRa.Attach | aiolora.py:53-61 | the fields before the chip is probed: no packet, both signals clear |
| Driver.LoRa.SetTxPower | aiolora.py:114-120 | performs exactly the accesses of `SetTxPowerEffect` (see `SetTxPowerSpec`) |
| Driver.LoRa.SetFrequency | aiolora.py:122-128 | stores the frequency and performs exactly the accesses of `SetFrequencyEffect` (see `SetFrequencySpec`) |
| Driver.LoRa.SetSpreadingFactor | aiolora.py:130-136 | returns the status and performs the accesses of `SetSpreadingFactorEffect` (see `SetSpreadingFactorSpec`) |
| Driver.LoRa.SetBandwidth | aiolora.py:138-146 | the search loop with early exit, then the read-modify-write: exactly `SetBandwidthEffect` (see `SetBandwidthSpec`) |
| Driver.LoRa.SetCodingRate | aiolora.py:148-152 | performs exactly the accesses of `SetCodingRateEffect` (see `SetCodingRateSpec`) |
| Driver.LoRa.SetPreambleLength | aiolora.py:154-156 | performs exactly the accesses of `SetPreambleLengthEffect` (see `SetPreambleLengthSpec`) |
| Driver.LoRa.SetCrc | aiolora.py:158-164 | performs exactly the accesses of `SetCrcEffect` (see `SetCrcSpec`) |
| Driver.LoRa.SetSyncWord | aiolora.py:166-167 | performs exactly the access of `SetSyncWordEffect` |
| Driver.LoRa.GetRssi | aiolora.py:105-109 | returns `GetRssiEffect` at the stored frequency (see `GetRssiSpec`) |
| Driver.LoRa.GetSnr | aiolora.py:111-112 | returns `GetSnrEffect` (see `GetSnrSpec`) |
| Driver.LoRa.GetIrqFlags | aiolora.py:169-172 | reads the flags and writes the same byte back, as `GetIrqFlagsEffect` (see `GetIrqFlagsSpec`) |
| Driver.LoRa.Irq | aiolora.py:174-189 | one run of the handler has exactly the effect of `IrqEffect` on chip and driver fields |
| Driver.LoRa.ReceivePacket | aiolora.py:182-189 | the receive-done branch has exactly the effect of `RxDoneEffect` |
| Driver.LoRa.DrainFifo | aiolora.py:185-187 | the copy loop fills a fresh `n`-byte buffer with what `n` reads of RegFifo return |
| Driver.LoRa.Send | aiolora.py:86-97 | the register part of `send`, with its FIFO loop, has exactly the effect and status of `SendEffect` |
| Driver.LoRa.AwaitSent | aiolora.py:98 | the wait consumes the send signal if it is raised, as `AwaitSentEffect` |
| Driver.LoRa.Recv | aiolora.py:100-103 | `recv` consumes the receive signal and returns the packet, as `RecvEffect` |
| FifoProperties.FifoDrain | aiolora.py:186-187 | `n` reads of RegFifo return the `n` FIFO bytes from the pointer on (wrapping at 256), advance the pointer by `n`, leave the FIFO as it was and touch no other register |
| FifoProperties.FifoSliceAt | aiolora.py:185-187 | the bytes drained from the FIFO in closed form: `n` of them, byte `i` taken from position `start + i` modulo 256 |
| FifoProperties.FifoFill | aiolora.py:94-95 | from pointer 0, writing at most 255 bytes puts byte `i` at FIFO position `i`, keeps the rest of the FIFO, leaves the pointer at the count and touches no other register |
| InterruptProperties.GetIrqFlagsSpec | aiolora.py:169-172 | `_get_irq_flags` returns the flags and writes exactly that byte back, which clears every flag it read |
| InterruptProperties.AcknowledgeKeepsLateFlags | aiolora.py:169-172 | a flag raised between the read and the write-back survives unless it was already set when read |
| InterruptProperties.TxDoneSpec | aiolora.py:176-179 | transmit done: DIO mapping 0x00, then `OpMode = 0x85`, then the send signal raised |
| InterruptProperties.RxDoneSpec | aiolora.py:180-189 | receive done: pointer set to RegFifoRxCurrentAddr, length read from RegRxNbBytes, exactly that many FIFO bytes from there become the packet, receive signal raised |
| InterruptProperties.IrqPhases | aiolora.py:174-189 | the handler is the acknowledgement, the transmit part if its flag is set, then the receive part exactly when receive done is set and CRC error is clear |
| InterruptProperties.IrqAcknowledges | aiolora.py:174-175 | every run starts its accesses with the flags read and written back, leaves RegIrqFlags at 0, keeps the FIFO contents and the stored frequency |
| InterruptProperties.IrqTransmitDone | aiolora.py:176-179 | with transmit done set (in either direction): continuous receive, DIO mapping 0 and send signal raised, with those two writes right after the acknowledgement; without it, mode, mapping and send signal unchanged |
| InterruptProperties.IrqReceiveDone | aiolora.py:180-189 | receive done without CRC error: the packet has `RegRxNbBytes` bytes, byte `i` is FIFO byte `RegFifoRxCurrentAddr + i` modulo 256, and the receive signal is raised |
| InterruptProperties.IrqIgnoresOtherFlags | aiolora.py:180-181 | otherwise no FIFO byte is read and nothing is stored: the accesses are the acknowledgement plus, on transmit done, its two writes |
| InterruptProperties.RecvConsumesSignal | aiolora.py:100-103 | `recv` returns the stored packet once per raised signal; an immediate second call returns nothing |
| InterruptProperties.ReceiveThenRecv | aiolora.py:180-189 | a packet received without CRC error is exactly what the next `recv` returns |
| InterruptProperties.CorruptPacketNotDelivered | aiolora.py:181 | a packet with the CRC-error flag is never handed to `recv` |
| SendProperties.SendRejectsLongPayload | aiolora.py:87-93 | a payload longer than 255 bytes fails with limit 255 after the standby, DIO-mapping and pointer writes, and before anything reaches the FIFO, the payload length or transmit mode |
| SendProperties.SendLoadsPayload | aiolora.py:94-97 | an accepted payload is written to the FIFO from position 0 in order, then its length, then `OpMode = 0x83`, and no access follows; the rest of the FIFO is kept |
| SendProperties.FillLogInOrder | aiolora.py:94-95 | the payload accesses are one RegFifo write per byte, byte `i` in position `i` |
| SendProperties.AwaitSentConsumesSignal | aiolora.py:98 | the wait reports the send signal and clears it; a second wait reports nothing |
| SendProperties.SendThenTransmitDone | aiolora.py:83-98 | an accepted `send` leaves the chip in transmit mode (0x83) while a sender waits on the clear signal; once transmit done is raised and handled, the chip is in continuous receive and the wait completes exactly once |

## Left out

- The SPI byte exchange and chip-select toggling of `_transfer` (aiolora.py:191-197). A transaction is one `Chip.Sx127x.Transfer` call that takes the command byte and the data byte.
- The chip's register file and FIFO are sequences held by the chip object, not arrays. The driver never touches them except through bus transactions.
- The asyncio locks, the `ThreadSafeFlag` suspension and interrupt preemption (aiolora.py:58-61, 86, 98, 101-102) are concurrency, which is not modelled. A wait is a step that consumes its signal or reports "not yet". The handler runs between driver steps, never inside one.
- Driver.LoRa.AwaitSent: does not suspend; it returns false where `send` would wait.
- Driver.LoRa.Recv: does not suspend; it returns None where `recv` would wait.
- Registering the interrupt handler on the pin (aiolora.py:79) is a platform callback; `Irq` is called directly.
- Floating point in `set_frequency` (aiolora.py:124-125) is replaced by exact reals. Both float operations could round: the product by 1000000 and the division by 61.03515625. In exact arithmetic the quotient is `mhz * 16384`. Only the final `round` is modelled, as round-half-to-even.
- Floating point in `get_snr` (aiolora.py:112) is computed on exact reals too.
- `str.encode` of text payloads (aiolora.py:84-85) is left out: payloads are byte sequences.
- Driver.LoRa.SetSyncWord: takes a byte. A Python integer outside 0..255 would make the SPI layer raise, which is not modelled.
- The example applications under `examples/` (access point, echo, hello world) are I/O plumbing with no driver logic.
