/**
  The SX127x register map in LoRa mode, as far as the driver uses it:
  register addresses (7-bit), operating-mode values and interrupt flag masks.
 */
module Registers {

  // FIFO base addresses the driver programs for transmit and receive.
  const TxBaseAddr: bv8 := 0x00
  const RxBaseAddr: bv8 := 0x00

  // Power-amplifier selection.
  const PaBoost: bv8 := 0x80
  const PaOutputRfoPin: int := 0
  const PaOutputPaBoostPin: int := 1

  // Register addresses.
  const RegFifo: bv8 := 0x00
  const RegOpMode: bv8 := 0x01
  const RegFrfMsb: bv8 := 0x06
  const RegFrfMid: bv8 := 0x07
  const RegFrfLsb: bv8 := 0x08
  const RegPaConfig: bv8 := 0x09
  const RegLna: bv8 := 0x0c
  const RegFifoAddrPtr: bv8 := 0x0d
  const RegFifoTxBaseAddr: bv8 := 0x0e
  const RegFifoRxBaseAddr: bv8 := 0x0f
  const RegFifoRxCurrentAddr: bv8 := 0x10
  const RegIrqFlags: bv8 := 0x12
  const RegRxNbBytes: bv8 := 0x13
  const RegPktRssiValue: bv8 := 0x1a
  const RegPktSnrValue: bv8 := 0x1b
  const RegModemConfig1: bv8 := 0x1d
  const RegModemConfig2: bv8 := 0x1e
  const RegPreambleMsb: bv8 := 0x20
  const RegPreambleLsb: bv8 := 0x21
  const RegPayloadLength: bv8 := 0x22
  const RegModemConfig3: bv8 := 0x26
  const RegDetectionOptimize: bv8 := 0x31
  const RegDetectionThreshold: bv8 := 0x37
  const RegSyncWord: bv8 := 0x39
  const RegDioMapping1: bv8 := 0x40
  const RegVersion: bv8 := 0x42

  // Operating modes (written to RegOpMode).
  const ModeLora: bv8 := 0x80
  const ModeSleep: bv8 := 0x00
  const ModeStdby: bv8 := 0x01
  const ModeTx: bv8 := 0x03
  const ModeRxContinuous: bv8 := 0x05

  // Bits of RegIrqFlags.
  const IrqRxDoneMask: bv8 := 0x40
  const IrqTxDoneMask: bv8 := 0x08
  const IrqPayloadCrcErrorMask: bv8 := 0x20

  const MaxPktLength: int := 255

  // The chip revision the version probe expects.
  const ExpectedVersion: bv8 := 0x12
}
