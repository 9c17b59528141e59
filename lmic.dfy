/**
 * The part of the LoRaWAN MAC library (LMIC) that the tester reads and
 * calls. The library itself is not part of this model: its global record is
 * a value that the library may change between two calls of the tester, and
 * every call the tester makes into it is recorded as a `Call`.
 */
module Lmic {
  /** A byte of a radio frame. */
  type Byte = b: int | 0 <= b < 256

  /** A value of the library's 32-bit unsigned counters. */
  type Uint32 = n: int | 0 <= n < 0x1_0000_0000

  /** EU868 data rates, as the library numbers them; the spreading factor is 12 minus the data rate. */
  const DR_SF12: nat := 0
  const DR_SF11: nat := 1
  const DR_SF10: nat := 2
  const DR_SF9: nat := 3
  const DR_SF8: nat := 4
  const DR_SF7: nat := 5

  /** Bits of `txrxFlags`: the confirmed uplink was acknowledged, and the downlink came in RX1. */
  const TXRX_ACK: nat := 0x80
  const TXRX_DNW1: nat := 0x01

  /**
   * Whether the single bit `flag` (a power of two) is set in `flags`:
   * C's `flags & flag` is non-zero. For the two flags the tester tests,
   * that is the top bit and the bottom bit of the byte.
   */
  function FlagSet(flags: Byte, flag: nat): (isSet: bool)
    requires flag == TXRX_ACK || flag == TXRX_DNW1
    ensures flag == TXRX_ACK ==> (isSet <==> flags >= 0x80)
    ensures flag == TXRX_DNW1 ==> (isSet <==> flags % 2 == 1)
  {
    (flags / flag) % 2 == 1
  }

  /** The number of attempts after which the library stops retrying a confirmed uplink. */
  const TXCONF_ATTEMPTS: nat := 8

  /** The fields of the library's global record that the tester reads. */
  datatype MacState = MacState(
    txend: int,             // end of the (next) transmission, in ticks
    rxtime: int,            // start of the next receive window, in ticks
    txrxPending: bool,      // the OP_TXRXPEND bit of `opmode`
    seqnoUp: Uint32,        // uplink frame counter
    seqnoDn: Uint32,        // downlink frame counter
    txrxFlags: Byte,
    frame: seq<Byte>,
    dataBeg: nat,           // start of the downlink payload in `frame`
    dataLen: nat,           // length of the downlink payload
    channelFreq: seq<Uint32>,
    txChnl: nat)            // channel of the next transmission
  {
    /** What the library keeps true of its own record. */
    predicate Valid()
    {
      dataBeg + dataLen <= |frame| && txChnl < |channelFreq|
    }
  }

  /** A call into the library, or a write into its record, made by the tester. */
  datatype Call =
    | SetDrTxpow(dataRate: nat, power: int)
    | SetTxData2Strict(port: nat, data: seq<Byte>, confirmed: bool)
    | WriteTxCnt(attempts: nat)
    | ClrTxData
    | SetTimedCallback(at: int)   // schedules the send routine at tick `at`
}
