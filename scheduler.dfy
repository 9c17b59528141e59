/**
 * What the send routine (`do_send` in src/main.cpp) asks of LMIC once the
 * radio is free: set the data rate, queue a one-byte uplink that carries the
 * spreading factor in BCD, switch off the retries of a confirmed uplink, and
 * if LMIC cannot send yet, cancel and call itself again when it can.
 */
module Scheduler {
  import opened Lmic
  import opened Text

  /** The transmission power the tester always uses, in dBm. */
  const TxPower: int := 14

  /**
   * The BCD byte of a two-digit number, `(sf / 10) << 4 | (sf % 10)` in the
   * source; as the low part is below 16 the shift and `|` are `* 16 +`.
   */
  function Bcd(sf: nat): (b: Byte)
    requires sf < 100
    ensures b / 16 < 10 && b % 16 < 10
    ensures BcdValue(b) == sf
  {
    (sf / 10) * 16 + sf % 10
  }

  /** The number a BCD byte denotes. */
  function BcdValue(b: Byte): nat
  {
    (b / 16) * 10 + b % 16
  }

  /** The payload for spreading factors 7 to 12 is 0x07 to 0x12; in hexadecimal it reads as the factor in decimal. */
  lemma BcdOfSpreadingFactor(sf: nat)
    requires 7 <= sf <= 12
    ensures 0x07 <= Bcd(sf) <= 0x12
    ensures HexByte(Bcd(sf)) == [DigitChar(sf / 10), DigitChar(sf % 10)]
  {
    var hi, lo := sf / 10, sf % 10;
    if sf < 10 {
      assert hi == 0 && lo == sf;
    } else {
      assert hi == 1 && lo == sf - 10;
    }
    var b := Bcd(sf);
    assert b == hi * 16 + lo;
    NibblesOf(hi, lo);
    HexDigitIsDecimal(hi);
    HexDigitIsDecimal(lo);
  }

  lemma NibblesOf(hi: nat, lo: nat)
    requires hi <= 1 && lo < 10
    ensures (hi * 16 + lo) / 16 == hi && (hi * 16 + lo) % 16 == lo
  {
    if hi == 0 {
      assert hi * 16 + lo == lo;
    } else {
      assert hi * 16 + lo == 16 + lo;
    }
  }

  /** Different factors give different payloads. */
  lemma BcdInjective(a: nat, b: nat)
    requires a < 100 && b < 100 && Bcd(a) == Bcd(b)
    ensures a == b
  {
    assert BcdValue(Bcd(a)) == a;
  }

  /**
   * The calls into LMIC of one send attempt with data rate `dataRate`, when
   * LMIC reports it must still wait `waitTicks` ticks and the clock reads
   * `later` when the routine reschedules itself.
   */
  function SendCalls(dataRate: nat, confirmed: bool, waitTicks: int, later: int): (calls: seq<Call>)
    requires dataRate <= DR_SF7
    ensures |calls| == 2 + (if confirmed then 1 else 0) + (if waitTicks > 0 then 2 else 0)
    ensures calls[..|QueueCalls(dataRate, confirmed)|] == QueueCalls(dataRate, confirmed)
    ensures calls[|QueueCalls(dataRate, confirmed)|..] == RescheduleCalls(waitTicks, later)
  {
    QueueCalls(dataRate, confirmed) + RescheduleCalls(waitTicks, later)
  }

  /**
   * Handing the uplink to LMIC: the data rate and power, the uplink on the
   * port of its spreading factor with that factor in BCD as payload, and,
   * for a confirmed uplink, the attempt counter set to its maximum.
   */
  function QueueCalls(dataRate: nat, confirmed: bool): (calls: seq<Call>)
    requires dataRate <= DR_SF7
    ensures |calls| == if confirmed then 3 else 2
    ensures calls[0] == SetDrTxpow(dataRate, TxPower)
    ensures calls[1].SetTxData2Strict? && calls[1].port == 12 - dataRate
    // the one payload byte is the factor in BCD, which reads back as the factor
    ensures calls[1].data == [Bcd(12 - dataRate)] && BcdValue(calls[1].data[0]) == 12 - dataRate
    ensures calls[1].confirmed == confirmed
    ensures ClrTxData !in calls && (WriteTxCnt(TXCONF_ATTEMPTS) in calls <==> confirmed)
  {
    var sf := 12 - dataRate;
    [SetDrTxpow(dataRate, TxPower), SetTxData2Strict(sf, [Bcd(sf)], confirmed)]
    + (if confirmed then [WriteTxCnt(TXCONF_ATTEMPTS)] else [])
  }

  /** When LMIC must still wait: withdrawing the uplink and scheduling the routine for when it can send. */
  function RescheduleCalls(waitTicks: int, later: int): (calls: seq<Call>)
    ensures waitTicks <= 0 ==> calls == []
    ensures waitTicks > 0 ==>
      (|calls| == 2 && calls[0] == ClrTxData && calls[1].SetTimedCallback? && calls[1].at - later == waitTicks)
  {
    if waitTicks > 0 then [ClrTxData, SetTimedCallback(later + waitTicks)] else []
  }

  /** The ticks at which the calls in `calls` schedule the send routine, in order. */
  function Callbacks(calls: seq<Call>): seq<int>
  {
    if calls == [] then []
    else Callbacks(calls[..|calls| - 1])
         + (match calls[|calls| - 1] case SetTimedCallback(at) => [at] case _ => [])
  }

  lemma {:induction false} CallbacksAppend(a: seq<Call>, b: seq<Call>)
    ensures Callbacks(a + b) == Callbacks(a) + Callbacks(b)
  {
    if b != [] {
      var b' := b[..|b| - 1];
      assert (a + b)[..|a + b| - 1] == a + b';
      assert (a + b)[|a + b| - 1] == b[|b| - 1];
      CallbacksAppend(a, b');
    } else {
      assert a + b == a;
    }
  }

  /**
   * A send attempt schedules the routine again exactly once, `waitTicks`
   * after the clock reading, when LMIC must still wait; otherwise it
   * schedules nothing.
   */
  lemma SendReschedulesOnce(dataRate: nat, confirmed: bool, waitTicks: int, later: int)
    requires dataRate <= DR_SF7
    ensures Callbacks(SendCalls(dataRate, confirmed, waitTicks, later))
         == if waitTicks > 0 then [later + waitTicks] else []
  {
    CallbacksAppend(QueueCalls(dataRate, confirmed), RescheduleCalls(waitTicks, later));
    QueueSchedulesNothing(dataRate, confirmed);
    RescheduleCallbacks(waitTicks, later);
  }

  /** Queuing the uplink schedules nothing. */
  lemma QueueSchedulesNothing(dataRate: nat, confirmed: bool)
    requires dataRate <= DR_SF7
    ensures Callbacks(QueueCalls(dataRate, confirmed)) == []
  {
    var sf := 12 - dataRate;
    var head := [SetDrTxpow(dataRate, TxPower), SetTxData2Strict(sf, [Bcd(sf)], confirmed)];
    var conf := if confirmed then [WriteTxCnt(TXCONF_ATTEMPTS)] else [];
    CallbacksAppend(head, conf);
    assert Callbacks(head) == [] by {
      assert head[..1] == [head[0]];
    }
  }

  /** Rescheduling schedules the routine once, `waitTicks` after `later`, or not at all. */
  lemma RescheduleCallbacks(waitTicks: int, later: int)
    ensures Callbacks(RescheduleCalls(waitTicks, later)) == if waitTicks > 0 then [later + waitTicks] else []
  {
    var tail := RescheduleCalls(waitTicks, later);
    if waitTicks > 0 {
      assert tail[..1] == [ClrTxData];
      assert Callbacks([ClrTxData]) == [] by {
        assert [ClrTxData][..0] == [];
      }
    }
  }

  /**
   * A send attempt queues exactly one uplink, on the port of its spreading
   * factor and with that factor as payload; it cancels it exactly when LMIC
   * must still wait, and switches off LMIC's retries exactly when the
   * uplink is confirmed.
   */
  lemma SendCallsShape(dataRate: nat, confirmed: bool, waitTicks: int, later: int)
    requires dataRate <= DR_SF7
    ensures var calls := SendCalls(dataRate, confirmed, waitTicks, later);
      var sf := 12 - dataRate;
      && calls[0] == SetDrTxpow(dataRate, TxPower)
      && calls[1] == SetTxData2Strict(sf, [Bcd(sf)], confirmed)
      && (forall i :: 1 < i < |calls| ==> !calls[i].SetTxData2Strict?)
      && (ClrTxData in calls <==> waitTicks > 0)
      && (WriteTxCnt(TXCONF_ATTEMPTS) in calls <==> confirmed)
  {
    var calls := SendCalls(dataRate, confirmed, waitTicks, later);
    if confirmed {
      assert calls[2] == WriteTxCnt(TXCONF_ATTEMPTS);
    }
    if waitTicks > 0 {
      assert calls[|calls| - 2] == ClrTxData;
    }
  }
}
