/**
 * The tester itself (the globals and routines of src/main.cpp): the user's
 * choices, the data-rate selection, the cycle state, and the routines that
 * poll LMIC's timing, send an uplink and handle LMIC's events. LMIC's
 * global record is passed in as a value; what the tester asks of LMIC is
 * recorded, in order, in `calls`.
 */
module Controller {
  import opened Wrappers
  import opened Lmic
  import opened Text
  import opened CycleState
  import opened DataRate
  import opened StateMachine
  import opened Scheduler
  import opened Downlink
  import opened StatusDisplay

  /** The LMIC events the tester tells apart; all others are only logged. */
  datatype Event = TxComplete | OtherEvent

  /**
   * What one poll does to the display: every state entered is shown as
   * `Shown` of it, so the last one stays; every waiting state entered
   * starts a progress window at `nowMs`, so the last one stays.
   */
  function AfterPoll(v: DisplayView, p: Poll, nowMs: int): (w: DisplayView)
    // only the state and the progress window can change
    ensures w.(state := v.state, progressStartTime := v.progressStartTime,
               progressTargetTime := v.progressTargetTime) == v
    ensures p.entered == [] && p.window == None ==> w == v
    ensures p.entered != [] ==> w.state == Shown(p.cycle.state)
    ensures p.window.Some? ==> w.progressStartTime == nowMs && w.progressTargetTime == p.window.value
    ensures p.window == None ==>
      w.progressStartTime == v.progressStartTime && w.progressTargetTime == v.progressTargetTime
  {
    var shown := if p.entered == [] then v else v.(state := Shown(p.cycle.state));
    match p.window
    case None => shown
    case Some(target) => shown.(progressStartTime := nowMs, progressTargetTime := target)
  }

  /**
   * The downlink record the summary of a completed cycle describes: the
   * downlink counter (LMIC has already counted the downlink, so one less,
   * in 32-bit unsigned arithmetic), the uplink counter recorded when
   * sending, the spreading factor of the current data rate, the receive
   * window, the acknowledgement and the payload.
   */
  function Received(m: MacState, seqnoUp: Uint32, dataRate: nat): (r: Record)
    requires m.Valid() && dataRate <= DR_SF7
    ensures m.seqnoDn > 0 ==> r.downCounter == m.seqnoDn - 1
    ensures m.seqnoDn == 0 ==> r.downCounter == 0xFFFF_FFFF
    ensures 7 <= r.sf <= 12 && |r.payload| == m.dataLen
    ensures r.window == FirstWindow <==> FlagSet(m.txrxFlags, TXRX_DNW1)
    ensures r.upCounter == seqnoUp && r.sf == SpreadingFactor(dataRate)
    ensures r.acked <==> FlagSet(m.txrxFlags, TXRX_ACK)
    ensures r.payload == m.frame[m.dataBeg..m.dataBeg + m.dataLen]
  {
    Record((m.seqnoDn - 1) % 0x1_0000_0000, seqnoUp, 12 - dataRate,
           if FlagSet(m.txrxFlags, TXRX_DNW1) then FirstWindow else SecondWindow,
           FlagSet(m.txrxFlags, TXRX_ACK),
           m.frame[m.dataBeg..m.dataBeg + m.dataLen])
  }

  /**
   * The summary of the downlink of a completed cycle: the values of
   * `Received`, appended part by part by `Describe`.
   */
  method RxDetails(m: MacState, seqnoUp: Uint32, dataRate: nat) returns (details: string)
    requires dataRate <= DR_SF7 && m.Valid()
    ensures details == Summary(Received(m, seqnoUp, dataRate))
  {
    var r := Received(m, seqnoUp, dataRate);
    details := Describe(r, m.frame, m.dataBeg, m.dataLen);
  }

  class Tester {
    var isConfirmed: bool
    var isAutoDataRate: bool
    var dataRateIdx: int
    var dataRate: nat
    var state: State
    var seqnoUp: Uint32
    var txFreq: Uint32
    var rx1time: int
    var rx2time: int
    /** The calls made into LMIC so far, in order. */
    var calls: seq<Call>
    const display: Display

    /**
     * What the routines keep true: the index is in the cycle of the mode
     * (or -1 before the first automatic selection), the data rate is the one
     * at the index, and the display shows the tester's choices, counters
     * and state.
     */
    ghost predicate Valid()
      reads this, display
    {
      && -1 <= dataRateIdx < CycleLength(isAutoDataRate)
      && dataRate <= DR_SF7
      && Shows(display.View())
    }

    /** The display shows the tester's choices, counters and state. */
    ghost predicate Shows(v: DisplayView)
      reads this
    {
      && (0 <= dataRateIdx < CycleLength(isAutoDataRate) ==>
            dataRate == RateAt(isAutoDataRate, dataRateIdx) && v.sf == SpreadingFactor(dataRate))
      && v.isConfirmedUplink == isConfirmed
      && v.isFixedDataRate == !isAutoDataRate
      && v.fcnt == seqnoUp
      && v.freq == txFreq
      && v.state == Shown(state)
    }

    /** The cycle state and the recorded receive targets, as one value. */
    function CycleNow(): Cycle
      reads this
    {
      Cycle(state, rx1time, rx2time)
    }

    /** The initial values: unconfirmed uplinks, automatic data rate, nothing selected yet. */
    constructor ()
      ensures Valid() && fresh(display)
      ensures isConfirmed == false && isAutoDataRate == true
      ensures dataRateIdx == -1 && dataRate == DR_SF12 && state == Nop
      ensures seqnoUp == 0 && txFreq == 0 && rx1time == 0 && rx2time == 0 && calls == []
      ensures display.View() == DisplayView(false, false, "", 0, 0, 7, Nop, 0, 0)
    {
      isConfirmed, isAutoDataRate := false, true;
      dataRateIdx, dataRate, state := -1, DR_SF12, Nop;
      seqnoUp, txFreq, rx1time, rx2time := 0, 0, 0, 0;
      calls := [];
      display := new Display();
    }

    /** Switches between unconfirmed and confirmed uplinks. */
    method ToggleConfirmed()
      requires Valid()
      modifies this`isConfirmed, display
      ensures Valid()
      ensures isConfirmed == !old(isConfirmed)
      ensures display.View() == old(display.View()).(isConfirmedUplink := isConfirmed)
    {
      isConfirmed := !isConfirmed;
      display.SetIsConfirmedUplink(isConfirmed);
    }

    /** Selects the next data rate of the cycle of the current mode and shows its spreading factor. */
    method NextDataRate()
      requires Valid()
      modifies this`dataRateIdx, this`dataRate, display
      ensures Valid()
      ensures Selection(dataRateIdx, dataRate) == Next(isAutoDataRate, old(dataRateIdx))
      ensures display.View() == old(display.View()).(sf := SpreadingFactor(dataRate))
    {
      if isAutoDataRate {
        dataRateIdx := (dataRateIdx + 1) % |DataRates|;
        dataRate := DataRates[dataRateIdx];
      } else {
        dataRateIdx := (dataRateIdx + 1) % FixedRates;
        dataRate := DR_SF7 - dataRateIdx;
      }
      display.SetTxSpreadingFactor(12 - dataRate);
    }

    /** Switches between the automatic and the fixed cycle, restarting at its first rate (SF7). */
    method ToggleAutoDataRate()
      requires Valid()
      modifies this`isAutoDataRate, this`dataRateIdx, this`dataRate, display
      ensures Valid()
      ensures isAutoDataRate == !old(isAutoDataRate)
      ensures dataRateIdx == 0 && dataRate == DR_SF7
      ensures display.View() == old(display.View()).(isFixedDataRate := !isAutoDataRate, sf := 7)
    {
      isAutoDataRate := !isAutoDataRate;
      display.SetIsFixedDataRate(!isAutoDataRate);
      dataRateIdx := -1;
      NextDataRate();
    }

    /**
     * One poll of LMIC's timing at tick `now`, when the display's clock
     * reads `nowMs`: the five rules in their order, each also updating the
     * display. The cycle becomes the one `Advance` gives.
     */
    method UpdateStateAndDisplay(now: int, nowMs: int, m: MacState)
      requires Valid()
      modifies this`state, this`rx1time, this`rx2time, display
      ensures Valid()
      ensures CycleNow() == Advance(old(CycleNow()), now, m).cycle
      ensures display.View() == AfterPoll(old(display.View()), Advance(old(CycleNow()), now, m), nowMs)
    {
      ghost var v0 := display.View();
      ghost var p0 := Poll(CycleNow(), [], None);
      WaitForTxRule(now, nowMs, m, v0, p0);
      ghost var p1 := WaitForTx(p0, now, m);
      StartTxRule(now, m, v0, p1, nowMs);
      ghost var p2 := StartTx(p1, now, m);
      AwaitRx1Rule(now, nowMs, m, v0, p2);
      ghost var p3 := AwaitRx1(p2, now, m);
      AwaitRx2Rule(nowMs, m, v0, p3);
      ghost var p4 := AwaitRx2(p3, m);
      FinishRxRule(m, v0, p4, nowMs);
    }

    /**
     * The state so far in a poll: the cycle is the one of `p` and the
     * display is the one `v0` became after the rules that led to `p`.
     */
    ghost predicate Polled(v0: DisplayView, p: Poll, nowMs: int)
      reads this, display
    {
      Valid() && CycleNow() == p.cycle && display.View() == AfterPoll(v0, p, nowMs)
    }

    /** The first rule: a finished cycle waits for the TX end LMIC has set, and shows that wait. */
    method WaitForTxRule(now: int, nowMs: int, m: MacState, ghost v0: DisplayView, ghost p: Poll)
      requires Polled(v0, p, nowMs)
      modifies this`state, display
      ensures Polled(v0, WaitForTx(p, now, m), nowMs)
    {
      if state == RxDone && m.txend - now > 0 {
        state := Waiting;
        display.StartWaitTx(m.txend, nowMs);
      }
    }

    /** The second rule: once the TX end has passed, the transmission is shown as under way. */
    method StartTxRule(now: int, m: MacState, ghost v0: DisplayView, ghost p: Poll, ghost nowMs: int)
      requires Polled(v0, p, nowMs)
      modifies this`state, display
      ensures Polled(v0, StartTx(p, now, m), nowMs)
    {
      if (state == Nop || state == Waiting) && now - m.txend > 0 {
        state := Tx;
        display.StartTx();
      }
    }

    /** The third rule: a receive time in the future is RX1's; it is recorded and its wait shown. */
    method AwaitRx1Rule(now: int, nowMs: int, m: MacState, ghost v0: DisplayView, ghost p: Poll)
      requires Polled(v0, p, nowMs)
      modifies this`state, this`rx1time, display
      ensures Polled(v0, AwaitRx1(p, now, m), nowMs)
    {
      if state == Tx && m.rxtime - now > 0 {
        state := Rx1;
        rx1time := m.rxtime;
        display.StartWaitRx1(rx1time, nowMs);
      }
    }

    /** The fourth rule: a receive time past RX1's is RX2's; it is recorded and its wait shown. */
    method AwaitRx2Rule(nowMs: int, m: MacState, ghost v0: DisplayView, ghost p: Poll)
      requires Polled(v0, p, nowMs)
      modifies this`state, this`rx2time, display
      ensures Polled(v0, AwaitRx2(p, m), nowMs)
    {
      if state == Rx1 && m.rxtime - rx1time > 0 {
        state := Rx2;
        rx2time := m.rxtime;
        display.StartWaitRx2(rx2time, nowMs);
      }
    }

    /** The fifth rule: with OP_TXRXPEND clear the receive windows are done and the display stops. */
    method FinishRxRule(m: MacState, ghost v0: DisplayView, ghost p: Poll, ghost nowMs: int)
      requires Polled(v0, p, nowMs)
      modifies this`state, display
      ensures Polled(v0, FinishRx(p, m), nowMs)
    {
      if (state == Rx1 || state == Rx2) && !m.txrxPending {
        state := RxDone;
        display.Stop();
      }
    }

    /**
     * The send routine. `m` is LMIC's record when it starts, `sent` the
     * record after the uplink has been handed to LMIC, and `now` and
     * `later` the two clock readings it takes. Nothing happens while a
     * TX/RX is pending. Otherwise the automatic mode selects the next rate
     * (except while waiting for the duty cycle), the uplink counter and
     * the frequency of the next transmission are recorded and shown, and
     * the calls of `SendCalls` are made: when LMIC cannot send yet, the
     * uplink is withdrawn and the routine rescheduled for when it can.
     */
    method DoSend(m: MacState, sent: MacState, now: int, later: int)
      requires Valid() && sent.Valid()
      modifies this`dataRateIdx, this`dataRate, this`seqnoUp, this`txFreq, this`calls, display
      ensures Valid()
      ensures m.txrxPending ==> unchanged(this) && unchanged(display)
      ensures !m.txrxPending ==>
        && Selection(dataRateIdx, dataRate)
           == (if isAutoDataRate && state != Waiting then Next(true, old(dataRateIdx))
               else Selection(old(dataRateIdx), old(dataRate)))
        && seqnoUp == m.seqnoUp
        && txFreq == sent.channelFreq[sent.txChnl]
        && calls == old(calls) + SendCalls(dataRate, isConfirmed, sent.txend - now, later)
      // on the display only the spreading factor (when a rate is selected), the counter and the frequency change
      ensures !m.txrxPending ==>
        display.View() == old(display.View()).(
          sf := if isAutoDataRate && state != Waiting then SpreadingFactor(dataRate) else old(display.View()).sf,
          fcnt := seqnoUp, freq := txFreq)
    {
      if m.txrxPending {
        return;
      }
      if isAutoDataRate && state != Waiting {
        NextDataRate();
      }
      ghost var c0 := calls;
      QueueUplink(m);
      ghost var c1 := calls;
      RescheduleIfWaiting(sent, now, later);
      AppendAssoc(c0, QueueCalls(dataRate, isConfirmed), RescheduleCalls(sent.txend - now, later));
    }

    /**
     * Hands the uplink to LMIC at the selected data rate (the calls of
     * `QueueCalls`), and records and shows LMIC's uplink counter as it is
     * before the transmission.
     */
    method QueueUplink(m: MacState)
      requires Valid()
      modifies this`seqnoUp, this`calls, display
      ensures Valid()
      ensures seqnoUp == m.seqnoUp
      ensures display.View() == old(display.View()).(fcnt := seqnoUp)
      ensures calls == old(calls) + QueueCalls(dataRate, isConfirmed)
    {
      ghost var c0 := calls;
      calls := calls + [SetDrTxpow(dataRate, TxPower)];
      var sf := 12 - dataRate;
      var data := [Bcd(sf)];
      seqnoUp := m.seqnoUp;
      display.SetTxCount(seqnoUp);
      calls := calls + [SetTxData2Strict(sf, data, isConfirmed)];
      ghost var head := [SetDrTxpow(dataRate, TxPower), SetTxData2Strict(sf, data, isConfirmed)];
      AppendAssoc(c0, [SetDrTxpow(dataRate, TxPower)], [SetTxData2Strict(sf, data, isConfirmed)]);
      ghost var conf: seq<Call> := [];
      if isConfirmed {
        calls := calls + [WriteTxCnt(TXCONF_ATTEMPTS)];
        conf := [WriteTxCnt(TXCONF_ATTEMPTS)];
      }
      AppendAssoc(c0, head, conf);
    }

    /**
     * Records and shows the frequency of the next transmission, and, when
     * LMIC cannot send yet (its TX end is still `sent.txend - now` ticks
     * away), withdraws the uplink and reschedules the send routine for that
     * moment, counted from the clock reading `later`.
     */
    method RescheduleIfWaiting(sent: MacState, now: int, later: int)
      requires Valid() && sent.Valid()
      modifies this`txFreq, this`calls, display
      ensures Valid()
      ensures txFreq == sent.channelFreq[sent.txChnl]
      ensures display.View() == old(display.View()).(freq := txFreq)
      ensures calls == old(calls) + RescheduleCalls(sent.txend - now, later)
    {
      txFreq := sent.channelFreq[sent.txChnl];
      display.SetTxFreq(txFreq);
      var waitTicks := sent.txend - now;
      if waitTicks > 0 {
        calls := calls + [ClrTxData, SetTimedCallback(later + waitTicks)];
      }
    }

    /**
     * Shows the summary of the downlink of a completed cycle (which reads
     * back as that downlink, by `ParseSummaryOfSummary`).
     */
    method ShowDownlink(m: MacState)
      requires Valid() && m.Valid()
      modifies display
      ensures Valid()
      ensures display.View() == old(display.View()).(lastRxDetails := Summary(Received(m, seqnoUp, dataRate)))
    {
      var details := RxDetails(m, seqnoUp, dataRate);
      display.SetRxDetails(details);
    }

    /**
     * LMIC's event handler, at tick `now`. On a completed cycle with an
     * acknowledgement or a downlink payload, the display gets the summary
     * of the downlink, which reads back as the downlink's counters,
     * spreading factor, window, acknowledgement and payload; and every
     * completed cycle schedules the send routine 500 ms later. Other
     * events change nothing.
     */
    method OnEvent(ev: Event, m: MacState, now: int)
      requires Valid() && m.Valid()
      modifies this`calls, display
      ensures Valid()
      ensures ev == OtherEvent ==> unchanged(this) && unchanged(display)
      ensures ev == TxComplete ==> calls == old(calls) + [SetTimedCallback(now + 500)]
      ensures ev == TxComplete && (FlagSet(m.txrxFlags, TXRX_ACK) || m.dataLen > 0) ==>
        display.View() == old(display.View()).(lastRxDetails := Summary(Received(m, seqnoUp, dataRate)))
      ensures ev == TxComplete && !(FlagSet(m.txrxFlags, TXRX_ACK) || m.dataLen > 0) ==>
        unchanged(display)
    {
      if ev == OtherEvent {
        return;
      }
      if FlagSet(m.txrxFlags, TXRX_ACK) || m.dataLen > 0 {
        ShowDownlink(m);
      }
      calls := calls + [SetTimedCallback(now + 500)];
    }
  }
}
