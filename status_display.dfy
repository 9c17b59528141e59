/**
 * The status display object (`Display` in src/display.cpp): what it shows
 * about the next uplink, the last downlink, and the progress window of the
 * current state. The OLED and its drawing are not part of this model.
 */
module StatusDisplay {
  import opened CycleState
  import opened Progress

  /** All fields of a display, as one value. */
  datatype DisplayView = DisplayView(
    isConfirmedUplink: bool,
    isFixedDataRate: bool,
    lastRxDetails: string,
    fcnt: nat,
    freq: nat,
    sf: int,
    state: State,
    progressStartTime: int,
    progressTargetTime: int)

  class Display {
    var isConfirmedUplink: bool
    var isFixedDataRate: bool
    var lastRxDetails: string
    var fcnt: nat
    var freq: nat
    var sf: int
    var state: State
    var progressStartTime: int
    var progressTargetTime: int

    function View(): DisplayView
      reads this
    {
      DisplayView(isConfirmedUplink, isFixedDataRate, lastRxDetails, fcnt, freq, sf,
                  state, progressStartTime, progressTargetTime)
    }

    /** The initial values of the fields. */
    constructor ()
      ensures View() == DisplayView(false, false, "", 0, 0, 7, Nop, 0, 0)
    {
      isConfirmedUplink, isFixedDataRate, lastRxDetails := false, false, "";
      fcnt, freq, sf := 0, 0, 7;
      state, progressStartTime, progressTargetTime := Nop, 0, 0;
    }

    method SetIsConfirmedUplink(isConfirmed: bool)
      modifies this
      ensures View() == old(View()).(isConfirmedUplink := isConfirmed)
    {
      isConfirmedUplink := isConfirmed;
    }

    method SetIsFixedDataRate(isFixed: bool)
      modifies this
      ensures View() == old(View()).(isFixedDataRate := isFixed)
    {
      isFixedDataRate := isFixed;
    }

    method SetRxDetails(rxDetails: string)
      modifies this
      ensures View() == old(View()).(lastRxDetails := rxDetails)
    {
      lastRxDetails := rxDetails;
    }

    method SetTxCount(fCntUp: nat)
      modifies this
      ensures View() == old(View()).(fcnt := fCntUp)
    {
      fcnt := fCntUp;
    }

    method SetTxSpreadingFactor(spreadingFactor: int)
      modifies this
      ensures View() == old(View()).(sf := spreadingFactor)
    {
      sf := spreadingFactor;
    }

    method SetTxFreq(txFreq: nat)
      modifies this
      ensures View() == old(View()).(freq := txFreq)
    {
      freq := txFreq;
    }

    /** Starts a progress window for `waitState` that runs from now (`nowMs`, the `millis()` reading) to `targetTimeMs`. */
    method StartWait(waitState: State, targetTimeMs: int, nowMs: int)
      modifies this
      ensures View() == old(View()).(state := waitState, progressStartTime := nowMs,
                                     progressTargetTime := targetTimeMs)
    {
      state := waitState;
      progressStartTime := nowMs;
      progressTargetTime := targetTimeMs;
    }

    method StartWaitTx(targetTimeMs: int, nowMs: int)
      modifies this
      ensures View() == old(View()).(state := Waiting, progressStartTime := nowMs,
                                     progressTargetTime := targetTimeMs)
    {
      StartWait(Waiting, targetTimeMs, nowMs);
    }

    /** Shows TX; the progress window is kept. */
    method StartTx()
      modifies this
      ensures View() == old(View()).(state := Tx)
    {
      state := Tx;
    }

    method StartWaitRx1(targetTimeMs: int, nowMs: int)
      modifies this
      ensures View() == old(View()).(state := Rx1, progressStartTime := nowMs,
                                     progressTargetTime := targetTimeMs)
    {
      StartWait(Rx1, targetTimeMs, nowMs);
    }

    method StartWaitRx2(targetTimeMs: int, nowMs: int)
      modifies this
      ensures View() == old(View()).(state := Rx2, progressStartTime := nowMs,
                                     progressTargetTime := targetTimeMs)
    {
      StartWait(Rx2, targetTimeMs, nowMs);
    }

    /** Ends the cycle shown: the display goes back to `Nop`; the progress window is kept. */
    method Stop()
      modifies this
      ensures View() == old(View()).(state := Nop)
    {
      state := Nop;
    }

    /**
     * One refresh at time `nowMs`: the bar value and label computed from the
     * state and the progress window (drawing them is left out). Every frame
     * it gives has a bar value a `uint8_t` can hold, and the window-waiting
     * bar never exceeds 100 while the window is open.
     */
    method Tick(nowMs: int) returns (f: Frame)
      ensures f == Render(state, progressStartTime, progressTargetTime, nowMs)
      ensures state == Waiting && progressStartTime <= nowMs <= progressTargetTime ==> f.progress <= 100
    {
      f := Render(state, progressStartTime, progressTargetTime, nowMs);
      if state == Waiting && progressStartTime <= nowMs <= progressTargetTime {
        if progressStartTime < progressTargetTime {
          WaitingElapsedPercent(progressStartTime, progressTargetTime, nowMs);
        }
      }
    }
  }
}
