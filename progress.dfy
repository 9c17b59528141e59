/**
 * The progress bar and label of the status display (`Display::tick` in
 * src/display.cpp), computed from the display's state, its progress window
 * and the current time. The source works on `sec`, a float holding the time
 * left in seconds; here the time left is kept in whole milliseconds and each
 * float comparison is the matching comparison in milliseconds.
 */
module Progress {
  import opened CycleState

  /** C's division of `a` by a positive `b`, which rounds toward zero. */
  function TruncDiv(a: int, b: int): (q: int)
    requires b > 0
    ensures 0 <= a ==> 0 <= a - q * b < b
    ensures a < 0 ==> -b < a - q * b <= 0
  {
    if a >= 0 then a / b else -((-a) / b)
  }

  /** Storing an int into a `uint8_t` keeps it modulo 256. */
  function ToUint8(x: int): (b: int)
    ensures 0 <= b < 256 && (x - b) % 256 == 0
    ensures 0 <= x < 256 ==> b == x
  {
    x % 256
  }

  function Min(a: int, b: int): int { if a <= b then a else b }
  function Max(a: int, b: int): int { if a >= b then a else b }

  /** The receive-window bars cover the last second before their target. */
  const RxBarMs: int := 1000
  /** Below 0.1 s left the TX and RX labels switch to the elapsed-time form. */
  const NearMs: int := 100
  /** Below -0.5 s the RX labels also show the (negative) time. */
  const LateMs: int := -500

  /** The kind of label `tick` writes; the numbers it formats into it are left out. */
  datatype Label =
    | Blank          // ""
    | TxCountdown    // "tx in <sec> sec"
    | TxPlain        // "tx "
    | TxElapsed      // "tx <-sec> sec"
    | Rx1Unknown     // "unknown rx1 state <sec> sec"
    | Rx1Awaiting    // "awaiting rx1"
    | Rx1Open        // "rx1 "
    | Rx1Late        // "rx1 <sec> sec"
    | Rx2Unknown     // "unknown rx2 state: <sec> sec"
    | Rx2Awaiting    // "awaiting rx2"
    | Rx2Open        // "rx2 "
    | Rx2Late        // "rx2 <sec> sec"
    | UnknownState   // "unknown state <sec> sec"

  /** What one tick draws: the bar's value (a `uint8_t`) and the label. */
  datatype Frame = Frame(progress: int, caption: Label)

  /** The label of a receive window, by the time left. */
  function RxLabel(timeLeftMs: int, awaiting: Label, near: Label, late: Label): (l: Label)
    ensures l in {awaiting, near, late}
    ensures l == awaiting || timeLeftMs < NearMs
    ensures l == late || timeLeftMs >= LateMs
    ensures LateMs <= timeLeftMs < NearMs ==> l == near
  {
    if timeLeftMs >= NearMs then awaiting
    else if timeLeftMs < LateMs then late
    else near
  }

  /**
   * The frame for a display in `state` whose progress window runs from
   * `startMs` to `targetMs`, at time `nowMs`.
   */
  function Render(state: State, startMs: int, targetMs: int, nowMs: int): (f: Frame)
    ensures 0 <= f.progress < 256
  {
    var rangeMs := targetMs - startMs;
    var timeLeftMs := targetMs - nowMs;
    match state
    case Waiting =>
      if timeLeftMs >= 0 then
        var p := if rangeMs > 0 then Min(100 - TruncDiv(100 * timeLeftMs, rangeMs), 100) else 0;
        Frame(ToUint8(p), TxCountdown)
      else
        Frame(100, Blank)
    case Tx =>
      Frame(100, if timeLeftMs < NearMs then TxElapsed else TxPlain)
    case Rx1 =>
      if timeLeftMs > RxBarMs then Frame(0, Rx1Unknown)
      else Frame(ToUint8(50 + TruncDiv(50 * timeLeftMs, 1000)),
                 RxLabel(timeLeftMs, Rx1Awaiting, Rx1Open, Rx1Late))
    case Rx2 =>
      if timeLeftMs > RxBarMs then Frame(0, Rx2Unknown)
      else Frame(ToUint8(Max(TruncDiv(50 * timeLeftMs, 1000), 0)),
                 RxLabel(timeLeftMs, Rx2Awaiting, Rx2Open, Rx2Late))
    case Nop =>
      Frame(0, Blank)
    case RxDone =>
      Frame(0, UnknownState)
  }

  /** Waiting for TX: once the target has passed the bar is full. */
  lemma WaitingPastTarget(startMs: int, targetMs: int, nowMs: int)
    requires nowMs > targetMs
    ensures Render(Waiting, startMs, targetMs, nowMs) == Frame(100, Blank)
  {
  }

  /** Waiting for TX with an empty or negative window: the bar is empty until the target. */
  lemma WaitingEmptyWindow(startMs: int, targetMs: int, nowMs: int)
    requires nowMs <= targetMs && targetMs <= startMs
    ensures Render(Waiting, startMs, targetMs, nowMs) == Frame(0, TxCountdown)
  {
  }

  /** Waiting for TX inside a window: the bar is 100 less the percentage of the window still left. */
  lemma WaitingValue(startMs: int, targetMs: int, nowMs: int)
    requires startMs <= nowMs <= targetMs && startMs < targetMs
    ensures Render(Waiting, startMs, targetMs, nowMs).progress
         == 100 - (100 * (targetMs - nowMs)) / (targetMs - startMs)
    ensures 0 <= (100 * (targetMs - nowMs)) / (targetMs - startMs) <= 100
  {
    var r, t := targetMs - startMs, targetMs - nowMs;
    var q := TruncDiv(100 * t, r);
    assert 0 <= 100 * t - q * r < r;
    assert q * r <= 100 * r by {
      assert 100 * t <= 100 * r;
    }
    DivBounds(q, r);
  }

  /**
   * Waiting for TX inside the window: the bar shows the percentage of the
   * window that has elapsed, rounded up, so it lies in 0..100.
   */
  lemma WaitingElapsedPercent(startMs: int, targetMs: int, nowMs: int)
    requires startMs <= nowMs <= targetMs && startMs < targetMs
    ensures var p := Render(Waiting, startMs, targetMs, nowMs).progress;
      0 <= p <= 100 &&
      (p - 1) * (targetMs - startMs) < 100 * (nowMs - startMs) <= p * (targetMs - startMs)
  {
    var r, t := targetMs - startMs, targetMs - nowMs;
    WaitingValue(startMs, targetMs, nowMs);
    var q := (100 * t) / r;
    assert 0 <= 100 * t - q * r < r;
    var p := 100 - q;
    assert p * r == 100 * r - q * r;
    assert (p - 1) * r == 100 * r - q * r - r;
  }

  lemma DivBounds(q: int, r: int)
    requires r > 0 && 0 <= q * r <= 100 * r
    ensures 0 <= q <= 100
  {
  }

  /** Waiting for TX: for a fixed window the bar never moves back as time advances. */
  lemma WaitingMonotone(startMs: int, targetMs: int, nowMs: int, laterMs: int)
    requires startMs <= nowMs <= laterMs
    ensures Render(Waiting, startMs, targetMs, nowMs).progress
         <= Render(Waiting, startMs, targetMs, laterMs).progress
  {
    var r := targetMs - startMs;
    if laterMs <= targetMs && r > 0 {
      WaitingValue(startMs, targetMs, nowMs);
      WaitingValue(startMs, targetMs, laterMs);
      DivMonotone(100 * (targetMs - laterMs), 100 * (targetMs - nowMs), r);
    } else if laterMs > targetMs && nowMs <= targetMs && r > 0 {
      WaitingValue(startMs, targetMs, nowMs);
    }
  }

  lemma DivMonotone(a: int, b: int, r: int)
    requires 0 <= a <= b && r > 0
    ensures a / r <= b / r
  {
    var qa, qb := a / r, b / r;
    assert qa * r <= a;
    assert b < qb * r + r;
    assert qa * r < (qb + 1) * r;
    MulCancel(qa, qb + 1, r);
  }

  lemma MulCancel(x: int, y: int, r: int)
    requires r > 0 && x * r < y * r
    ensures x < y
  {
  }

  /** During TX the bar is always full, whatever the timing fields. */
  lemma TxBarFull(startMs: int, targetMs: int, nowMs: int)
    ensures Render(Tx, startMs, targetMs, nowMs).progress == 100
  {
  }

  /**
   * Awaiting RX1: more than a second ahead the bar is empty; in the last
   * second it runs back from 100 to 50, and in the second after the target
   * from 50 to 0.
   */
  lemma Rx1Bar(startMs: int, targetMs: int, nowMs: int)
    ensures var f := Render(Rx1, startMs, targetMs, nowMs);
      var t := targetMs - nowMs;
      (t > RxBarMs ==> f == Frame(0, Rx1Unknown)) &&
      (0 <= t <= RxBarMs ==> 50 <= f.progress <= 100) &&
      (-RxBarMs <= t < 0 ==> 0 <= f.progress <= 50)
  {
  }

  /**
   * Awaiting RX1 more than a second past the target: the source does not
   * clamp, and the negative value wraps in its `uint8_t` to above 100.
   */
  lemma Rx1BarWrapsLate(startMs: int, targetMs: int, nowMs: int)
    requires -4100 <= targetMs - nowMs <= -1020
    ensures Render(Rx1, startMs, targetMs, nowMs).progress > 100
  {
    var t := targetMs - nowMs;
    var q := TruncDiv(50 * t, 1000);
    assert -205 <= q <= -51;
  }

  /** Awaiting RX2: more than a second ahead the bar is empty, otherwise it lies in 0..50. */
  lemma Rx2Bar(startMs: int, targetMs: int, nowMs: int)
    ensures var f := Render(Rx2, startMs, targetMs, nowMs);
      var t := targetMs - nowMs;
      (t > RxBarMs ==> f == Frame(0, Rx2Unknown)) &&
      (t <= RxBarMs ==> 0 <= f.progress <= 50) &&
      (t <= 0 ==> f.progress == 0)
  {
  }

  /** With no transmission cycle shown, and in the unlisted state, the bar is empty. */
  lemma IdleBarEmpty(startMs: int, targetMs: int, nowMs: int)
    ensures Render(Nop, startMs, targetMs, nowMs) == Frame(0, Blank)
    ensures Render(RxDone, startMs, targetMs, nowMs) == Frame(0, UnknownState)
  {
  }
}
