# LoRaWAN data-rate tester, modelled in Dafny

The data-rate tester is a small LoRaWAN device program for EU868 networks.
It sends a one-byte uplink over and over, and each time it cycles through the
spreading factors SF7 to SF12. It can send confirmed uplinks, and it shows
on a small display:

- the next uplink;
- a progress bar for the current phase of the cycle (waiting for the duty
  cycle, transmitting, awaiting RX1, awaiting RX2);
- a summary of the last downlink.

This project models the tester's own logic and proves properties of it:

- the controller in `src/main.cpp`: the data-rate selector, the polling
  state machine, the send routine and the completion handler;
- the status display in `src/display.cpp`: its setters, its progress-window
  methods and the progress/label computation of `tick`.

The modules follow the program's structure:

| file | module | models |
|---|---|---|
| `cycle_state.dfy` | `CycleState` | the cycle states shared by controller and display |
| `lmic.dfy` | `Lmic` | the fields of the LMIC library's record that the tester reads, and the calls it makes into LMIC |
| `text.dfy` | `Text` | Arduino's `String(n)` and `String(b, HEX)`, with parsers that read them back |
| `data_rate.dfy` | `DataRate` | the automatic and fixed data-rate cycles |
| `state_machine.dfy` | `StateMachine` | the five ordered rules of `updateStateAndDisplay`, as a function on values |
| `scheduler.dfy` | `Scheduler` | the BCD payload and the LMIC calls of one send attempt |
| `downlink.dfy` | `Downlink` | the downlink summary text, the loops that build it, and its parser |
| `progress.dfy` | `Progress` | the bar value and label of `Display::tick` |
| `status_display.dfy` | `StatusDisplay` | the `Display` class and its fields |
| `controller.dfy` | `Controller` | the tester's globals as the `Tester` class, and its routines |

How the program's pieces appear in the model:

- **Global variables.** The tester's globals are the fields of
  `Controller.Tester`. The display is a `StatusDisplay.Display` object that
  the tester's methods update in place.
- **The LMIC record.** LMIC's global record is a `MacState` value that each
  routine receives. The library may change it between two calls.
- **Calls into LMIC.** Every call into LMIC, and the write of `LMIC.txCnt`,
  is appended to the `calls` field, in order.
- **State-machine invariant.** The routines keep `Tester.Valid()` true:
  - the data-rate index lies in the cycle of the current mode;
  - the data rate is the one at that index;
  - the display shows the tester's choices, counters and state.
- **Polling.** `UpdateStateAndDisplay` runs the five rules one after another,
  as the source does. Its contract ties the new cycle state, and the new
  display, to the function `StateMachine.Advance`. The lemmas about polling
  are stated about `Advance`.

## Model

| member | source | states |
|---|---|---|
| Text.Dec | src/main.cpp:246 | `String(n)` of an unsigned number is a non-empty run of decimal digits, one digit exactly when n < 10 |
| Text.DecValue | src/main.cpp:246 | the decimal digits printed for n denote n |
| Text.ParseDecOfDec | src/main.cpp:246-247 | a printed number followed by a non-digit reads back as that number and the rest of the text |
| Text.Radix16 | src/main.cpp:262 | `String(b, HEX)` prints one or more lower-case hexadecimal digits and nothing else |
| Text.HexByte | src/main.cpp:259-262 | a byte is written as exactly two lower-case hexadecimal digits |
| Text.PaddedRadix16 | src/main.cpp:259-262 | adding a "0" below 0x10 in front of `String(b, HEX)` gives exactly the two-digit form of the byte |
| Text.Hex | src/main.cpp:258-263 | the hex text of a payload has two characters per byte |
| Text.ParseHexOfHex | src/main.cpp:258-263 | the hex text of a payload reads back as that payload: the encoding is lossless |
| DataRate.RateAt | src/main.cpp:21-22 | every rate of either cycle is between DR_SF12 and DR_SF7, so its spreading factor is 7..12 |
| DataRate.Next | src/main.cpp:42-50 | the next index is idx + 1, wrapping to 0 at the end of the cycle (11 entries in automatic mode, 6 in fixed mode), and the rate is the table entry (automatic mode) or DR_SF7 - idx (fixed mode) |
| DataRate.IterateIndex | src/main.cpp:44-48 | after k selections the index is idx + k modulo the cycle length |
| DataRate.CycleIsPeriodic | src/main.cpp:44-49 | a full round of selections returns to the same index and rate |
| DataRate.AutoCycleCoversAllFactors | src/main.cpp:19-22 | the automatic table contains every spreading factor from 7 to 12 |
| DataRate.FixedCycleAscends | src/main.cpp:47-49 | the fixed cycle selects SF7, SF8, ..., SF12 and then SF7 again |
| Progress.RxLabel | src/display.cpp:82-88 | the receive-window label is "awaiting" while at least 0.1 s is left, the plain window label from then until 0.5 s late, and the late form with the time beyond that; it is always one of the three |
| Progress.TruncDiv | src/display.cpp:64 | C's integer division by a positive number: the remainder has the sign of the dividend and is smaller than the divisor |
| Progress.ToUint8 | src/display.cpp:57 | storing into a `uint8_t` keeps the value modulo 256, and keeps values 0..255 unchanged |
| Progress.Render | src/display.cpp:44-115 | the bar value and label of one tick; the value always fits the `uint8_t` it is stored in |
| Progress.WaitingPastTarget | src/display.cpp:60-67 | waiting for TX after the target has passed: a full bar and no label |
| Progress.WaitingEmptyWindow | src/display.cpp:64 | waiting for TX with an empty or negative window, before the target: the bar is 0 |
| Progress.WaitingValue | src/display.cpp:64 | waiting for TX inside the window: the bar is 100 - 100*timeLeft/range, and the quotient lies in 0..100 |
| Progress.WaitingElapsedPercent | src/display.cpp:64 | waiting for TX inside the window: the bar is the elapsed percentage of the window, rounded up, within 0..100 |
| Progress.WaitingMonotone | src/display.cpp:60-67 | for a fixed window the waiting bar never moves back as time goes on |
| Progress.TxBarFull | src/display.cpp:70-76 | during TX the bar is 100, whatever the timing fields |
| Progress.Rx1Bar | src/display.cpp:78-92 | awaiting RX1: bar 0 and the "unknown" label more than 1 s ahead; 50..100 in the last second; 0..50 in the second after the target |
| Progress.Rx1BarWrapsLate | src/display.cpp:90 | awaiting RX1 from 1.02 s to 4.1 s past the target, the unclamped negative value wraps in the `uint8_t` to above 100 |
| Progress.Rx2Bar | src/display.cpp:94-107 | awaiting RX2: bar 0 more than 1 s ahead, otherwise 0..50, and 0 once the target has passed |
| Progress.IdleBarEmpty | src/display.cpp:109-115 | with no cycle shown (NOP), and in the unlisted state, the bar is 0 |
| StatusDisplay.Display.constructor | include/display.h:14-23 | the display's fields start at their declared initial values |
| StatusDisplay.Display.SetIsConfirmedUplink | src/display.cpp:134-136 | changes the confirmed flag and nothing else |
| StatusDisplay.Display.SetIsFixedDataRate | src/display.cpp:138-140 | changes the fixed-rate flag and nothing else |
| StatusDisplay.Display.SetRxDetails | src/display.cpp:142-144 | changes the downlink summary and nothing else |
| StatusDisplay.Display.SetTxCount | src/display.cpp:146-148 | changes the uplink counter and nothing else |
| StatusDisplay.Display.SetTxSpreadingFactor | src/display.cpp:150-152 | changes the spreading factor and nothing else |
| StatusDisplay.Display.SetTxFreq | src/display.cpp:154-156 | changes the frequency and nothing else |
| StatusDisplay.Display.StartWait | src/display.cpp:158-164 | sets the state, starts the progress window now and ends it at the target; nothing else changes |
| StatusDisplay.Display.StartWaitTx | src/display.cpp:166-168 | starts a WAITING window; nothing else changes |
| StatusDisplay.Display.StartTx | src/display.cpp:170-172 | changes only the state, to TX; the window is kept |
| StatusDisplay.Display.StartWaitRx1 | src/display.cpp:174-176 | starts an RX1 window; nothing else changes |
| StatusDisplay.Display.StartWaitRx2 | src/display.cpp:178-180 | starts an RX2 window; nothing else changes |
| StatusDisplay.Display.Stop | src/display.cpp:182-184 | changes only the state, to NOP |
| StatusDisplay.Display.Tick | src/display.cpp:43-115 | one refresh gives the frame of `Render` for the display's fields; inside an open WAITING window the bar is at most 100 |
| StateMachine.WaitForTx | src/main.cpp:71-77 | the first rule fires exactly when the state is RXDONE and `txend` is in the future; it then takes the transition RXDONE to WAITING and starts a window ending at `txend`, and otherwise changes nothing |
| StateMachine.StartTx | src/main.cpp:79-86 | the second rule fires exactly when the state is NOP or WAITING and `txend` has passed; it then enters TX keeping the window, and otherwise changes nothing |
| StateMachine.AwaitRx1 | src/main.cpp:88-102 | the third rule fires exactly when the state is TX and `rxtime` is in the future; it then enters RX1, records `rxtime` as the RX1 target and starts a window ending there, and otherwise changes nothing |
| StateMachine.AwaitRx2 | src/main.cpp:104-111 | the fourth rule fires exactly when the state is RX1 and `rxtime` has moved past the RX1 target; it then enters RX2, records `rxtime` as the RX2 target and starts a window ending there, and otherwise changes nothing |
| StateMachine.FinishRx | src/main.cpp:113-119 | the fifth rule fires exactly when the state is RX1 or RX2 and OP_TXRXPEND is clear; it then enters RXDONE keeping the window, and otherwise changes nothing |
| StateMachine.Advance | src/main.cpp:68-120 | one poll enters one of the allowed paths: forward along NOP/WAITING, TX, RX1, RX2, RXDONE, or only the wrap RXDONE to WAITING; with no state entered nothing changes; otherwise the last state entered is the new state |
| StateMachine.AdvanceMovesWhenDue | src/main.cpp:72-119 | a poll enters some state exactly when the rule for the state it starts in applies: `txend` ahead at RXDONE, `txend` passed at NOP or WAITING, `rxtime` ahead at TX, `rxtime` past the RX1 target or OP_TXRXPEND clear at RX1, OP_TXRXPEND clear at RX2 |
| StateMachine.AdvanceWraps | src/main.cpp:72-77 | at RXDONE with `txend` in the future, one poll enters only WAITING and leaves a window ending at `txend` |
| StateMachine.AdvanceCatchesUp | src/main.cpp:72-119 | a late poll catches up: from NOP or WAITING with `txend` passed, `rxtime` ahead and OP_TXRXPEND clear, one poll enters TX, RX1 and RXDONE in that order, recording `rxtime` as the RX1 target |
| StateMachine.AdvanceRecords | src/main.cpp:88-92 | RXDONE is entered only when OP_TXRXPEND is clear; entering RX1 records `rxtime` as its target, and otherwise the RX1 target is kept |
| StateMachine.AdvanceRecordsRx2 | src/main.cpp:104-111 | RX2 is entered only when `rxtime` has moved past the RX1 target, and entering it records `rxtime` as its target; otherwise the RX2 target is kept |
| StateMachine.AdvanceWindow | src/main.cpp:72-111 | the progress window a poll starts ends at `txend` when it entered WAITING, at `rxtime` when it entered RX1 or RX2, and no window starts otherwise |
| StateMachine.SecondPoll | src/main.cpp:68-120 | a second poll at the same instant can only take the wrap from RXDONE to WAITING |
| StateMachine.PollingSettles | src/main.cpp:68-120 | polling again at the same instant changes nothing after two polls |
| StateMachine.PathFollowsCycle | src/main.cpp:72-119 | every allowed path is made of the rules' transitions, strictly forward after its first step, with the wrap only as a whole path |
| StateMachine.AdvanceFollowsCycle | src/main.cpp:72-119 | every poll follows the cycle in that sense; in particular the wrap to WAITING and the start of TX never happen in the same poll |
| StateMachine.AdvanceReceiveOrder | src/main.cpp:105-119 | RX2 is entered only from RX1 and never in the poll that enters RX1; RXDONE is entered only from RX1 or RX2 |
| Scheduler.Bcd | src/main.cpp:146-147 | both nibbles of the payload byte are below 10, and they read back as the number |
| Scheduler.BcdOfSpreadingFactor | src/main.cpp:143-147 | for SF7..SF12 the payload byte is 0x07..0x12, and its hex text is the factor in decimal |
| Scheduler.BcdInjective | src/main.cpp:147 | different spreading factors give different payload bytes |
| Scheduler.QueueCalls | src/main.cpp:140-168 | queuing makes two calls, three for a confirmed uplink: first the data rate with power 14, then the uplink on the port of its spreading factor with exactly the factor in BCD (`Bcd`, which reads back as the factor) as the one payload byte; it never clears the uplink, and it sets `txCnt` exactly when confirmed |
| Scheduler.RescheduleCalls | src/main.cpp:176-191 | when LMIC must still wait, the uplink is cleared and the routine scheduled `waitTicks` after the second clock reading; otherwise there are no calls |
| Scheduler.SendCalls | src/main.cpp:140-191 | a send attempt makes exactly the queuing calls, followed by exactly the rescheduling calls: two to five calls in all |
| Scheduler.QueueSchedulesNothing | src/main.cpp:140-168 | queuing the uplink schedules no callback |
| Scheduler.RescheduleCallbacks | src/main.cpp:176-191 | rescheduling schedules exactly one callback at the clock reading plus `waitTicks` when LMIC must wait, and none otherwise |
| Scheduler.SendReschedulesOnce | src/main.cpp:176-191 | a send attempt schedules the send routine exactly once, at the clock reading plus `waitTicks`, when LMIC must still wait, and not at all otherwise |
| Scheduler.SendCallsShape | src/main.cpp:140-191 | a send attempt sets the data rate and power first, queues exactly one uplink on the port of its spreading factor, clears it exactly when LMIC must wait, and sets `txCnt` exactly when confirmed |
| Downlink.Summary | src/main.cpp:246-266 | the summary starts with "#" and holds at least a digit per number, the separators, the window name, " ack" when acknowledged and a space and two characters per byte when there is a payload |
| Downlink.SummaryByParts | src/main.cpp:246-266 | the summary appended part by part, as the source builds it, is `Summary` of the downlink |
| Downlink.ParseFlagsOfFlags | src/main.cpp:250-267 | the " ack" part and the payload part read back as the acknowledgement and the payload |
| Downlink.ParseSummaryOfSummary | src/main.cpp:246-266 | a downlink summary reads back as its downlink counter, uplink counter, spreading factor, receive window, acknowledgement and payload |
| Downlink.HexPayload | src/main.cpp:257-263 | the loop over the payload bytes builds the two-digit hex text of the payload |
| Downlink.AppendFlags | src/main.cpp:250-266 | appends " ack" only when acknowledged, and " " plus the hex payload only when there is a payload |
| Downlink.Describe | src/main.cpp:246-266 | builds exactly the summary of the downlink it is given |
| Lmic.FlagSet | src/main.cpp:242-250 | the `&` tests of `txrxFlags`: TXRX_ACK is set exactly when the top bit of the byte is, TXRX_DNW1 exactly when the bottom bit is |
| Controller.AfterPoll | src/main.cpp:72-119 | what a poll does to the display: only the state and the progress window can change; the state shown is that of the last state entered (NOP for RXDONE); the window is the last one started, from the display's clock reading, and a poll that starts none keeps the old window; a poll that enters nothing changes nothing |
| Controller.Received | src/main.cpp:242-263 | the summary's downlink counter is `seqnoDn - 1`, wrapping to 0xFFFFFFFF when `seqnoDn` is 0; the uplink counter is the one saved at the send; the spreading factor is that of the current data rate, 7..12; the window is RX1 exactly when TXRX_DNW1 is set; the acknowledgement is the TXRX_ACK flag; the payload is the `dataLen` bytes of the frame from `dataBeg` |
| Controller.RxDetails | src/main.cpp:246-267 | the text built is the summary of the received downlink |
| Controller.Tester.constructor | src/main.cpp:16-35 | the globals start out unconfirmed, automatic, with no rate selected (index -1) and state NOP; the display starts at its declared initial values and shows them |
| Controller.Tester.ToggleConfirmed | src/main.cpp:37-40 | flips the confirmed flag and shows it; nothing else on the display changes |
| Controller.Tester.NextDataRate | src/main.cpp:42-54 | the new index and rate are `DataRate.Next` of the old index in the current mode; the display shows the new spreading factor; the invariant is kept |
| Controller.Tester.ToggleAutoDataRate | src/main.cpp:56-63 | flips the mode, shows it, and restarts the new cycle at index 0 (DR_SF7, shown as SF7) |
| Controller.Tester.UpdateStateAndDisplay | src/main.cpp:68-120 | the new cycle state and receive targets are those of `StateMachine.Advance`, and the display shows the last state entered and the last window started |
| Controller.Tester.WaitForTxRule | src/main.cpp:72-77 | the first rule, applied to the tester and the display, agrees with `StateMachine.WaitForTx` |
| Controller.Tester.StartTxRule | src/main.cpp:80-86 | the second rule agrees with `StateMachine.StartTx` |
| Controller.Tester.AwaitRx1Rule | src/main.cpp:90-102 | the third rule agrees with `StateMachine.AwaitRx1` |
| Controller.Tester.AwaitRx2Rule | src/main.cpp:105-111 | the fourth rule agrees with `StateMachine.AwaitRx2` |
| Controller.Tester.FinishRxRule | src/main.cpp:114-119 | the fifth rule agrees with `StateMachine.FinishRx` |
| Controller.Tester.DoSend | src/main.cpp:128-192 | with OP_TXRXPEND set nothing changes. Otherwise: the rate advances only in automatic mode outside WAITING; `seqnoUp` is LMIC's counter before the send; `txFreq` is the frequency of the next channel; the calls made are `Scheduler.SendCalls`; on the display only the spreading factor (when a rate is selected), the uplink counter and the frequency change |
| Controller.Tester.QueueUplink | src/main.cpp:140-168 | records and shows `seqnoUp`; makes the calls of `Scheduler.QueueCalls` |
| Controller.Tester.RescheduleIfWaiting | src/main.cpp:170-191 | records and shows the frequency of the next channel; makes the calls of `Scheduler.RescheduleCalls` |
| Controller.Tester.ShowDownlink | src/main.cpp:246-269 | the display's downlink summary becomes the summary of the received downlink, and nothing else on the display changes |
| Controller.Tester.OnEvent | src/main.cpp:208-285 | on EV_TXCOMPLETE the summary is shown only when acknowledged or carrying data, and the send routine is always scheduled 500 ms later; other events change nothing |

## Behaviour that may be unexpected

- **RX1 bar more than a second late.** The bar is `50 + int(50 * sec)`,
  stored into a `uint8_t` without a clamp (`src/display.cpp:90`).
  - Down to 1.02 s late, `int` truncates toward zero, so the bar shows 0.
  - From 1.02 s to 4.1 s late, the negative value wraps to values above
    100 (`Progress.Rx1BarWrapsLate`).
  - Further down, it cycles through 0..255 modulo 256.

  One might expect a bar that always stays within 0..100.
- **Empty or negative WAITING window.** If time is left but the window is
  empty or negative, the bar shows 0 (`src/display.cpp:64`,
  `Progress.WaitingEmptyWindow`), not a full bar.
- **Polling is not idempotent.** A poll that ends in RXDONE can be followed
  by the wrap to WAITING in a second poll at the same instant. What holds is
  that polling settles after two polls (`StateMachine.SecondPoll`,
  `StateMachine.PollingSettles`).

## Left out

- **LMIC internals.** What LMIC does inside `LMIC_setDrTxpow`,
  `LMIC_setTxData2_strict`, `LMIC_clrTxData` and `os_setTimedCallback` is
  not modelled: these calls are only recorded. The record as it stands
  after queuing is the parameter `sent` of `DoSend`. LMIC's constants
  (DR_SF12..DR_SF7 = 0..5, TXRX_ACK = 0x80, TXRX_DNW1 = 0x01,
  TXCONF_ATTEMPTS = 8) come from the library, which is not part of this
  model.
- **Clock readings.** `os_getTime()` and `millis()` are parameters (`now`,
  `later`, `nowMs`). `osticks2ms` and `ms2osticks` are taken as the
  identity, so one tick is one millisecond.
- **Fixed-width arithmetic.** Tick and millisecond differences are
  unbounded integers. The 32-bit wrap of `ostime_t` and `millis()`, the
  `int32_t` overflow of `100 * timeLeftMs` for windows longer than about six
  hours, and the `uint32_t` storage of the progress times are not modelled.
  Only the `uint8_t` store of the bar and `seqnoDn - 1` are written out
  modulo their width.
- **Floating point.** `tick` compares the float `sec`; the model compares
  whole milliseconds, and `int(50 * sec)` becomes C's truncating division
  of `50 * timeLeftMs` by 1000.
- Progress.Rx1Bar: the exact float results at the 0.1 s and -0.5 s label
  thresholds and of `int(50 * sec)` are not captured; the ranges stated are
  those of the millisecond model.
- **Labels.** Labels are modelled by their kind. The numbers formatted into
  them with `String(sec, 1)`, and the top line of the display built from
  the fields, are not.
- **Drawing.** The OLED, `Display::init`, `showSplash` and the drawing calls
  of `tick` are not modelled.
- **Logging.** Every `Logger` call and `logTxCountdown` are left out. So is
  the loop that builds the uplink payload text for the log
  (`src/main.cpp:194-200`), since only the log reads it.
- **Other events.** `onEvent`'s other events only log; they are one
  `OtherEvent` that changes nothing.
- **Environment.** FreeRTOS tasks, the two cores and the unsynchronised
  sharing of globals are not modelled: each routine is a sequential call.
  `setup`, `loop`, the buttons, LMIC's channel setup and the static
  configuration are left out too.
- Controller.Received: the spreading factor in the summary is the one of
  the live data rate, as in the source. It is not claimed to be the factor
  of the acknowledged uplink, which the selection may have changed during
  RX1 or RX2.
- Controller.Tester.ShowDownlink: the contract states the summary text.
  That the text reads back as the downlink is the separate lemma
  `Downlink.ParseSummaryOfSummary`, not part of the method's contract.
