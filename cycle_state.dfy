/**
 * The cycle state shared by the controller and the status display
 * (the `State` enumeration of include/display.h).
 */
module CycleState {
  datatype State = Waiting | Tx | Rx1 | Rx2 | RxDone | Nop

  /**
   * The state the display is put in when the controller enters `s`:
   * every state is shown as itself, except that finishing the receive
   * windows stops the display, which then shows `Nop`.
   */
  function Shown(s: State): State
  {
    if s == RxDone then Nop else s
  }
}
