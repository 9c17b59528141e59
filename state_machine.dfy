/**
 * The polling state machine of the tester (`updateStateAndDisplay` in
 * src/main.cpp): the cycle state is re-derived on every poll from LMIC's
 * `txend`, `rxtime` and OP_TXRXPEND. Five guarded rules run in a fixed
 * order, and one poll may take several of them.
 */
module StateMachine {
  import opened Wrappers
  import opened CycleState
  import opened Lmic

  /** The controller's own state: the cycle state and the two receive targets it has recorded. */
  datatype Cycle = Cycle(state: State, rx1time: int, rx2time: int)

  /**
   * The effect of a poll so far: the cycle, the states entered in order,
   * and the target of the last progress window started.
   */
  datatype Poll = Poll(cycle: Cycle, entered: seq<State>, window: Option<int>)

  /** The transitions the rules can take. */
  predicate Edge(a: State, b: State)
  {
    || (a == RxDone && b == Waiting)
    || ((a == Nop || a == Waiting) && b == Tx)
    || (a == Tx && b == Rx1)
    || (a == Rx1 && b == Rx2)
    || ((a == Rx1 || a == Rx2) && b == RxDone)
  }

  /** The position of a state in the cycle Nop/Waiting, Tx, Rx1, Rx2, RxDone. */
  function Rank(s: State): nat
  {
    match s
    case Nop => 0
    case Waiting => 0
    case Tx => 1
    case Rx1 => 2
    case Rx2 => 3
    case RxDone => 4
  }

  function Enter(p: Poll, c: Cycle, window: Option<int>): Poll
  {
    Poll(c, p.entered + [c.state], if window.Some? then window else p.window)
  }

  /**
   * `q` takes one transition of the cycle from `p` into `s`: it enters `s`
   * and keeps the receive target it does not record.
   */
  ghost predicate Steps(p: Poll, q: Poll, s: State)
  {
    && Edge(p.cycle.state, s)
    && q.cycle.state == s
    && q.entered == p.entered + [s]
    && (s != Rx1 ==> q.cycle.rx1time == p.cycle.rx1time)
    && (s != Rx2 ==> q.cycle.rx2time == p.cycle.rx2time)
  }

  /** A finished cycle waits for the next TX once LMIC has set a TX end in the future. */
  function WaitForTx(p: Poll, now: int, m: MacState): (q: Poll)
    ensures q != p <==> p.cycle.state == RxDone && m.txend - now > 0
    ensures q == p || Steps(p, q, Waiting)
    ensures q != p ==> q.window == Some(m.txend) && m.txend - now > 0
  {
    if p.cycle.state == RxDone && m.txend - now > 0 then
      Enter(p, p.cycle.(state := Waiting), Some(m.txend))
    else p
  }

  /** Once the TX end has passed, the transmission is under way (also the very first one). */
  function StartTx(p: Poll, now: int, m: MacState): (q: Poll)
    ensures q != p <==> (p.cycle.state == Nop || p.cycle.state == Waiting) && now - m.txend > 0
    ensures q == p || (Steps(p, q, Tx) && q.window == p.window && now - m.txend > 0)
  {
    if (p.cycle.state == Nop || p.cycle.state == Waiting) && now - m.txend > 0 then
      Enter(p, p.cycle.(state := Tx), None)
    else p
  }

  /** Once LMIC has set a receive time in the future, the TX is done and RX1 is awaited. */
  function AwaitRx1(p: Poll, now: int, m: MacState): (q: Poll)
    ensures q != p <==> p.cycle.state == Tx && m.rxtime - now > 0
    ensures q == p || Steps(p, q, Rx1)
    ensures q != p ==> q.cycle.rx1time == m.rxtime && q.window == Some(m.rxtime) && m.rxtime - now > 0
  {
    if p.cycle.state == Tx && m.rxtime - now > 0 then
      Enter(p, p.cycle.(state := Rx1, rx1time := m.rxtime), Some(m.rxtime))
    else p
  }

  /** Once LMIC has moved the receive time past RX1's, RX1 is over and RX2 is awaited. */
  function AwaitRx2(p: Poll, m: MacState): (q: Poll)
    ensures q != p <==> p.cycle.state == Rx1 && m.rxtime - p.cycle.rx1time > 0
    ensures q == p || Steps(p, q, Rx2)
    ensures q != p ==> q.cycle.rx2time == m.rxtime && q.window == Some(m.rxtime) && m.rxtime - p.cycle.rx1time > 0
  {
    if p.cycle.state == Rx1 && m.rxtime - p.cycle.rx1time > 0 then
      Enter(p, p.cycle.(state := Rx2, rx2time := m.rxtime), Some(m.rxtime))
    else p
  }

  /** Once OP_TXRXPEND is clear, the receive windows are done (RX2 is skipped after a downlink in RX1). */
  function FinishRx(p: Poll, m: MacState): (q: Poll)
    ensures q != p <==> (p.cycle.state == Rx1 || p.cycle.state == Rx2) && !m.txrxPending
    ensures q == p || (Steps(p, q, RxDone) && q.window == p.window && !m.txrxPending)
  {
    if (p.cycle.state == Rx1 || p.cycle.state == Rx2) && !m.txrxPending then
      Enter(p, p.cycle.(state := RxDone), None)
    else p
  }

  /** The paths of states one poll can enter, by the state it starts in. */
  predicate IsPath(s: State, path: seq<State>)
  {
    || path == []
    || (s == RxDone && path == [Waiting])
    || ((s == Nop || s == Waiting) && (path == [Tx] || path == [Tx, Rx1] || path == [Tx, Rx1, RxDone]))
    || (s == Tx && (path == [Rx1] || path == [Rx1, RxDone]))
    || (s == Rx1 && (path == [Rx2] || path == [Rx2, RxDone] || path == [RxDone]))
    || (s == Rx2 && path == [RxDone])
  }

  /** Whether a rule applies to a cycle in state `c.state` at tick `now`. */
  predicate Due(c: Cycle, now: int, m: MacState)
  {
    match c.state
    case RxDone => m.txend - now > 0
    case Nop => now - m.txend > 0
    case Waiting => now - m.txend > 0
    case Tx => m.rxtime - now > 0
    case Rx1 => m.rxtime - c.rx1time > 0 || !m.txrxPending
    case Rx2 => !m.txrxPending
  }

  /**
   * One poll at tick `now`: the five rules in their order. The states it
   * enters are one of the paths above: it only moves forward along
   * Nop/Waiting, Tx, Rx1, Rx2, RxDone, or takes the wrap from RxDone to
   * Waiting and nothing else.
   */
  function Advance(c: Cycle, now: int, m: MacState): (p: Poll)
    ensures IsPath(c.state, p.entered)
    // nothing entered: nothing changed; otherwise the last state entered is the new state
    ensures p.entered == [] ==> p.cycle == c && p.window == None
    ensures p.entered != [] ==> p.entered[|p.entered| - 1] == p.cycle.state
  {
    var p0 := Poll(c, [], None);
    var p1 := WaitForTx(p0, now, m);
    var p2 := StartTx(p1, now, m);
    var p3 := AwaitRx1(p2, now, m);
    var p4 := AwaitRx2(p3, m);
    var p5 := FinishRx(p4, m);
    p5
  }

  /** A poll moves exactly when a rule applies to the state it starts in. */
  lemma AdvanceMovesWhenDue(c: Cycle, now: int, m: MacState)
    ensures Advance(c, now, m).entered != [] <==> Due(c, now, m)
  {
    match c.state
    case RxDone =>
    case Nop =>
    case Waiting =>
    case Tx =>
    case Rx1 =>
    case Rx2 =>
  }

  /**
   * A finished cycle whose next TX end lies ahead: the poll wraps to
   * Waiting, with a progress window up to that TX end, and goes no further.
   */
  lemma AdvanceWraps(c: Cycle, now: int, m: MacState)
    requires c.state == RxDone && m.txend - now > 0
    ensures var p := Advance(c, now, m);
      p.entered == [Waiting] && p.cycle.state == Waiting && p.window == Some(m.txend)
  {
  }

  /**
   * A poll that comes late catches up: from an idle cycle whose TX end has
   * passed, with a receive time ahead and OP_TXRXPEND already clear, one
   * poll enters Tx, RX1 and RxDone in that order.
   */
  lemma AdvanceCatchesUp(c: Cycle, now: int, m: MacState)
    requires (c.state == Nop || c.state == Waiting) && now - m.txend > 0
    requires m.rxtime - now > 0 && !m.txrxPending
    ensures var p := Advance(c, now, m);
      p.entered == [Tx, Rx1, RxDone] && p.cycle.state == RxDone && p.cycle.rx1time == m.rxtime
      && p.window == Some(m.rxtime)
  {
  }

  /**
   * What a poll records: RxDone is entered only when OP_TXRXPEND is clear,
   * and entering RX1 records `rxtime` as the RX1 target.
   */
  lemma AdvanceRecords(c: Cycle, now: int, m: MacState)
    ensures var p := Advance(c, now, m);
      && (RxDone in p.entered ==> !m.txrxPending)
      && (Rx1 in p.entered ==> p.cycle.rx1time == m.rxtime)
      && (Rx1 !in p.entered ==> p.cycle.rx1time == c.rx1time)
  {
    match c.state
    case RxDone =>
    case Nop =>
    case Waiting =>
    case Tx =>
    case Rx1 =>
    case Rx2 =>
  }

  /**
   * RX2 is entered only when `rxtime` has moved past the recorded RX1
   * target, and entering it records `rxtime` as the RX2 target.
   */
  lemma AdvanceRecordsRx2(c: Cycle, now: int, m: MacState)
    ensures var p := Advance(c, now, m);
      && (Rx2 in p.entered ==> m.rxtime - c.rx1time > 0 && p.cycle.rx2time == m.rxtime)
      && (Rx2 !in p.entered ==> p.cycle.rx2time == c.rx2time)
  {
    match c.state
    case RxDone =>
    case Nop =>
    case Waiting =>
    case Tx =>
    case Rx1 =>
    case Rx2 =>
  }

  /**
   * The progress window a poll leaves is the one of the last waiting state
   * it entered: up to `txend` when it entered Waiting, up to `rxtime` when
   * it entered RX1 or RX2, none otherwise.
   */
  lemma AdvanceWindow(c: Cycle, now: int, m: MacState)
    ensures var p := Advance(c, now, m);
      p.window == (if Waiting in p.entered then Some(m.txend)
                   else if Rx1 in p.entered || Rx2 in p.entered then Some(m.rxtime)
                   else None)
  {
    match c.state
    case RxDone =>
    case Nop =>
    case Waiting =>
    case Tx =>
    case Rx1 =>
    case Rx2 =>
  }

  /**
   * A second poll at the same instant can only take the wrap from RxDone to
   * Waiting: a poll stops in Tx, Rx1 or Rx2 only when the rule out of that
   * state is false, and it is still false the second time.
   */
  lemma SecondPoll(c: Cycle, now: int, m: MacState)
    ensures var c1 := Advance(c, now, m).cycle;
      var p2 := Advance(c1, now, m);
      p2.entered == [] || (c1.state == RxDone && p2.entered == [Waiting])
  {
    var p1 := Advance(c, now, m);
    var c1 := p1.cycle;
    if c1.state == Rx1 && p1.entered != [] {
      assert c1.rx1time == m.rxtime;
    }
  }

  /**
   * Polling at the same instant settles after two polls. (One poll does not
   * always settle: a poll that ends in RxDone may be followed by the wrap
   * to Waiting.)
   */
  lemma PollingSettles(c: Cycle, now: int, m: MacState)
    ensures var c2 := Advance(Advance(c, now, m).cycle, now, m).cycle;
      Advance(c2, now, m).cycle == c2
  {
    var c1 := Advance(c, now, m).cycle;
    SecondPoll(c, now, m);
    SecondPoll(c1, now, m);
  }

  /**
   * `path`, entered from `s`, follows the cycle: every step is a transition,
   * after the first step the rank strictly grows (so the wrap RxDone ->
   * Waiting can only be the first step), and after the wrap nothing follows.
   */
  predicate FollowsCycle(s: State, path: seq<State>)
  {
    && (forall i :: 0 <= i < |path| ==> Edge(if i == 0 then s else path[i - 1], path[i]))
    && (forall i :: 0 < i < |path| ==> Rank(path[i - 1]) < Rank(path[i]))
    && (s == RxDone ==> path == [] || path == [Waiting])
  }

  lemma PathFollowsCycle(s: State, path: seq<State>)
    requires IsPath(s, path)
    ensures FollowsCycle(s, path)
    ensures Rx2 in path ==> s == Rx1 && Rx1 !in path
  {
    assert |path| <= 3;
    if |path| >= 1 { assert Edge(s, path[0]); }
    if |path| >= 2 { assert Edge(path[0], path[1]) && Rank(path[0]) < Rank(path[1]); }
    if |path| == 3 { assert Edge(path[1], path[2]) && Rank(path[1]) < Rank(path[2]); }
  }

  /** Every poll follows the cycle. */
  lemma AdvanceFollowsCycle(c: Cycle, now: int, m: MacState)
    ensures FollowsCycle(c.state, Advance(c, now, m).entered)
  {
    PathFollowsCycle(c.state, Advance(c, now, m).entered);
  }

  /**
   * RX2 is entered only from RX1, so entering RX1 rules out RX2 in the same
   * poll; RxDone is entered only from RX1 or RX2.
   */
  lemma AdvanceReceiveOrder(c: Cycle, now: int, m: MacState)
    ensures var p := Advance(c, now, m);
      && (Rx2 in p.entered ==> c.state == Rx1 && Rx1 !in p.entered)
      && (forall i :: 0 <= i < |p.entered| && p.entered[i] == RxDone ==>
            (if i == 0 then c.state else p.entered[i - 1]) in {Rx1, Rx2})
  {
    var p := Advance(c, now, m);
    PathFollowsCycle(c.state, p.entered);
    forall i | 0 <= i < |p.entered| && p.entered[i] == RxDone
      ensures (if i == 0 then c.state else p.entered[i - 1]) in {Rx1, Rx2}
    {
      assert Edge(if i == 0 then c.state else p.entered[i - 1], p.entered[i]);
    }
  }
}
