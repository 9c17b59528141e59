/**
 * The data-rate selector of the tester (`nextDataRate` in src/main.cpp):
 * in automatic mode an index cycles over a fixed table of eleven EU868 data
 * rates, in fixed mode it cycles over the six rates SF7 down to SF12.
 */
module DataRate {
  import opened Lmic

  /**
   * The automatic cycle; SF7 comes back between the slower rates to keep the
   * waits for the duty cycle short.
   */
  const DataRates: seq<nat> :=
    [DR_SF7, DR_SF8, DR_SF9, DR_SF7, DR_SF12, DR_SF7, DR_SF7, DR_SF11, DR_SF7, DR_SF10, DR_SF7]

  /** The number of rates of the fixed cycle, DR_SF7 down to DR_SF12. */
  const FixedRates: nat := 6

  /** The length of the cycle of the given mode. */
  function CycleLength(auto: bool): nat
  {
    if auto then |DataRates| else FixedRates
  }

  /** The spreading factor of an EU868 data rate. */
  function SpreadingFactor(dataRate: nat): int
  {
    12 - dataRate
  }

  /** The data rate at position `idx` of the cycle of the given mode. */
  function RateAt(auto: bool, idx: nat): (dr: nat)
    requires idx < CycleLength(auto)
    ensures dr <= DR_SF7 && 7 <= SpreadingFactor(dr) <= 12
  {
    if auto then DataRates[idx] else DR_SF7 - idx
  }

  datatype Selection = Selection(idx: int, dataRate: nat)

  /**
   * The next selection after index `idx`. The index is -1 before the first
   * selection; as `idx + 1` is never negative, C's `%` and Dafny's agree.
   */
  function Next(auto: bool, idx: int): (s: Selection)
    requires -1 <= idx
    ensures 0 <= s.idx < CycleLength(auto) && s.dataRate == RateAt(auto, s.idx)
    ensures idx + 1 < CycleLength(auto) ==> s.idx == idx + 1
    ensures idx + 1 == CycleLength(auto) ==> s.idx == 0
    ensures 7 <= SpreadingFactor(s.dataRate) <= 12
  {
    var i := (idx + 1) % CycleLength(auto);
    Selection(i, RateAt(auto, i))
  }

  /** The selection after `k` further steps from index `idx`. */
  function Iterate(auto: bool, idx: int, k: nat): (s: Selection)
    requires -1 <= idx
    ensures k > 0 ==> 0 <= s.idx < CycleLength(auto) && s.dataRate == RateAt(auto, s.idx)
  {
    if k == 0 then Selection(idx, if 0 <= idx < CycleLength(auto) then RateAt(auto, idx) else 0)
    else Next(auto, Iterate(auto, idx, k - 1).idx)
  }

  /** After `k >= 1` steps the index is `idx + k` modulo the cycle length. */
  lemma {:induction false} IterateIndex(auto: bool, idx: int, k: nat)
    requires -1 <= idx && k > 0
    ensures Iterate(auto, idx, k).idx == (idx + k) % CycleLength(auto)
  {
    var n := CycleLength(auto);
    if k > 1 {
      IterateIndex(auto, idx, k - 1);
      var j := (idx + k - 1) % n;
      assert Iterate(auto, idx, k).idx == (j + 1) % n;
      ModSucc(idx + k - 1, auto);
    }
  }

  lemma ModSucc(a: int, auto: bool)
    ensures ((a % CycleLength(auto)) + 1) % CycleLength(auto) == (a + 1) % CycleLength(auto)
  {
    if auto {
      assert ((a % 11) + 1) % 11 == (a + 1) % 11;
    } else {
      assert ((a % 6) + 1) % 6 == (a + 1) % 6;
    }
  }

  /** Both cycles are periodic: a full round brings the selection back to where it was. */
  lemma CycleIsPeriodic(auto: bool, idx: nat)
    requires idx < CycleLength(auto)
    ensures Iterate(auto, idx, CycleLength(auto)) == Selection(idx, RateAt(auto, idx))
  {
    IterateIndex(auto, idx, CycleLength(auto));
    FullRound(idx, auto);
  }

  lemma FullRound(idx: nat, auto: bool)
    requires idx < CycleLength(auto)
    ensures (idx + CycleLength(auto)) % CycleLength(auto) == idx
  {
    if auto {
      assert (idx + 11) % 11 == idx;
    } else {
      assert (idx + 6) % 6 == idx;
    }
  }

  /** The automatic cycle tries every spreading factor from 7 to 12. */
  lemma AutoCycleCoversAllFactors(sf: int)
    requires 7 <= sf <= 12
    ensures exists i :: 0 <= i < |DataRates| && SpreadingFactor(DataRates[i]) == sf
  {
    var i := if sf == 7 then 0 else if sf == 8 then 1 else if sf == 9 then 2
             else if sf == 10 then 9 else if sf == 11 then 7 else 4;
    assert SpreadingFactor(DataRates[i]) == sf;
  }

  /** The fixed cycle goes SF7, SF8, ..., SF12 and then starts again at SF7. */
  lemma FixedCycleAscends(idx: int)
    requires -1 <= idx < FixedRates
    ensures SpreadingFactor(Next(false, idx).dataRate) == 7 + (idx + 1) % FixedRates
  {
  }
}
