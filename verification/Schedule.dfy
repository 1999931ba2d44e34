/** Publishing by absolute deadline: when each entry of a scenario starts and finishes. */
module Schedule {

  function Max(a: int, b: int): int {
    if a >= b then a else b
  }

  /** The deadline of entry k, relative to the start. */
  type Offsets = seq<int>

  /** The time entry k takes once its deadline has come and the entries before it are out. */
  type Costs = seq<int>

  /** When the first n entries are out: each waits for its deadline, if that is still to come. */
  function FinishOf(start: int, offsets: Offsets, costs: Costs, n: nat): int
    requires n <= |offsets| == |costs|
  {
    if n == 0 then start
    else Max(FinishOf(start, offsets, costs, n - 1), start + offsets[n - 1]) + costs[n - 1]
  }

  /** When waiting for entry n ends. */
  function ReadyAt(start: int, offsets: Offsets, costs: Costs, n: nat): int
    requires n < |offsets| == |costs|
  {
    Max(FinishOf(start, offsets, costs, n), start + offsets[n])
  }

  /** The costs of entries j to n - 1. */
  function CostOf(costs: Costs, j: nat, n: nat): int
    requires j <= n <= |costs|
  {
    if j == n then 0 else CostOf(costs, j, n - 1) + costs[n - 1]
  }

  /** The finish time when nothing waits from entry j on. */
  function BackToBack(start: int, offsets: Offsets, costs: Costs, j: nat, n: nat): int
    requires j < n <= |offsets| == |costs|
  {
    start + offsets[j] + CostOf(costs, j, n)
  }

  /** The finish time is the maximum, over the entries j, of running back to back from j's deadline. */
  lemma {:induction false} FinishIsMaximum(start: int, offsets: Offsets, costs: Costs, n: nat) returns (last: nat)
    requires 0 < n <= |offsets| == |costs| && offsets[0] >= 0
    ensures last < n && FinishOf(start, offsets, costs, n) == BackToBack(start, offsets, costs, last, n)
    ensures forall j :: 0 <= j < n ==> BackToBack(start, offsets, costs, j, n) <= FinishOf(start, offsets, costs, n)
  {
    assert CostOf(costs, n - 1, n) == costs[n - 1] by { assert CostOf(costs, n - 1, n - 1) == 0; }
    if n == 1 {
      assert FinishOf(start, offsets, costs, 0) == start;
      last := 0;
    } else {
      var before := FinishIsMaximum(start, offsets, costs, n - 1);
      last := if FinishOf(start, offsets, costs, n - 1) >= start + offsets[n - 1] then before else n - 1;
      forall j | 0 <= j < n ensures BackToBack(start, offsets, costs, j, n) <= FinishOf(start, offsets, costs, n) {
        if j < n - 1 {
          assert BackToBack(start, offsets, costs, j, n) == BackToBack(start, offsets, costs, j, n - 1) + costs[n - 1];
        }
      }
    }
  }

  function Lateness(start: int, offsets: Offsets, costs: Costs, n: nat): int
    requires n < |offsets| == |costs|
  {
    ReadyAt(start, offsets, costs, n) - (start + offsets[n])
  }

  /** Every gap from entry m to entry n covers the cost of the entry before it. */
  predicate GapsCover(offsets: Offsets, costs: Costs, m: nat, n: nat)
    requires m <= n < |offsets| == |costs|
  {
    forall k :: m <= k < n ==> offsets[k + 1] - offsets[k] >= costs[k]
  }

  /** Lateness does not accumulate: while the gaps cover the costs, every bit of slack reduces it,
      down to nothing; and no entry is ever early. */
  lemma {:induction false} LatenessDisappears(start: int, offsets: Offsets, costs: Costs, m: nat, n: nat)
    requires m <= n < |offsets| == |costs| && GapsCover(offsets, costs, m, n)
    ensures var slack := offsets[n] - offsets[m] - CostOf(costs, m, n);
            slack >= 0 && Lateness(start, offsets, costs, n) == Max(0, Lateness(start, offsets, costs, m) - slack)
    ensures Lateness(start, offsets, costs, m) >= 0
    decreases n - m
  {
    if m < n {
      LatenessDisappears(start, offsets, costs, m, n - 1);
      assert offsets[n - 1 + 1] - offsets[n - 1] >= costs[n - 1];
    }
  }
}
