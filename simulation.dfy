/**
 Random rounds of the Prisoner's Dilemma.

 Each round, the program draws a move for player 1 and then one for
 player 2 from {cooperate, defect}, and appends the payoff of the pair to
 a list. The random source is injected here: `choice(k)` is the move the
 k-th draw returns, so round i draws `choice(2 * i)` for player 1 and
 `choice(2 * i + 1)` for player 2.
 */
module Simulation {
  import opened PayoffTable

  /** The number of rounds `SimulateRounds` plays when the caller gives none. */
  const DefaultRounds: int := 100

  /** How many times a loop over Python's `range(n)` runs: n, or none when n is not positive. */
  function RangeLength(n: int): nat
  {
    if n <= 0 then 0 else n
  }

  /** The payoff of round i (counting from 0): player 1 draws `choice(2 * i)`, then player 2 draws `choice(2 * i + 1)`. */
  function RoundPayoff(choice: nat -> Move, i: nat): Scores
  {
    Payoff(choice(2 * i), choice(2 * i + 1))
  }

  /** The results list after n rounds: the first n - 1 rounds' list with round n - 1 appended. */
  function Simulated(choice: nat -> Move, n: nat): (r: seq<Scores>)
    ensures |r| == n
  {
    if n == 0 then [] else Simulated(choice, n - 1) + [RoundPayoff(choice, n - 1)]
  }

  /** Entry i of the results is the payoff of the moves drawn in round i. */
  lemma {:induction false} SimulatedAt(choice: nat -> Move, n: nat, i: nat)
    requires i < n
    ensures Simulated(choice, n)[i] == Payoff(choice(2 * i), choice(2 * i + 1))
  {
    if i < n - 1 {
      SimulatedAt(choice, n - 1, i);
    }
  }

  /** Later rounds only append: the list after m rounds is a prefix of the list after n >= m rounds. */
  lemma {:induction false} SimulatedPrefix(choice: nat -> Move, m: nat, n: nat)
    requires m <= n
    ensures Simulated(choice, m) == Simulated(choice, n)[..m]
  {
    if m < n {
      SimulatedPrefix(choice, m, n - 1);
      assert Simulated(choice, n)[..n - 1] == Simulated(choice, n - 1);
    }
  }

  /** Every entry of the results is one of the four entries of the matrix. */
  lemma {:induction false} SimulatedInMatrix(choice: nat -> Move, n: nat)
    ensures forall s | s in Simulated(choice, n) :: s in Outcomes.Values
  {
    if n > 0 {
      SimulatedInMatrix(choice, n - 1);
    }
  }

  /**
   Plays `numRounds` rounds with player moves drawn from `choice`, and
   returns the list of the rounds' payoffs in round order.
   */
  method SimulateRounds(choice: nat -> Move, numRounds: int := DefaultRounds) returns (results: seq<Scores>)
    ensures numRounds <= 0 ==> results == []
    ensures numRounds >= 0 ==> |results| == numRounds
    ensures results == Simulated(choice, RangeLength(numRounds))
    ensures forall i | 0 <= i < |results| :: results[i] == Payoff(choice(2 * i), choice(2 * i + 1))
    ensures forall s | s in results :: s in Outcomes.Values
  {
    results := [];
    for k := 0 to RangeLength(numRounds)
      invariant results == Simulated(choice, k)
    {
      var p1 := choice(2 * k);
      var p2 := choice(2 * k + 1);
      results := results + [Payoff(p1, p2)];
    }
    forall i | 0 <= i < |results|
      ensures results[i] == Payoff(choice(2 * i), choice(2 * i + 1))
    {
      SimulatedAt(choice, |results|, i);
    }
    SimulatedInMatrix(choice, |results|);
  }
}
