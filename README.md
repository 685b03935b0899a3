# Prisoner's Dilemma payoffs and random rounds, in Dafny

This project models the scoring core of a small Prisoner's Dilemma simulator
(`simulations/prisoner_dilemma.py`), in two modules:

- `PayoffTable` (`payoff.dfy`) holds the classic payoff matrix. The program
  keeps it as a dictionary from a pair of move names to a pair of scores:
  (cooperate, cooperate) gives (3, 3), (cooperate, defect) gives (0, 5),
  (defect, cooperate) gives (5, 0) and (defect, defect) gives (1, 1). The
  dictionary is the constant `Outcomes`, keyed by raw strings as in the
  program. `PayoffOf` is the program's lookup on strings: a pair outside the
  dictionary yields a `KeyError` value, never a default score. `Payoff` is the
  same lookup on the two-constructor `Move`, and it is total. `IsMoveName` is
  the console's check that a decision is "cooperate" or "defect", and it is
  proved to describe exactly the dictionary's keys. The program labels the
  scores as years in prison (the chart's axis and the console output), so it
  never says whether a higher score is better. The lemmas compare scores only
  as numbers.
- `Simulation` (`simulation.dfy`) holds `SimulateRounds`. It runs a loop
  `numRounds` times, draws two moves each round, and appends their payoff to
  the results list. `numRounds` defaults to 100, as in the program. The random
  draws are injected: `choice(k)` is the move returned by the k-th draw, so
  round i uses `choice(2 * i)` for player 1 and `choice(2 * i + 1)` for
  player 2. The method is proved against the function `Simulated`, which
  builds the list one round at a time. Lemmas show: the entries are in round
  order, later rounds only append, and every entry is one of the four matrix
  entries.

The program's loop uses Python's `range`, so a negative round count gives an
empty list, not an error. `RangeLength` defines how many times such a loop
runs: n for n >= 0, and 0 otherwise.

## Model

| member | source | states |
|---|---|---|
| `PayoffTable.Parse` | simulations/prisoner_dilemma.py:70 | a string reads as a move exactly when it passes the console's validation (`IsMoveName`), and the move read back names that string |
| `PayoffTable.ParseName` | simulations/prisoner_dilemma.py:70 | naming a move and reading the name back gives the same move |
| `PayoffTable.OutcomesDomain` | simulations/prisoner_dilemma.py:9-14 | a pair of strings is a key of the outcomes dictionary exactly when both pass the validation at line 70 |
| `PayoffTable.PayoffOf` | simulations/prisoner_dilemma.py:7-15 | the string lookup succeeds exactly when both names are moves; otherwise it fails with a KeyError for that very pair; on success it gives the typed payoff of the parsed moves |
| `PayoffTable.Payoff` | simulations/prisoner_dilemma.py:9-15 | the lookup of two moves never fails; it yields one of the dictionary's score pairs, and each score is 0, 1, 3 or 5 |
| `PayoffTable.PayoffOfNames` | simulations/prisoner_dilemma.py:7-15 | looking up the names of two moves succeeds with the typed payoff of those moves |
| `PayoffTable.PayoffMatrix` | simulations/prisoner_dilemma.py:9-14 | the four entries are exactly (3,3), (0,5), (5,0) and (1,1) |
| `PayoffTable.PayoffSymmetric` | simulations/prisoner_dilemma.py:10-13 | swapping the two moves swaps the two scores |
| `PayoffTable.PayoffOrdering` | simulations/prisoner_dilemma.py:10-13 | player 1's score is larger for defecting against a cooperator (5) than for mutual cooperation (3), larger for that than for mutual defection (1), and larger for that than for cooperating alone (0): 5 > 3 > 1 > 0 |
| `PayoffTable.DefectScoresHigher` | simulations/prisoner_dilemma.py:10-13 | whatever the opponent plays, each player's score is strictly larger for defecting than for cooperating |
| `Simulation.Simulated` | simulations/prisoner_dilemma.py:46-50 | the results list after n rounds has exactly n entries |
| `Simulation.SimulatedAt` | simulations/prisoner_dilemma.py:47-50 | entry i of the results is the payoff of the two moves drawn in round i |
| `Simulation.SimulatedPrefix` | simulations/prisoner_dilemma.py:46-50 | the list after m rounds is a prefix of the list after any n >= m rounds: earlier entries are never changed |
| `Simulation.SimulatedInMatrix` | simulations/prisoner_dilemma.py:48-50 | every entry of the results is one of the four matrix entries |
| `Simulation.SimulateRounds` | simulations/prisoner_dilemma.py:44-51 | returns an empty list when numRounds <= 0 and exactly numRounds entries otherwise; the list equals `Simulated`; entry i is the payoff of round i's draws, in round order; every entry is a matrix entry. The loop invariant says that after k rounds the list is `Simulated` of k |

## Left out

- `plot_outcomes` (simulations/prisoner_dilemma.py:17-42): chart drawing, directory creation and file saving are I/O. Its score list is chart data.
- The interactive `__main__` loop (simulations/prisoner_dilemma.py:53-78): console input and printing are I/O. It lower-cases the input first, and case folding is not modelled. Only its validation (line 70) is modelled, as `IsMoveName`.
- `random.choice`: replaced by the injected function `choice`. Uniform distribution and seeding are not modelled.
- The model types `numRounds` as `int`. Arguments that `range` rejects with a TypeError, such as a float, are not modelled.
- simulations/supply_demand.py: floating-point curve plotting with file output. It has no discrete logic.
