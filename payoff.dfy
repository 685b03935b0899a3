/**
 The payoff table of the classic Prisoner's Dilemma.

 The program keeps the table as a dictionary from a pair of move names
 (raw strings) to a pair of scores, and looks a pair up directly, so a
 name outside {"cooperate", "defect"} fails with a KeyError. This module
 keeps that dictionary as `Outcomes`, models the string-level lookup as
 `PayoffOf` (with the KeyError as an error value), and gives the typed,
 total lookup `Payoff` over the two-constructor `Move`.
 */
module PayoffTable {

  /** A player's decision in one round. */
  datatype Move = Cooperate | Defect

  /**
   The pair of scores for one round: (player 1's score, player 2's score).
   The program calls the scores years in prison, so it never says whether a
   higher score is better; the lemmas below compare them only as numbers.
   */
  type Scores = (int, int)

  /** The failure of a dictionary lookup, carrying the key that was missing. */
  datatype Error = KeyError(key: (string, string))

  datatype Result<T> = Ok(value: T) | Err(error: Error)

  datatype Option<T> = None | Some(value: T)

  /** The name the program uses for a move. */
  function Name(m: Move): string
  {
    match m
    case Cooperate => "cooperate"
    case Defect => "defect"
  }

  /** The console's validation of a decision: it must be one of the two move names. */
  predicate IsMoveName(s: string)
  {
    s in ["cooperate", "defect"]
  }

  /** Reads a move name back into a move; anything else is not a move. */
  function Parse(s: string): (r: Option<Move>)
    ensures r.Some? <==> IsMoveName(s)
    ensures r.Some? ==> Name(r.value) == s
  {
    if s == "cooperate" then Some(Cooperate)
    else if s == "defect" then Some(Defect)
    else None
  }

  /** Naming a move and reading the name back gives the move again. */
  lemma ParseName(m: Move)
    ensures Parse(Name(m)) == Some(m)
  {
  }

  /** The outcomes dictionary, keyed by the pair of move names. */
  const Outcomes: map<(string, string), Scores> :=
    map[
      ("cooperate", "cooperate") := (3, 3),
      ("cooperate", "defect") := (0, 5),
      ("defect", "cooperate") := (5, 0),
      ("defect", "defect") := (1, 1)
    ]

  /** The dictionary's keys are exactly the pairs that pass the console's validation. */
  lemma OutcomesDomain(p1: string, p2: string)
    ensures (p1, p2) in Outcomes <==> IsMoveName(p1) && IsMoveName(p2)
  {
  }

  /**
   The lookup as the program performs it, on raw strings: the scores of the
   pair when both names are moves, and a KeyError for the pair otherwise.
   */
  function PayoffOf(p1: string, p2: string): (r: Result<Scores>)
    ensures r.Ok? <==> IsMoveName(p1) && IsMoveName(p2)
    ensures r.Err? ==> r.error == KeyError((p1, p2))
    ensures r.Ok? ==> r.value == Payoff(Parse(p1).value, Parse(p2).value)
  {
    OutcomesDomain(p1, p2);
    if (p1, p2) in Outcomes then Ok(Outcomes[(p1, p2)]) else Err(KeyError((p1, p2)))
  }

  /** The lookup for two moves, which never fails; every score is one of 0, 1, 3 and 5. */
  function Payoff(m1: Move, m2: Move): (r: Scores)
    ensures r in Outcomes.Values
    ensures r.0 in {0, 1, 3, 5} && r.1 in {0, 1, 3, 5}
  {
    OutcomesDomain(Name(m1), Name(m2));
    Outcomes[(Name(m1), Name(m2))]
  }

  /** The string-level lookup of two move names agrees with the typed one. */
  lemma PayoffOfNames(m1: Move, m2: Move)
    ensures PayoffOf(Name(m1), Name(m2)) == Ok(Payoff(m1, m2))
  {
  }

  /** The four entries of the classic matrix. */
  lemma PayoffMatrix()
    ensures Payoff(Cooperate, Cooperate) == (3, 3)
    ensures Payoff(Cooperate, Defect) == (0, 5)
    ensures Payoff(Defect, Cooperate) == (5, 0)
    ensures Payoff(Defect, Defect) == (1, 1)
  {
  }

  /** Swapping the players swaps the scores. */
  lemma PayoffSymmetric(m1: Move, m2: Move)
    ensures Payoff(m2, m1) == (Payoff(m1, m2).1, Payoff(m1, m2).0)
  {
  }

  /**
   Player 1's score is largest for defecting against a cooperator (5), then
   mutual cooperation (3), then mutual defection (1), then cooperating
   alone (0).
   */
  lemma PayoffOrdering()
    ensures Payoff(Defect, Cooperate).0 > Payoff(Cooperate, Cooperate).0
    ensures Payoff(Cooperate, Cooperate).0 > Payoff(Defect, Defect).0
    ensures Payoff(Defect, Defect).0 > Payoff(Cooperate, Defect).0
  {
  }

  /** Whatever the opponent does, each player's score is strictly larger for defecting than for cooperating. */
  lemma DefectScoresHigher(other: Move)
    ensures Payoff(Defect, other).0 > Payoff(Cooperate, other).0
    ensures Payoff(other, Defect).1 > Payoff(other, Cooperate).1
  {
  }
}
