/**
 * The rock-paper-scissors referee of the match server (`determine_result`).
 * Moves are whatever strings the clients send; only "Rock", "Paper" and
 * "Scissors" appear in the rule table.
 */
module Referee {
  import opened Options

  /** The three messages a player can be told. */
  datatype Verdict = Win | Lose | Draw

  /** The text sent to the player. */
  function Text(v: Verdict): string {
    match v
    case Win => "You Win!"
    case Lose => "You Lose!"
    case Draw => "Draw!"
  }

  function Opposite(v: Verdict): Verdict {
    match v
    case Win => Lose
    case Lose => Win
    case Draw => Draw
  }

  predicate Legal(move: string) {
    move == "Rock" || move == "Paper" || move == "Scissors"
  }

  /** The rule table: the move that `move` beats, if `move` is in the table (`rules.get(move)`). */
  function Beats(move: string): (r: Option<string>)
    ensures r.Some? <==> Legal(move)
    ensures r.Some? ==> Legal(r.value) && r.value != move
  {
    if move == "Rock" then Some("Scissors")
    else if move == "Paper" then Some("Rock")
    else if move == "Scissors" then Some("Paper")
    else None
  }

  /** The verdicts for the first and for the second player. */
  function DetermineResult(move1: string, move2: string): (r: (Verdict, Verdict))
    ensures r.1 == Opposite(r.0)
    ensures r.0 == Draw <==> move1 == move2
    ensures move1 != move2 ==> (r.0 == Win <==> Beats(move1) == Some(move2))
    ensures move1 != move2 && !Legal(move1) ==> r == (Lose, Win)
  {
    if move1 == move2 then (Draw, Draw)
    else if Beats(move1) == Some(move2) then (Win, Lose)
    else (Lose, Win)
  }

  /** Rock beats Scissors, Paper beats Rock, Scissors beats Paper, from either seat. */
  lemma WinningPairs()
    ensures DetermineResult("Rock", "Scissors") == (Win, Lose)
    ensures DetermineResult("Paper", "Rock") == (Win, Lose)
    ensures DetermineResult("Scissors", "Paper") == (Win, Lose)
    ensures DetermineResult("Scissors", "Rock") == (Lose, Win)
    ensures DetermineResult("Rock", "Paper") == (Lose, Win)
    ensures DetermineResult("Paper", "Scissors") == (Lose, Win)
  {
  }

  /** Between two different legal moves, exactly one beats the other. */
  lemma ExactlyOneBeats(a: string, b: string)
    requires Legal(a) && Legal(b) && a != b
    ensures (Beats(a) == Some(b)) != (Beats(b) == Some(a))
  {
  }

  /** For two different legal moves, swapping the seats swaps the verdicts. */
  lemma SwapSeats(move1: string, move2: string)
    requires Legal(move1) && Legal(move2) && move1 != move2
    ensures DetermineResult(move2, move1) == (DetermineResult(move1, move2).1, DetermineResult(move1, move2).0)
  {
    ExactlyOneBeats(move1, move2);
  }

  /**
   * A move outside the rule table loses to any other move from the first
   * seat, and a legal move in the first seat loses to it too: off the
   * table the referee is not symmetric.
   */
  lemma UnknownMoveLoses(unknown: string, other: string)
    requires !Legal(unknown) && unknown != other
    ensures DetermineResult(unknown, other) == (Lose, Win)
    ensures Legal(other) ==> DetermineResult(other, unknown) == (Lose, Win)
  {
  }

  /** The three texts are different, so a player can tell the verdicts apart. */
  lemma TextDistinguishes(a: Verdict, b: Verdict)
    ensures Text(a) == Text(b) <==> a == b
  {
  }
}
