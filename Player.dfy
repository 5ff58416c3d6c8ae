/** The two marks of the game (src/model/Player.java). */
module Players {

  /** X moves first, O second. */
  datatype Player = X | O

  /** The display symbol of a mark. */
  function Symbol(p: Player): (r: string)
    ensures |r| == 1
    ensures r == "X" <==> p == X
    ensures r == "O" <==> p == O
  {
    match p
    case X => "X"
    case O => "O"
  }

  /** The other player. */
  function Opponent(p: Player): (r: Player)
    ensures r != p
  {
    if p == X then O else X
  }

  /** `Opponent` swaps the two players: X goes to O and O goes to X. */
  lemma OpponentSwaps()
    ensures Opponent(X) == O && Opponent(O) == X
  {
  }

  /** Taking the opponent twice gives back the player. */
  lemma OpponentInvolution(p: Player)
    ensures Opponent(Opponent(p)) == p
  {
  }

  /** There are no players other than X and O. */
  lemma ExactlyTwoPlayers(p: Player)
    ensures p == X || p == O
  {
  }

  /** Distinct players have distinct symbols. */
  lemma SymbolInjective(p: Player, q: Player)
    ensures Symbol(p) == Symbol(q) <==> p == q
  {
  }
}
