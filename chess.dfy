/**
 * The values the chess front end exchanges with its rules engine: sides,
 * piece kinds, squares, candidate moves, the 8x8 grid of the board and the
 * engine-reported game state, plus the Option/Result wrappers the Rust code
 * relies on.
 */
module Chess {

  datatype Option<+T> = None | Some(value: T)

  datatype Result<+T, +E> = Ok(value: T) | Err(error: E)

  /**
   * The index of the first element of `s` that satisfies `p`, scanning from
   * the front as Rust's `iter().find` and a `for` loop with an early
   * `return` do; None when no element does.
   */
  function FirstIndex<T>(s: seq<T>, p: T -> bool): (r: Option<nat>)
    ensures r.Some? ==> r.value < |s| && p(s[r.value])
    ensures r.Some? ==> forall j :: 0 <= j < r.value ==> !p(s[j])
    ensures r.None? <==> forall j :: 0 <= j < |s| ==> !p(s[j])
  {
    if |s| == 0 then None
    else if p(s[0]) then Some(0)
    else match FirstIndex(s[1..], p)
      case None => None
      case Some(i) => Some(i + 1)
  }

  /** The two sides. */
  datatype Team = Black | White

  /** The six piece kinds. */
  datatype Rank = King | Queen | Rook | Pawn | Bishop | Knight

  datatype Piece = Piece(team: Team, rank: Rank)

  /** A board coordinate (column, row) as the engine reports it in a move. */
  type Coord = (int, int)

  /**
   * A candidate move issued by the engine. Only its destination is read by
   * the front end; `meta` stands for whatever else the engine keeps in an
   * action (promotion choice, captured piece, ...), so two distinct actions
   * may share a destination.
   */
  datatype Action = Action(from: Coord, to: Coord, meta: nat)

  /** The engine-reported state of the game. */
  datatype Gamestate = InProgress | Check | Checkmate | Stalemate | Draw

  /** An 8x8 board indexed `grid[column][row]`, each cell holding at most one piece. */
  type Grid = g: seq<seq<Option<Piece>>> | IsGrid(g) witness EmptyGrid()

  predicate IsGrid(g: seq<seq<Option<Piece>>>) {
    |g| == 8 && forall x :: 0 <= x < 8 ==> |g[x]| == 8
  }

  function EmptyGrid(): (g: seq<seq<Option<Piece>>>)
    ensures IsGrid(g)
  {
    seq(8, _ => seq(8, _ => None))
  }
}
