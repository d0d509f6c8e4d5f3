/**
 * The rules engine as the front end sees it. The engine's own code is not
 * part of this model, so its behaviour is a parameter: a `Rules` value holds
 * the starting position and one total function per engine operation, and a
 * `Game` object holds the current position and applies those functions.
 * A ghost log records every state-changing call, so that the front end's
 * contracts can say which moves were applied and how often a round was
 * started.
 */
module Engine {
  import opened Chess

  /**
   * Everything the engine keeps between calls: the board, the side to move,
   * and `internal`, an encoding of any further bookkeeping the engine does
   * (move counters, castling rights, ...) that the front end never reads.
   */
  datatype Position = Position(grid: Grid, player: Team, internal: nat)

  /** The engine's operations, left uninterpreted. */
  datatype Rules = Rules(
    initial: Position,
    movesFrom: (Position, Coord) -> Result<seq<Action>, string>,
    apply: (Position, Action) -> Position,
    advance: Position -> Position,
    status: Position -> Gamestate)

  /** One state-changing call made on a game. */
  datatype Call = Moved(action: Action) | RoundStarted

  class Game {
    const rules: Rules
    var pos: Position
    ghost var calls: seq<Call>

    /** A fresh game in the engine's starting position; nothing called on it yet. */
    constructor (rules: Rules)
      ensures this.rules == rules && pos == rules.initial && calls == []
    {
      this.rules := rules;
      pos := rules.initial;
      calls := [];
    }

    /** The moves the engine offers for the piece on `c`, or the engine's reason for refusing. */
    method GenMovesFromCoordinate(c: Coord) returns (r: Result<seq<Action>, string>)
      ensures r == rules.movesFrom(pos, c)
    {
      r := rules.movesFrom(pos, c);
    }

    /** Applies `a` to the position and logs the call. */
    method MakeMove(a: Action)
      modifies this
      ensures pos == rules.apply(old(pos), a)
      ensures calls == old(calls) + [Moved(a)]
    {
      pos := rules.apply(pos, a);
      calls := calls + [Moved(a)];
    }

    /** Lets the engine advance to the next round and logs the call. */
    method StartRound()
      modifies this
      ensures pos == rules.advance(old(pos))
      ensures calls == old(calls) + [RoundStarted]
    {
      pos := rules.advance(pos);
      calls := calls + [RoundStarted];
    }

    /** The engine's verdict on the current position; asking changes nothing. */
    function Gamestate(): (s: Gamestate)
      reads this
      ensures s == rules.status(pos)
    {
      rules.status(pos)
    }
  }
}
