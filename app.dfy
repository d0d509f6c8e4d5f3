/**
 * The application object of the chess front end: the sprite catalogue, the
 * engine's game and the selection state `possibleMoves`, which is None while
 * no piece is selected and Some(moves) while the moves of a selected piece
 * wait for a destination click. Mouse and key events drive it; each frame
 * is drawn from it.
 */
module App {
  import opened Chess
  import opened Engine
  import Sprites
  import Layout
  import Render

  datatype MouseButton = Left | Right | Middle | OtherButton(code: nat)

  datatype KeyCode = R | OtherKey(code: nat)

  /**
   * The board square under pixel (x, y): the pixel lies in that square's
   * cell, and a pixel inside the window gives a square on the board.
   */
  function Square(x: nat, y: nat): (sq: Coord)
    ensures 0 <= sq.0 && Layout.CellOrigin(sq.0) <= x < Layout.CellOrigin(sq.0) + Layout.CELL_SIZE
    ensures 0 <= sq.1 && Layout.CellOrigin(sq.1) <= y < Layout.CellOrigin(sq.1) + Layout.CELL_SIZE
    ensures x < Layout.SCREEN_SIZE && y < Layout.SCREEN_SIZE ==> sq.0 < 8 && sq.1 < 8
  {
    (Layout.ToCell(x), Layout.ToCell(y))
  }

  /** The index of the first move in `moves` whose destination is `target`, if any. */
  function FirstMatch(moves: seq<Action>, target: Coord): (r: Option<nat>)
    ensures r.Some? ==> r.value < |moves| && moves[r.value].to == target
    ensures r.Some? ==> forall j :: 0 <= j < r.value ==> moves[j].to != target
    ensures r.None? <==> forall j :: 0 <= j < |moves| ==> moves[j].to != target
  {
    FirstIndex(moves, (a: Action) => a.to == target)
  }

  /** The selection an engine answer leads to: the moves as returned, or none on an error. */
  function Selection(answer: Result<seq<Action>, string>): (sel: Option<seq<Action>>)
    ensures sel.Some? <==> answer.Ok?
    ensures answer.Ok? ==> sel.value == answer.value
  {
    match answer
    case Ok(moves) => Some(moves)
    case Err(_) => None
  }

  class AppState {
    const rules: Rules
    var sprites: seq<Sprites.Entry>
    var game: Game
    var possibleMoves: Option<seq<Action>>

    ghost predicate Valid()
      reads this, game
    {
      && game.rules == rules && Sprites.Total(sprites)
      && forall key: Sprites.Key :: Sprites.Lookup(sprites, key) == Sprites.PathFor(key)
    }

    /**
     * Start-up: load the catalogue, create a game, make Black the side to
     * move, start the first round; nothing is selected.
     */
    constructor (rules: Rules)
      ensures Valid() && this.rules == rules && fresh(game)
      ensures possibleMoves == None
      ensures game.pos == rules.advance(rules.initial.(player := Black))
      ensures game.calls == [RoundStarted]
    {
      var table := Sprites.LoadSprites();
      Sprites.LoadedLookup(table);
      var g := new Game(rules);
      g.pos := g.pos.(player := Black);
      g.StartRound();
      this.rules := rules;
      sprites := table;
      game := g;
      possibleMoves := None;
    }

    /**
     * A released mouse button. Only the left button acts. With nothing
     * selected, the engine is asked for the moves from the clicked square
     * and its answer becomes the selection (possibly an empty list; an
     * error selects nothing). With a selection, the first offered move that
     * ends on the clicked square is applied and a new round started; either
     * way the selection is dropped.
     */
    method MouseButtonUp(button: MouseButton, x: nat, y: nat)
      requires Valid()
      modifies this, game
      ensures Valid() && game == old(game) && sprites == old(sprites)
      ensures button != Left ==>
        && possibleMoves == old(possibleMoves)
        && game.pos == old(game.pos) && game.calls == old(game.calls)
      ensures button == Left && old(possibleMoves).None? ==>
        && game.pos == old(game.pos) && game.calls == old(game.calls)
        && possibleMoves == Selection(rules.movesFrom(old(game.pos), Square(x, y)))
      ensures button == Left && old(possibleMoves).Some? ==>
        && possibleMoves == None
        && var moves := old(possibleMoves).value;
           match FirstMatch(moves, Square(x, y))
           case Some(k) =>
             && game.calls == old(game.calls) + [Moved(moves[k]), RoundStarted]
             && game.pos == rules.advance(rules.apply(old(game.pos), moves[k]))
           case None =>
             game.pos == old(game.pos) && game.calls == old(game.calls)
    {
      if button == Left {
        var square := Square(x, y);
        if possibleMoves.Some? {
          var moves := possibleMoves.value;
          var i := 0;
          while i < |moves|
            invariant 0 <= i <= |moves|
            invariant forall j :: 0 <= j < i ==> moves[j].to != square
            invariant possibleMoves == old(possibleMoves)
            invariant game.pos == old(game.pos) && game.calls == old(game.calls)
          {
            if moves[i].to == square {
              game.MakeMove(moves[i]);
              possibleMoves := None;
              game.StartRound();
              return;
            }
            i := i + 1;
          }
          possibleMoves := None;
        } else {
          var answer := game.GenMovesFromCoordinate(square);
          match answer {
            case Ok(moves) =>
              possibleMoves := Some(moves);
            case Err(_) =>
              possibleMoves := None;
              return;
          }
        }
      }
    }

    /**
     * A pressed key. R starts a fresh game (without the start-up choice of
     * Black to move), drops the selection and starts the first round; every
     * other key is ignored.
     */
    method KeyDown(key: KeyCode)
      requires Valid()
      modifies this
      ensures Valid() && sprites == old(sprites)
      ensures key != R ==> game == old(game) && possibleMoves == old(possibleMoves)
      ensures key == R ==>
        && fresh(game) && possibleMoves == None
        && game.pos == rules.advance(rules.initial)
        && game.calls == [RoundStarted]
    {
      match key {
        case R =>
          game := new Game(rules);
          possibleMoves := None;
          game.StartRound();
        case OtherKey(_) =>
      }
    }

    /**
     * The frame drawn for the current state: each sprite shows the piece on
     * its cell of the engine's board with the image file named after it,
     * highlights appear only while a piece is selected, and the status text
     * whenever the engine reports a state other than InProgress (Check
     * included).
     */
    function Draw(): (r: seq<Render.Command>)
      requires Valid()
      reads this, game
      ensures forall c :: c in r && c.Sprite? ==>
        && 0 <= c.col < 8 && 0 <= c.row < 8
        && game.pos.grid[c.col][c.row] == Some(c.piece)
        && c.image == Sprites.PathFor((c.piece.team, c.piece.rank))
      ensures possibleMoves.None? ==> forall c :: c in r ==> !c.Highlight?
      ensures Render.StatusText(game.Gamestate()) in r <==> game.Gamestate() != InProgress
    {
      Render.TotalCanDraw(game.pos.grid, sprites);
      Render.FrameStatus(game.pos.grid, possibleMoves, game.Gamestate(), sprites);
      Render.Frame(game.pos.grid, possibleMoves, game.Gamestate(), sprites)
    }
  }
}
