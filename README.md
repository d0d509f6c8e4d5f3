# Chess GUI front end — a verified model

This project models the interactive core of a small chess front end written
in Rust on top of the ggez game library and the `rustchessian` rules engine:

- the **selection state machine** of the application object: `possible_moves`
  is `None` while no piece is selected and `Some(moves)` while the moves of a
  selected piece wait for a destination click; left mouse clicks and the `R`
  key drive it, and the engine is queried and updated along the way;
- the **board layout** of the draw handler, as a pure function from the board,
  the selection and the engine's game state to the sequence of draw commands
  of one frame (clear, banner box, 64 checkerboard tiles, status text whenever
  the engine reports a state other than `InProgress`, `Check` included, one
  highlight per offered move, one sprite per piece);
- the **sprite catalogue**: the fixed twelve-entry table from (side, piece
  kind) to image file, and the lookup the renderer does for every piece.

Modules, one per component:

- `Chess` (`chess.dfy`): the values exchanged with the engine: `Team`, `Rank`,
  `Piece`, `Action`, `Gamestate`, the 8x8 `Grid`, `Option`, `Result`.
- `Engine` (`engine.dfy`): the rules engine as a collaborator. Its code is not
  part of this model, so its behaviour is a `Rules` value of total functions
  (moves from a square, apply a move, advance a round, report the game state,
  the starting position). A `Game` object holds the position and a ghost log
  of the state-changing calls made on it.
- `Sprites` (`sprites.dfy`): `LoadSprites`, the first-match `Find` used by
  `iter().find`, and the unwrapping `Lookup`. `Find` and the click handler's
  `FirstMatch` are both the one front-to-back search `Chess.FirstIndex`.
- `Layout` (`layout.dfy`): the 67-pixel cell (`(45 * 1.5) as i16`, truncated),
  the 536-pixel window, and pixel-to-cell conversion.
- `Render` (`render.dfy`): draw commands and the frame.
- `App` (`app.dfy`): the `AppState` class with its constructor, the mouse and
  key handlers, and `Draw`, which applies `Render.Frame` to the current state.

Behaviour of the code that one might expect to be otherwise, and that the
model keeps as written:

- An engine answer `Ok([])` to a click with nothing selected is stored as
  `Some([])`: the selection may be an empty list, where one might expect an
  empty answer to leave nothing selected. The next left click then drops it
  without a move.
- Clicks are not checked against the board's bounds. The pixel is divided by
  the cell size whatever it is; only the fixed window keeps clicks on the board.
- Highlights are drawn one per offered move, in list order, duplicates
  included, not once per distinct square.
- The banner's background box is drawn in every frame, before the tiles; only
  the status text depends on the game state.
- The status text is drawn for every state other than `InProgress`, so it
  also shows during a `Check`, in the middle of a game; the highlights and
  the pieces are then drawn on top of it.
- `R` creates a fresh game and starts a round but does not make Black the
  side to move, as start-up does.

## Model

| member | source | states |
|---|---|---|
| `Engine.Game.constructor` | chess-gui/src/main.rs:272 | a fresh game is in the engine's starting position and no move or round has been made on it |
| `Engine.Game.GenMovesFromCoordinate` | chess-gui/src/main.rs:247 | the answer to a move query is the engine's answer for the current position and that square, and the game does not change |
| `Engine.Game.MakeMove` | chess-gui/src/main.rs:234 | the position becomes the engine's result of applying the move, and exactly that move is logged |
| `Engine.Game.StartRound` | chess-gui/src/main.rs:236 | the position becomes the engine's next round, and one round start is logged |
| `Engine.Game.Gamestate` | chess-gui/src/main.rs:151 | the game state the draw handler reads is the engine's verdict on the current position, and reading it changes nothing |
| `Sprites.LoadSprites` | chess-gui/src/main.rs:64-79 | twelve entries, pairwise distinct keys, every (side, kind) key present, each image the file `/<side>_<kind>.png` of its key |
| `Chess.FirstIndex` | chess-gui/src/main.rs:193-196 | the front-to-back search of `iter().find` and of the click loop: the first index whose element satisfies the test, no earlier one does; None exactly when none does |
| `Sprites.Find` | chess-gui/src/main.rs:193-196 | the index of the first entry with the key and no earlier one; None exactly when no entry has the key |
| `Sprites.Lookup` | chess-gui/src/main.rs:193-197 | needs twelve entries and the key among them (the slice and the unwrap); returns the image of the first of the first twelve entries stored under that key |
| `Sprites.LoadedLookup` | chess-gui/src/main.rs:64-79 | the loaded table serves every key, and the lookup of a key gives the file named after that key |
| `Sprites.PathsDistinct` | chess-gui/src/main.rs:66-77 | different (side, kind) keys name different image files |
| `Layout.Dimensions` | chess-gui/src/main.rs:15-23 | cells are 67 pixels and the window 536 pixels on a side |
| `Layout.ToCellOnBoard` | chess-gui/src/main.rs:243-244 | every pixel inside the window maps to a column or row in [0, 8) |
| `Layout.ToCellOfCell` | chess-gui/src/main.rs:227-228 | every pixel of the cell drawn at a column's origin maps back to that column |
| `Layout.ToCell` | chess-gui/src/main.rs:243-244 | the pixel division of the click handler: every pixel lies inside the 67-pixel cell it maps to |
| `Render.TileColor` | chess-gui/src/main.rs:136-145 | the source's nested parity match makes tile i light exactly when column i % 8 plus row i / 8 is even |
| `Render.Tiles` | chess-gui/src/main.rs:126-148 | the tile loop draws exactly 64 tiles |
| `Render.TilesCoverBoard` | chess-gui/src/main.rs:126-145 | each board cell gets exactly one tile, the one at index 8 * row + column, coloured by the checkerboard rule |
| `Render.Highlights` | chess-gui/src/main.rs:164-188 | no highlight without a selection; otherwise one highlight per offered move, in list order, on that move's destination |
| `Render.HighlightsAreDestinations` | chess-gui/src/main.rs:166-178 | the highlighted cells are exactly the destinations of the offered moves |
| `Render.HighlightSources` | chess-gui/src/main.rs:164-178 | every highlight sits on the destination of an offered move, and there are none without a selection |
| `Render.TotalCanDraw` | chess-gui/src/main.rs:190-197 | a catalogue serving every key lets any board be drawn without a failing lookup |
| `Render.SpritesFrom` | chess-gui/src/main.rs:190-215 | one sprite per occupied cell and no other, in strict column-then-row order, each showing the piece on its cell with the image the lookup gives |
| `Render.Frame` | chess-gui/src/main.rs:90-216 | the draw handler's frame: every sprite is on an occupied cell of the board with that cell's piece and its catalogue image; every highlight is on the destination of an offered move, and none appear while nothing is selected |
| `Render.FrameSprites` | chess-gui/src/main.rs:190-215 | every occupied cell of the board is drawn: the frame holds a sprite on it with its piece and the catalogue image for that piece |
| `Render.Status` | chess-gui/src/main.rs:151-162 | the status text is drawn at most once, and exactly when the engine reports a state other than `InProgress` (`Check` included) |
| `Render.FramePrefix` | chess-gui/src/main.rs:92-148 | a frame opens with clear, the banner box and the 64 tiles, in that order |
| `Render.FrameOrdered` | chess-gui/src/main.rs:90-216 | the frame's commands go clear, box, tiles, status text, highlights, sprites, never an earlier layer after a later one |
| `Render.FrameStatus` | chess-gui/src/main.rs:150-162 | a frame carries the status text of the engine's state exactly when that state is not `InProgress` (`Check` included), and no other status text |
| `App.Square` | chess-gui/src/main.rs:227-229 | the square a click selects: the pixel lies inside that square's cell, and a click inside the window selects a square on the board |
| `App.FirstMatch` | chess-gui/src/main.rs:232-239 | the first offered move ending on the clicked square and no earlier one; None exactly when no move ends there |
| `App.Selection` | chess-gui/src/main.rs:247-256 | an engine answer `Ok(moves)` becomes the selection `moves` exactly as returned, even when empty; an error selects nothing |
| `App.AppState.constructor` | chess-gui/src/main.rs:40-61 | start-up establishes the invariant (every key's lookup gives its named file), loads a catalogue that serves every key with its named file, creates a game with Black to move, starts one round, and selects nothing |
| `App.AppState.MouseButtonUp` | chess-gui/src/main.rs:224-261 | non-left buttons change nothing; with nothing selected, a left click leaves the game untouched and selects what the engine offers for the clicked square; with a selection, a left click applies the first matching move once and then starts one round, or applies nothing if no move matches, and always ends with nothing selected |
| `App.AppState.Draw` | chess-gui/src/main.rs:90-216 | the frame of the live state: each sprite shows the piece on its cell of the engine's board with the file named after that piece, no highlight without a selection, and the status text exactly when the engine reports a state other than `InProgress` (`Check` included) |
| `App.AppState.KeyDown` | chess-gui/src/main.rs:263-278 | `R` installs a fresh game in the starting position (side to move not overridden), drops the selection and starts one round; any other key changes nothing |

## Left out

- Drawing itself (ggez meshes, `graphics::draw`, `graphics::present`), the
  window and event-loop set-up in `main`, and the no-op `update`: I/O and a
  foreign library. A frame is the sequence of commands it would draw.
- Floating-point geometry: text measurement, the banner rectangle's
  coordinates, sprite scale factors and the colours' RGBA values. The box,
  the text and the sprites are opaque commands; tile and highlight positions
  are cells, which `Layout.CellOrigin` turns into pixels.
- Loading images from files and the errors of drawing (`?`, `unwrap`,
  `expect` on the graphics calls): an image is modelled by its file path.
- The rules of chess: move generation, applying a move, advancing a round and
  the game state are the engine's and appear only as uninterpreted functions
  of a `Rules` value. Engine state other than the board and the side to move
  is an opaque number in `Position`.
- `Engine.Game.GenMovesFromCoordinate`: modelled as a query that does not
  change the game, because the engine's code is not part of this model.
- The diagnostic `println!` of a refused move query.
- The casts from `f32` to `isize` and `usize`: pixels are natural numbers, on
  which the two divisions of the click handler agree; negative or fractional
  pixels are not modelled.
- The commented-out transform code of the draw handler.
