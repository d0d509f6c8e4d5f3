/**
 * One frame of the board as a sequence of draw commands: clear, the status
 * banner's background box, the 64 tiles, the status text whenever the
 * engine reports a state other than InProgress (Check included), one
 * highlight per offered move, one sprite per piece. Coordinates
 * are cells; `Layout.CellOrigin` turns them into pixels. Colours, text
 * measurement and sprite scaling are not modelled, so a command names only
 * what it draws and where.
 */
module Render {
  import opened Chess
  import Sprites
  import Layout

  /** The two tile colours. */
  datatype Color = Light | Dark

  datatype Command =
    | Clear
    | Box(state: Gamestate)
    | Tile(col: int, row: int, color: Color)
    | StatusText(state: Gamestate)
    | Highlight(col: int, row: int)
    | Sprite(col: int, row: int, piece: Piece, image: string)

  /** The z-order of a command: a layer only ever covers the ones below it. */
  function Layer(c: Command): nat {
    match c
    case Clear => 0
    case Box(_) => 1
    case Tile(_, _, _) => 2
    case StatusText(_) => 3
    case Highlight(_, _) => 4
    case Sprite(_, _, _, _) => 5
  }

  /**
   * The colour of tile `i`, chosen as the Rust code does: by the parity of
   * `i` and then by the parity of the row `i / 8`. This is the checkerboard
   * rule: a tile is light exactly when its column i % 8 plus its row is even.
   */
  function TileColor(i: nat): (color: Color)
    ensures color == Light <==> (i % 8 + i / 8) % 2 == 0
  {
    ParityOfColumn(i / 8, i % 8);
    ParityOfSum(i % 8, i / 8);
    match i % 2
    case 0 => if (i / 8) % 2 == 0 then Light else Dark
    case _ => if (i / 8) % 2 == 0 then Dark else Light
  }

  /** A row holds eight tiles, so tile 8 * row + col has the parity of col. */
  lemma ParityOfColumn(row: nat, col: nat)
    ensures (8 * row + col) % 2 == col % 2
  {
    var k := 4 * row;
    assert 8 * row + col == 2 * k + col;
  }

  lemma ParityOfSum(a: nat, b: nat)
    ensures (a + b) % 2 == 0 <==> a % 2 == b % 2
  {
  }

  /** The 64 tiles, in the order the loop draws them: row by row, column by column. */
  function Tiles(): (r: seq<Command>)
    ensures |r| == 64
  {
    seq(64, i requires 0 <= i < 64 => Tile(i % 8, i / 8, TileColor(i)))
  }

  /**
   * Every cell of the board gets exactly one tile, at the index the loop
   * reaches it, coloured by the checkerboard rule.
   */
  lemma TilesCoverBoard(col: nat, row: nat)
    requires col < 8 && row < 8
    ensures Tiles()[8 * row + col] == Tile(col, row, if (col + row) % 2 == 0 then Light else Dark)
    ensures forall i :: 0 <= i < 64 && Tiles()[i].col == col && Tiles()[i].row == row ==> i == 8 * row + col
  {
    var i := 8 * row + col;
    assert i % 8 == col && i / 8 == row;
  }

  /** One highlight per offered move, in list order, on the move's destination. */
  function Highlights(possibleMoves: Option<seq<Action>>): (r: seq<Command>)
    ensures possibleMoves.None? ==> r == []
    ensures possibleMoves.Some? ==> |r| == |possibleMoves.value|
    ensures forall c :: c in r ==> c.Highlight?
    ensures possibleMoves.Some? ==>
      forall k :: 0 <= k < |r| ==> (r[k].col, r[k].row) == possibleMoves.value[k].to
  {
    match possibleMoves
    case None => []
    case Some(ms) => seq(|ms|, k requires 0 <= k < |ms| => Highlight(ms[k].to.0, ms[k].to.1))
  }

  /** The highlighted cells are exactly the destinations of the offered moves. */
  lemma HighlightsAreDestinations(ms: seq<Action>)
    ensures (set c | c in Highlights(Some(ms)) :: (c.col, c.row)) == (set a | a in ms :: a.to)
  {
    var r := Highlights(Some(ms));
    forall a | a in ms
      ensures a.to in (set c | c in r :: (c.col, c.row))
    {
      var k :| 0 <= k < |ms| && ms[k] == a;
      assert r[k] in r;
    }
  }

  /** Every piece on `grid` has an image among the first twelve catalogue entries. */
  ghost predicate CanDraw(grid: Grid, sprites: seq<Sprites.Entry>) {
    |sprites| >= 12 &&
    forall x, y :: 0 <= x < 8 && 0 <= y < 8 && grid[x][y].Some? ==>
      Sprites.Find(sprites[..12], (grid[x][y].value.team, grid[x][y].value.rank)).Some?
  }

  /** A complete catalogue can draw any board. */
  lemma TotalCanDraw(grid: Grid, sprites: seq<Sprites.Entry>)
    requires Sprites.Total(sprites)
    ensures CanDraw(grid, sprites)
  {
  }

  /** The position of cell (x, y) in the renderer's x-major, then y, scan. */
  function ScanIndex(col: int, row: int): int {
    8 * col + row
  }

  /**
   * The sprites for cells `k` to 63 of the scan (cell k is column k / 8,
   * row k % 8): one per occupied cell, strictly in scan order, each showing
   * the piece on its cell with the image the catalogue lookup gives.
   */
  function SpritesFrom(grid: Grid, sprites: seq<Sprites.Entry>, k: nat): (r: seq<Command>)
    requires k <= 64 && CanDraw(grid, sprites)
    ensures SpritesOf(grid, sprites, k, r)
    ensures ScanOrdered(r)
    ensures CoversFrom(grid, k, r)
    decreases 64 - k
  {
    if k == 64 then []
    else
      var x, y := k / 8, k % 8;
      var rest := SpritesFrom(grid, sprites, k + 1);
      match grid[x][y]
      case None =>
        SpritesSkip(grid, sprites, k, rest);
        rest
      case Some(p) =>
        var c := Sprite(x, y, p, Sprites.Lookup(sprites, (p.team, p.rank)));
        SpritesCons(grid, sprites, k, c, rest);
        [c] + rest
  }

  /** Every command of `r` is the sprite of an occupied cell at scan position `k` or later. */
  ghost predicate SpritesOf(grid: Grid, sprites: seq<Sprites.Entry>, k: nat, r: seq<Command>)
    requires CanDraw(grid, sprites)
  {
    forall c :: c in r ==>
      && c.Sprite? && k <= ScanIndex(c.col, c.row) < 64 && 0 <= c.col < 8 && 0 <= c.row < 8
      && grid[c.col][c.row] == Some(c.piece)
      && c.image == Sprites.Lookup(sprites, (c.piece.team, c.piece.rank))
  }

  /** The commands of `r` are sprites in strictly increasing scan order. */
  ghost predicate ScanOrdered(r: seq<Command>) {
    forall i, j :: 0 <= i < j < |r| ==>
      r[i].Sprite? && r[j].Sprite? && ScanIndex(r[i].col, r[i].row) < ScanIndex(r[j].col, r[j].row)
  }

  /** Every occupied cell at scan position `k` or later has a command in `r`. */
  ghost predicate CoversFrom(grid: Grid, k: nat, r: seq<Command>) {
    forall m :: k <= m < 64 && grid[m / 8][m % 8].Some? ==>
      exists c :: c in r && c.Sprite? && ScanIndex(c.col, c.row) == m
  }

  /** An empty cell at scan position `k` adds nothing to the sprites from `k + 1` on. */
  lemma SpritesSkip(grid: Grid, sprites: seq<Sprites.Entry>, k: nat, rest: seq<Command>)
    requires k < 64 && CanDraw(grid, sprites) && grid[k / 8][k % 8].None?
    requires SpritesOf(grid, sprites, k + 1, rest) && ScanOrdered(rest) && CoversFrom(grid, k + 1, rest)
    ensures SpritesOf(grid, sprites, k, rest) && ScanOrdered(rest) && CoversFrom(grid, k, rest)
  {
  }

  /** The sprite of an occupied cell at scan position `k`, put before the sprites from `k + 1` on. */
  lemma SpritesCons(grid: Grid, sprites: seq<Sprites.Entry>, k: nat, c: Command, rest: seq<Command>)
    requires k < 64 && CanDraw(grid, sprites) && grid[k / 8][k % 8].Some?
    requires c == Sprite(k / 8, k % 8, grid[k / 8][k % 8].value,
                         Sprites.Lookup(sprites, (grid[k / 8][k % 8].value.team, grid[k / 8][k % 8].value.rank)))
    requires SpritesOf(grid, sprites, k + 1, rest) && ScanOrdered(rest) && CoversFrom(grid, k + 1, rest)
    ensures SpritesOf(grid, sprites, k, [c] + rest) && ScanOrdered([c] + rest) && CoversFrom(grid, k, [c] + rest)
  {
    assert ScanIndex(c.col, c.row) == k;
    ConsOf(grid, sprites, k, c, rest);
    ConsOrdered(k, c, rest);
    ConsCovers(grid, k, c, rest);
  }

  /** The new sprite and the later ones all belong to occupied cells from `k` on. */
  lemma ConsOf(grid: Grid, sprites: seq<Sprites.Entry>, k: nat, c: Command, rest: seq<Command>)
    requires k < 64 && CanDraw(grid, sprites)
    requires c.Sprite? && ScanIndex(c.col, c.row) == k && 0 <= c.col < 8 && 0 <= c.row < 8
    requires grid[c.col][c.row] == Some(c.piece)
    requires c.image == Sprites.Lookup(sprites, (c.piece.team, c.piece.rank))
    requires SpritesOf(grid, sprites, k + 1, rest)
    ensures SpritesOf(grid, sprites, k, [c] + rest)
  {
  }

  /** A sprite at scan position `k` before later sprites keeps the scan order. */
  lemma ConsOrdered(k: nat, c: Command, rest: seq<Command>)
    requires c.Sprite? && ScanIndex(c.col, c.row) == k
    requires forall c' :: c' in rest ==> c'.Sprite? && k < ScanIndex(c'.col, c'.row)
    requires ScanOrdered(rest)
    ensures ScanOrdered([c] + rest)
  {
    var r := [c] + rest;
    forall i, j | 0 <= i < j < |r|
      ensures r[i].Sprite? && r[j].Sprite? && ScanIndex(r[i].col, r[i].row) < ScanIndex(r[j].col, r[j].row)
    {
      if i == 0 {
        assert r[j] == rest[j - 1] && rest[j - 1] in rest;
      } else {
        assert r[i] == rest[i - 1] && r[j] == rest[j - 1];
      }
    }
  }

  /** Adding the sprite of cell `k` extends the covered cells down to `k`. */
  lemma ConsCovers(grid: Grid, k: nat, c: Command, rest: seq<Command>)
    requires k < 64 && c.Sprite? && ScanIndex(c.col, c.row) == k
    requires CoversFrom(grid, k + 1, rest)
    ensures CoversFrom(grid, k, [c] + rest)
  {
    var r := [c] + rest;
    forall m | k <= m < 64 && grid[m / 8][m % 8].Some?
      ensures exists c' :: c' in r && c'.Sprite? && ScanIndex(c'.col, c'.row) == m
    {
      if m == k {
        assert c in r;
      } else {
        var c' :| c' in rest && c'.Sprite? && ScanIndex(c'.col, c'.row) == m;
        assert c' in r;
      }
    }
  }

  /**
   * The frame the draw handler produces for a board, the current selection
   * and the engine's game state. Sprites appear only on occupied cells, with
   * the piece there and its catalogue image; highlights only on the
   * destinations of offered moves, and none while nothing is selected.
   */
  function Frame(grid: Grid, possibleMoves: Option<seq<Action>>, state: Gamestate,
                 sprites: seq<Sprites.Entry>): (r: seq<Command>)
    requires CanDraw(grid, sprites)
    ensures forall c :: c in r && c.Sprite? ==>
      && 0 <= c.col < 8 && 0 <= c.row < 8
      && grid[c.col][c.row] == Some(c.piece)
      && c.image == Sprites.Lookup(sprites, (c.piece.team, c.piece.rank))
    ensures forall c :: c in r && c.Highlight? ==>
      possibleMoves.Some? && exists a :: a in possibleMoves.value && a.to == (c.col, c.row)
  {
    var text, h, s := Status(state), Highlights(possibleMoves), SpritesFrom(grid, sprites, 0);
    OnlyStatus(state, text, h, s);
    HighlightSources(possibleMoves);
    [Clear, Box(state)] + Tiles() + text + h + s
  }

  /** Every highlight sits on the destination of an offered move. */
  lemma HighlightSources(possibleMoves: Option<seq<Action>>)
    ensures forall c :: c in Highlights(possibleMoves) ==>
      possibleMoves.Some? && exists a :: a in possibleMoves.value && a.to == (c.col, c.row)
  {
    if possibleMoves.Some? {
      HighlightsAreDestinations(possibleMoves.value);
      var r := Highlights(possibleMoves);
      forall c | c in r
        ensures exists a :: a in possibleMoves.value && a.to == (c.col, c.row)
      {
        assert (c.col, c.row) in (set c' | c' in r :: (c'.col, c'.row));
      }
    }
  }

  /** Commands sit in non-decreasing layer order: nothing is drawn under an earlier layer. */
  ghost predicate Ordered(s: seq<Command>) {
    forall i, j :: 0 <= i < j < |s| ==> Layer(s[i]) <= Layer(s[j])
  }

  /** Appending a block of one layer `n` to an ordered sequence of layers up to `n`. */
  lemma OrderedAppend(s: seq<Command>, t: seq<Command>, n: nat)
    requires Ordered(s) && forall c :: c in s ==> Layer(c) <= n
    requires forall c :: c in t ==> Layer(c) == n
    ensures Ordered(s + t) && forall c :: c in s + t ==> Layer(c) <= n
  {
    var st := s + t;
    forall i, j | 0 <= i < j < |st| ensures Layer(st[i]) <= Layer(st[j]) {
      if j < |s| {
        assert st[i] == s[i] && st[j] == s[j];
      } else if i < |s| {
        assert st[i] == s[i] && s[i] in s;
        assert st[j] == t[j - |s|] && t[j - |s|] in t;
      } else {
        assert st[i] == t[i - |s|] && t[i - |s|] in t;
        assert st[j] == t[j - |s|] && t[j - |s|] in t;
      }
    }
  }

  /**
   * The z-order of a frame: clear, banner box, tiles, status text,
   * highlights, sprites, never an earlier layer after a later one.
   */
  lemma FrameOrdered(grid: Grid, possibleMoves: Option<seq<Action>>, state: Gamestate,
                     sprites: seq<Sprites.Entry>)
    requires CanDraw(grid, sprites)
    ensures Ordered(Frame(grid, possibleMoves, state, sprites))
  {
    LayersOrdered(state, Status(state), Highlights(possibleMoves), SpritesFrom(grid, sprites, 0));
  }

  /** The frame's shape, with the last three blocks abstracted to their layers. */
  lemma LayersOrdered(state: Gamestate, text: seq<Command>, h: seq<Command>, s: seq<Command>)
    requires forall c :: c in text ==> c.StatusText?
    requires forall c :: c in h ==> c.Highlight?
    requires forall c :: c in s ==> c.Sprite?
    ensures Ordered([Clear, Box(state)] + Tiles() + text + h + s)
  {
    var tiles := Tiles();
    forall c | c in tiles ensures Layer(c) == 2 {
      var i :| 0 <= i < 64 && tiles[i] == c;
    }
    OrderedAppend([Clear], [Box(state)], 1);
    assert [Clear] + [Box(state)] == [Clear, Box(state)];
    OrderedAppend([Clear, Box(state)], tiles, 2);
    OrderedAppend([Clear, Box(state)] + tiles, text, 3);
    OrderedAppend([Clear, Box(state)] + tiles + text, h, 4);
    OrderedAppend([Clear, Box(state)] + tiles + text + h, s, 5);
  }

  /**
   * The status text a frame carries for `state`: drawn once whenever the
   * engine reports a state other than InProgress, Check included, so the
   * banner can show in the middle of a game.
   */
  function Status(state: Gamestate): (r: seq<Command>)
    ensures |r| <= 1
    ensures StatusText(state) in r <==> state != InProgress
    ensures forall c :: c in r ==> c == StatusText(state)
  {
    if state != InProgress then [StatusText(state)] else []
  }

  /** A frame opens with clear, the banner box and the 64 tiles, in that order. */
  lemma FramePrefix(grid: Grid, possibleMoves: Option<seq<Action>>, state: Gamestate,
                    sprites: seq<Sprites.Entry>)
    requires CanDraw(grid, sprites)
    ensures Frame(grid, possibleMoves, state, sprites)[..66] == [Clear, Box(state)] + Tiles()
  {
    PrefixOf([Clear, Box(state)] + Tiles(), Status(state), Highlights(possibleMoves),
             SpritesFrom(grid, sprites, 0));
  }

  /** The frame's shape, with the last three blocks abstracted. */
  lemma PrefixOf(head: seq<Command>, text: seq<Command>, h: seq<Command>, s: seq<Command>)
    ensures (head + text + h + s)[..|head|] == head
  {
  }

  /**
   * A frame shows the status text of the engine's state exactly when the
   * engine reports a state other than InProgress (Check included), and no
   * other status text.
   */
  lemma FrameStatus(grid: Grid, possibleMoves: Option<seq<Action>>, state: Gamestate,
                    sprites: seq<Sprites.Entry>)
    requires CanDraw(grid, sprites)
    ensures var r := Frame(grid, possibleMoves, state, sprites);
      && (forall c :: c in r && c.StatusText? ==> c == StatusText(state))
      && (StatusText(state) in r <==> state != InProgress)
  {
    OnlyStatus(state, Status(state), Highlights(possibleMoves), SpritesFrom(grid, sprites, 0));
  }

  /**
   * Every occupied cell of the board is drawn: the frame holds a sprite on
   * it showing its piece with the catalogue's image for that piece.
   */
  lemma FrameSprites(grid: Grid, possibleMoves: Option<seq<Action>>, state: Gamestate,
                     sprites: seq<Sprites.Entry>, x: nat, y: nat)
    requires CanDraw(grid, sprites)
    requires x < 8 && y < 8 && grid[x][y].Some?
    ensures var p := grid[x][y].value;
      Sprite(x, y, p, Sprites.Lookup(sprites, (p.team, p.rank))) in Frame(grid, possibleMoves, state, sprites)
  {
    var p := grid[x][y].value;
    var m := 8 * x + y;
    assert m / 8 == x && m % 8 == y;
    SpriteAt(grid, sprites, 0, m);
    InBlock([Clear, Box(state)] + Tiles() + Status(state) + Highlights(possibleMoves),
            SpritesFrom(grid, sprites, 0), Sprite(x, y, p, Sprites.Lookup(sprites, (p.team, p.rank))));
  }

  /** The sprite block from scan position `k` on holds the sprite of each occupied cell at or after `k`. */
  lemma SpriteAt(grid: Grid, sprites: seq<Sprites.Entry>, k: nat, m: nat)
    requires k <= m < 64 && CanDraw(grid, sprites) && grid[m / 8][m % 8].Some?
    ensures var p := grid[m / 8][m % 8].value;
      Sprite(m / 8, m % 8, p, Sprites.Lookup(sprites, (p.team, p.rank))) in SpritesFrom(grid, sprites, k)
  {
    ScannedCell(grid, sprites, k, m);
    var c :| c in SpritesFrom(grid, sprites, k) && ScanIndex(c.col, c.row) == m;
    SpriteOfScan(grid, sprites, k, m, c);
  }

  /** Some command of the sprite block sits at scan position `m`. */
  lemma ScannedCell(grid: Grid, sprites: seq<Sprites.Entry>, k: nat, m: nat)
    requires k <= m < 64 && CanDraw(grid, sprites) && grid[m / 8][m % 8].Some?
    ensures exists c :: c in SpritesFrom(grid, sprites, k) && ScanIndex(c.col, c.row) == m
  {
    var r := SpritesFrom(grid, sprites, k);
    assert forall m' :: k <= m' < 64 && grid[m' / 8][m' % 8].Some? ==>
      exists c :: c in r && ScanIndex(c.col, c.row) == m';
  }

  /** The command of the sprite block at scan position `m` is that cell's sprite. */
  lemma SpriteOfScan(grid: Grid, sprites: seq<Sprites.Entry>, k: nat, m: nat, c: Command)
    requires k <= m < 64 && CanDraw(grid, sprites)
    requires c in SpritesFrom(grid, sprites, k) && ScanIndex(c.col, c.row) == m
    ensures grid[m / 8][m % 8].Some?
    ensures var p := grid[m / 8][m % 8].value;
      c == Sprite(m / 8, m % 8, p, Sprites.Lookup(sprites, (p.team, p.rank)))
  {
    assert c.Sprite? && 0 <= c.col < 8 && 0 <= c.row < 8;
    assert c.col == m / 8 && c.row == m % 8;
  }

  /** A command of the last block is a command of the whole. */
  lemma InBlock(head: seq<Command>, tail: seq<Command>, c: Command)
    requires c in tail
    ensures c in head + tail
  {
    var i :| 0 <= i < |tail| && tail[i] == c;
    assert (head + tail)[|head| + i] == c;
  }

  /**
   * The frame's shape, with the last three blocks abstracted to their kinds:
   * each status text, highlight and sprite comes from its own block.
   */
  lemma OnlyStatus(state: Gamestate, text: seq<Command>, h: seq<Command>, s: seq<Command>)
    requires forall c :: c in text ==> c == StatusText(state)
    requires forall c :: c in h ==> c.Highlight?
    requires forall c :: c in s ==> c.Sprite?
    ensures forall c :: c in [Clear, Box(state)] + Tiles() + text + h + s && c.StatusText? ==> c in text
    ensures forall c :: c in [Clear, Box(state)] + Tiles() + text + h + s && c.Highlight? ==> c in h
    ensures forall c :: c in [Clear, Box(state)] + Tiles() + text + h + s && c.Sprite? ==> c in s
  {
    var tiles := Tiles();
    forall c | c in tiles ensures c.Tile? {
      var i :| 0 <= i < 64 && tiles[i] == c;
    }
  }
}
