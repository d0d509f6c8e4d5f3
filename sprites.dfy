/**
 * The sprite catalogue: one image per (side, piece kind), built once at
 * start-up, and the lookup the renderer performs for every piece it draws.
 * An image is modelled by the path it is loaded from.
 */
module Sprites {
  import opened Chess

  type Key = (Team, Rank)

  type Entry = (Key, string)

  function TeamName(t: Team): string {
    match t
    case Black => "black"
    case White => "white"
  }

  function RankName(k: Rank): string {
    match k
    case King => "king"
    case Queen => "queen"
    case Rook => "rook"
    case Pawn => "pawn"
    case Bishop => "bishop"
    case Knight => "knight"
  }

  /** The naming scheme of the image files: `/<side>_<kind>.png`. */
  function PathFor(key: Key): string {
    "/" + TeamName(key.0) + "_" + RankName(key.1) + ".png"
  }

  /**
   * Builds the catalogue, one push per image, in the order Black King,
   * Queen, Rook, Pawn, Bishop, Knight, then the same for White. The result
   * has twelve entries, no key twice, every key once, and each image is the
   * file the naming scheme gives for its key.
   */
  method LoadSprites() returns (sprites: seq<Entry>)
    ensures |sprites| == 12 && Filled(sprites)
    ensures forall i, j :: 0 <= i < j < |sprites| ==> sprites[i].0 != sprites[j].0
    ensures forall key: Key :: Find(sprites, key).Some?
    ensures forall i :: 0 <= i < |sprites| ==> Named(sprites[i])
  {
    NamedBlackKingToRook();
    NamedBlackPawnToKnight();
    NamedWhiteKingToRook();
    NamedWhitePawnToKnight();
    sprites := [];
    var blackKing := ((Black, King), "/black_king.png");
    Push(sprites, blackKing);
    sprites := sprites + [blackKing];
    var blackQueen := ((Black, Queen), "/black_queen.png");
    Push(sprites, blackQueen);
    sprites := sprites + [blackQueen];
    var blackRook := ((Black, Rook), "/black_rook.png");
    Push(sprites, blackRook);
    sprites := sprites + [blackRook];
    var blackPawn := ((Black, Pawn), "/black_pawn.png");
    Push(sprites, blackPawn);
    sprites := sprites + [blackPawn];
    var blackBishop := ((Black, Bishop), "/black_bishop.png");
    Push(sprites, blackBishop);
    sprites := sprites + [blackBishop];
    var blackKnight := ((Black, Knight), "/black_knight.png");
    Push(sprites, blackKnight);
    sprites := sprites + [blackKnight];
    var whiteKing := ((White, King), "/white_king.png");
    Push(sprites, whiteKing);
    sprites := sprites + [whiteKing];
    var whiteQueen := ((White, Queen), "/white_queen.png");
    Push(sprites, whiteQueen);
    sprites := sprites + [whiteQueen];
    var whiteRook := ((White, Rook), "/white_rook.png");
    Push(sprites, whiteRook);
    sprites := sprites + [whiteRook];
    var whitePawn := ((White, Pawn), "/white_pawn.png");
    Push(sprites, whitePawn);
    sprites := sprites + [whitePawn];
    var whiteBishop := ((White, Bishop), "/white_bishop.png");
    Push(sprites, whiteBishop);
    sprites := sprites + [whiteBishop];
    var whiteKnight := ((White, Knight), "/white_knight.png");
    Push(sprites, whiteKnight);
    sprites := sprites + [whiteKnight];
    forall key: Key ensures Find(sprites, key).Some? {
      assert sprites[SlotOf(key)].0 == key;
    }
  }

  /** The first |s| slots of the catalogue are filled, each with its named image. */
  ghost predicate Filled(s: seq<Entry>) {
    forall i :: 0 <= i < |s| ==> SlotOf(s[i].0) == i && Named(s[i])
  }

  /** One push of LoadSprites keeps the filled prefix. */
  lemma Push(s: seq<Entry>, e: Entry)
    requires Filled(s) && SlotOf(e.0) == |s| && Named(e)
    ensures Filled(s + [e])
  {
  }

  /** An entry whose image is the file the naming scheme gives for its key. */
  predicate Named(e: Entry) {
    e.1 == PathFor(e.0)
  }

  /** The image names of the twelve pushes, three at a time, in push order. */
  lemma NamedBlackKingToRook()
    ensures Named(((Black, King), "/black_king.png"))
    ensures Named(((Black, Queen), "/black_queen.png"))
    ensures Named(((Black, Rook), "/black_rook.png"))
  {
  }

  lemma NamedBlackPawnToKnight()
    ensures Named(((Black, Pawn), "/black_pawn.png"))
    ensures Named(((Black, Bishop), "/black_bishop.png"))
    ensures Named(((Black, Knight), "/black_knight.png"))
  {
  }

  lemma NamedWhiteKingToRook()
    ensures Named(((White, King), "/white_king.png"))
    ensures Named(((White, Queen), "/white_queen.png"))
    ensures Named(((White, Rook), "/white_rook.png"))
  {
  }

  lemma NamedWhitePawnToKnight()
    ensures Named(((White, Pawn), "/white_pawn.png"))
    ensures Named(((White, Bishop), "/white_bishop.png"))
    ensures Named(((White, Knight), "/white_knight.png"))
  {
  }

  /** Where LoadSprites puts each key. */
  function SlotOf(key: Key): (i: nat)
    ensures i < 12
  {
    (match key.0 case Black => 0 case White => 6)
    + (match key.1
       case King => 0 case Queen => 1 case Rook => 2
       case Pawn => 3 case Bishop => 4 case Knight => 5)
  }

  /**
   * The index of the first entry whose key is `key`, as `iter().find` scans
   * the table; None when no entry has that key.
   */
  function Find(entries: seq<Entry>, key: Key): (r: Option<nat>)
    ensures r.Some? ==> r.value < |entries| && entries[r.value].0 == key
    ensures r.Some? ==> forall j :: 0 <= j < r.value ==> entries[j].0 != key
    ensures r.None? <==> forall j :: 0 <= j < |entries| ==> entries[j].0 != key
  {
    FirstIndex(entries, (e: Entry) => e.0 == key)
  }

  /**
   * The renderer's lookup: the first of the first twelve entries carrying
   * `key`. The Rust code slices `[0..12]` and unwraps the search, so both
   * the length and the presence of the key are demands on the caller.
   */
  function Lookup(sprites: seq<Entry>, key: Key): (image: string)
    requires |sprites| >= 12 && Find(sprites[..12], key).Some?
    ensures exists i ::
      && 0 <= i < 12 && sprites[i] == (key, image)
      && forall j :: 0 <= j < i ==> sprites[j].0 != key
  {
    var i := Find(sprites[..12], key).value;
    assert forall j :: 0 <= j <= i ==> sprites[..12][j] == sprites[j];
    sprites[i].1
  }

  /** The catalogue serves every lookup the renderer can make. */
  ghost predicate Total(sprites: seq<Entry>) {
    |sprites| >= 12 && forall key: Key :: Find(sprites[..12], key).Some?
  }

  /** The image LoadSprites stored for a key is the one the lookup returns. */
  lemma LoadedLookup(sprites: seq<Entry>)
    requires |sprites| == 12
    requires forall key: Key :: Find(sprites, key).Some?
    requires forall i :: 0 <= i < |sprites| ==> Named(sprites[i])
    ensures Total(sprites)
    ensures forall key: Key :: Lookup(sprites, key) == PathFor(key)
  {
    assert sprites[..12] == sprites;
  }

  /** Different keys name different image files. */
  lemma PathsDistinct(a: Key, b: Key)
    requires a != b
    ensures PathFor(a) != PathFor(b)
  {
    PathShape(a);
    PathShape(b);
    if a.0 == b.0 {
      RankPrefixesDistinct(a.1, b.1);
    }
  }

  /** Where the side's and the kind's names sit in a path. */
  lemma PathShape(key: Key)
    ensures |PathFor(key)| > 9
    ensures PathFor(key)[1..6] == TeamName(key.0)
    ensures PathFor(key)[7..9] == RankName(key.1)[..2]
  {
    var team, rank := TeamName(key.0), RankName(key.1);
    var p := PathFor(key);
    assert p == "/" + team + "_" + (rank + ".png");
    assert |team| == 5 && |rank| >= 4;
  }

  /** The kinds' names already differ in their first two letters. */
  lemma RankPrefixesDistinct(a: Rank, b: Rank)
    requires a != b
    ensures RankName(a)[..2] != RankName(b)[..2]
  {
    var pa, pb := RankName(a)[..2], RankName(b)[..2];
    assert pa[0] != pb[0] || pa[1] != pb[1];
  }
}
