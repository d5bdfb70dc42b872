/** The update half of the frame loop (`UpdateDrawFrame`): the game stage,
    the first click that lays out the mines, reveals, flags, the loss and
    the win test, and the two HUD buttons.  Mouse input arrives as flags
    and pixel offsets, the HUD's choice as a button number. */
module Play {
  import opened Codes
  import opened Geometry
  import opened Board
  import opened Tally
  import opened Shuffle
  import opened Numbers
  import opened Flood
  import opened Engine

  datatype Option<T> = None | Some(value: T)

  /** The board the program plays on: 16 columns, 12 rows, tiles 32
      pixels wide. */
  const W := 16
  const H := 12
  const TILE_LEN := 32

  /** The window width `main` opens. */
  const SCREEN_WIDTH := 960

  /** `startPos`: the board's top-left pixel, centred horizontally by
      `main` (230 for this board); and the offset the frame adds to the
      mouse position before converting it. */
  const START_X := 6 + (SCREEN_WIDTH - W * TILE_LEN) / 2
  const START_Y := 120
  const CURSOR_OFFSET := 6

  /** `gameStage` values. */
  const LOST := -1
  const NOT_STARTED := 0
  const STARTED := 1
  const MENU := 2
  const WON := 3

  /** A visible layer agrees with the hidden one: a revealed tile shows its
      hidden code, and a crossed flag sits on a tile without a mine. */
  predicate Coherent(t: seq<int>, c: seq<int>)
  {
    |t| == |c| &&
    forall k :: 0 <= k < |t| ==> (Shown(t[k]) ==> t[k] == c[k]) && (t[k] == BOMB_CROSS ==> c[k] != BOMB)
  }

  /** A visible layer during play: every tile is hidden, flagged or
      revealed. */
  predicate InPlay(t: seq<int>)
  {
    forall k :: 0 <= k < |t| ==> t[k] == UNREVEALED || t[k] == FLAG || Shown(t[k])
  }

  /** Every flood mark on the board names a tile that is revealed: the
      start of an earlier flood. */
  predicate MarksShown(marks: seq<int>, t: seq<int>)
  {
    forall p :: 0 <= p < |t| && p < |marks| ==>
      marks[p] == -1 || (0 <= marks[p] < |t| && Shown(t[marks[p]]))
  }

  /** Uncovering tiles keeps every revealed tile revealed, so the marks
      still name revealed tiles. */
  lemma {:induction false} MarksShownReveal(marks: seq<int>, t0: seq<int>, t: seq<int>, c: seq<int>)
    requires MarksShown(marks, t0) && RevealedOnly(t0, t, c)
    ensures MarksShown(marks, t)
  {
    forall p | 0 <= p < |t| && p < |marks| && marks[p] != -1
      ensures 0 <= marks[p] < |t| && Shown(t[marks[p]])
    {
      var s := marks[p];
      assert Shown(t0[s]);
      assert t0[s] != UNREVEALED;
    }
  }

  /** Uncovering tiles keeps a board in play coherent, in play, and its
      marks on revealed tiles. */
  lemma {:induction false} RevealKeepsBoard(t0: seq<int>, t: seq<int>, c: seq<int>, marks: seq<int>)
    requires RevealedOnly(t0, t, c) && ContentLayer(c) && Coherent(t0, c) && |c| == |t0|
    requires InPlay(t0) && MarksShown(marks, t0)
    ensures Coherent(t, c) && InPlay(t) && MarksShown(marks, t)
  {
    RevealKeepsCoherent(t0, t, c);
    MarksShownReveal(marks, t0, t, c);
  }

  /** A right click never hides a revealed tile. */
  lemma {:induction false} MarksShownFlag(marks: seq<int>, t: seq<int>, i: int)
    requires MarksShown(marks, t) && 0 <= i < |t|
    ensures MarksShown(marks, t[i := FlagStep(t[i])])
  {
    FlagStepTwice(t[i]);
  }

  /** Once the flood from `g` is closed, and every tile carrying its mark
      is uncovered, every tile reached from `g` by steps between adjacent
      tiles, each step leaving a tile with no adjacent mine, is uncovered:
      revealed, or flagged by the player. */
  lemma {:induction false} FloodUncoversZeroRegion(c: seq<int>, w: int, h: int, t: seq<int>, marks: seq<int>, g: int)
    requires IsLayer(c, w, h) && |t| == |c| && 0 <= g < |c| && Closed(c, w, h, marks, g)
    requires Marked(marks, g, g)
    requires forall p :: 0 <= p < |c| && Marked(marks, p, g) ==> t[p] != UNREVEALED
    ensures forall path :: ZeroPath(c, w, h, path) && path[0] == g ==> t[path[|path| - 1]] != UNREVEALED
  {
    forall path | ZeroPath(c, w, h, path) && path[0] == g
      ensures t[path[|path| - 1]] != UNREVEALED
    {
      ClosedReachesPath(c, w, h, marks, g, path);
    }
  }

  /** What `LoseGame` shows on one tile other than the clicked one: a mine
      without a flag is shown, a flag without a mine is crossed out,
      anything else stays. */
  function LoseCell(v: int, c: int): int
  {
    if c == BOMB && v != FLAG then BOMB
    else if c != BOMB && v == FLAG then BOMB_CROSS
    else v
  }

  /** The visible layer after `LoseGame` on the clicked tile `g`. */
  function LoseView(t: seq<int>, c: seq<int>, g: int): (r: seq<int>)
    requires |t| <= |c| && 0 <= g < |t|
    ensures |r| == |t|
  {
    seq(|t|, k requires 0 <= k < |t| => if k == g then BOMB_RED else LoseCell(t[k], c[k]))
  }

  /** After a loss every mine is on display (shown, flagged, or the red
      one clicked), every flag still standing is on a mine, and every tile
      without a mine that was not flagged looks as before. */
  lemma {:induction false} LoseViewShowsMines(t: seq<int>, c: seq<int>, g: int)
    requires |t| <= |c| && 0 <= g < |t|
    ensures forall k :: 0 <= k < |t| && c[k] == BOMB ==>
              LoseView(t, c, g)[k] in {BOMB, FLAG, BOMB_RED}
    ensures forall k :: 0 <= k < |t| && LoseView(t, c, g)[k] == FLAG ==> c[k] == BOMB
    ensures forall k :: 0 <= k < |t| && k != g && c[k] != BOMB && t[k] != FLAG ==>
              LoseView(t, c, g)[k] == t[k]
  {
  }

  /** On a coherent board whose clicked tile is a hidden mine, the loss view
      keeps the revealed count and the flag count, and the board stays
      coherent. */
  lemma {:induction false} LoseViewCounts(t: seq<int>, c: seq<int>, g: int)
    requires Coherent(t, c) && 0 <= g < |t| && t[g] == UNREVEALED && c[g] == BOMB
    ensures ShownCount(LoseView(t, c, g)) == ShownCount(t)
    ensures FlagCount(LoseView(t, c, g)) == FlagCount(t)
    ensures Coherent(LoseView(t, c, g), c)
  {
    var r := LoseView(t, c, g);
    CountSame(t, r, Shown);
    CountSame(t, r, Flagged);
  }

  /** The win test's meaning: on a coherent board the revealed count never
      exceeds the number of tiles without a mine, and it reaches it exactly
      when every such tile is revealed. */
  lemma {:induction false} WinMeansCleared(t: seq<int>, c: seq<int>)
    requires Coherent(t, c)
    ensures ShownCount(t) <= |c| - BombCount(c)
    ensures ShownCount(t) == |c| - BombCount(c) <==> forall k :: 0 <= k < |c| && c[k] != BOMB ==> Shown(t[k])
  {
    CountCovered(t, Shown, c, Safe);
    SafeCountComplement(c);
  }

  /** A board in play with nothing revealed holds only hidden and flagged
      tiles, so it is coherent with any hidden layer. */
  lemma {:induction false} NothingShown(t: seq<int>, c: seq<int>)
    requires InPlay(t) && ShownCount(t) == 0 && |t| == |c|
    ensures Coherent(t, c)
    ensures forall k :: 0 <= k < |t| ==> t[k] == UNREVEALED || t[k] == FLAG
  {
    CountZero(t, Shown);
  }

  /** Uncovering hidden tiles of a hidden layer keeps a board coherent and
      in play. */
  lemma {:induction false} RevealKeepsCoherent(t0: seq<int>, t: seq<int>, c: seq<int>)
    requires RevealedOnly(t0, t, c) && ContentLayer(c) && Coherent(t0, c) && |c| == |t0|
    ensures Coherent(t, c)
    ensures InPlay(t0) ==> InPlay(t)
  {
    assert forall k :: 0 <= k < |t| && t[k] != t0[k] ==> IsContentCode(c[k]);
  }

  /** A layer with the same entries as one without numbers has no numbers
      either. */
  lemma {:induction false} PermutationKeepsUnnumbered(a: seq<int>, b: seq<int>)
    requires multiset(a) == multiset(b) && Unnumbered(a)
    ensures Unnumbered(b)
  {
    forall k | 0 <= k < |b|
      ensures b[k] == BOMB || b[k] == REVEALED
    {
      assert b[k] in multiset(a);
      var i :| 0 <= i < |a| && a[i] == b[k];
    }
  }

  /** The first click's layout: the corrected shuffle of the reset layer,
      then the number pass.  It keeps the number of mines, and the clicked
      tile and its neighbours are free of mines, so the clicked tile shows
      empty. */
  lemma {:induction false} FirstLayout(len: nat, bombs: nat, w: int, h: int, t: int, draws: seq<nat>)
    requires ValidDims(w, h) && len == w * h && 9 <= len && bombs + 9 <= len
    requires 0 <= t < len && |draws| >= len
    ensures var m := Numbered(SafeShuffle(InitLayout(len, bombs), w, h, t, draws), w, h);
            |m| == len && BombCount(m) == bombs &&
            (forall k :: 0 <= k < len && Near(w, t, k) ==> m[k] != BOMB) &&
            m[t] == REVEALED
  {
    var m0 := InitLayout(len, bombs);
    var s := SafeShuffle(m0, w, h, t, draws);
    var m := Numbered(s, w, h);
    InitLayoutBombs(len, bombs);
    InitLayoutCodes(len, bombs);
    SafeShuffleCorrect(m0, w, h, t, draws);
    PermutationKeepsUnnumbered(m0, s);
    NumberedKeepsMines(s, w, h);
    BombCountIsCard(s);
    BombCountIsCard(m);
    NumberedMeaning(s, w, h, t);
    CoordinatesOf(w, h, t);
    assert AdjacentBombs(s, w, t) == {};
  }

  /** As written, the left click hands the tile under the mouse to
      `RevealTile` whenever the stage is "not started" or "started" after
      the first-click update, whether or not the mouse is over the board. */
  function LeftClickTarget(stage: int, gridPos: int): (r: Option<int>)
    ensures r.Some? <==> (stage == NOT_STARTED || stage == STARTED)
  {
    var s := if stage == NOT_STARTED && gridPos != -1 then STARTED else stage;
    if s == NOT_STARTED || s == STARTED then Some(gridPos) else None
  }

  /** A click to the left of the board converts to the index -1, outside
      both layers, and before the game has started the left click hands it
      to `RevealTile`.  The right click hands the converted index to
      `FlagTile` with no test at all, in every stage, so it receives the
      same -1. */
  lemma {:induction false} OffBoardClickReachesTile()
    ensures var gridPos := PixelToGrid(W, H, TILE_LEN, -5, 40);
            gridPos == -1 && !(0 <= gridPos < W * H) &&
            LeftClickTarget(NOT_STARTED, gridPos) == Some(-1)
  {
  }

  /** The corrected left click: only a click on the board reaches
      `RevealTile`. */
  function GuardedClickTarget(stage: int, gridPos: int): (r: Option<int>)
    ensures r.Some? <==> (stage == NOT_STARTED || stage == STARTED) && gridPos != -1
    ensures r.Some? ==> r.value == gridPos
  {
    if gridPos == -1 then None else LeftClickTarget(stage, gridPos)
  }

  /** Whatever the mouse position, the corrected click names a tile of the
      board when it names one at all. */
  lemma {:induction false} GuardedClickOnBoard(stage: int, px: int, py: int)
    ensures var gridPos := PixelToGrid(W, H, TILE_LEN, px, py);
            GuardedClickTarget(stage, gridPos).Some? ==>
              0 <= GuardedClickTarget(stage, gridPos).value < W * H
  {
  }

  /** The tile under the mouse, as the frame converts it: the mouse
      position moved by the cursor offset, taken relative to the board's
      top-left pixel; -1 off the board. */
  function MouseTile(mouseX: int, mouseY: int): (r: int)
    ensures r == -1 || 0 <= r < W * H
    ensures r == -1 <==> !(START_X - CURSOR_OFFSET <= mouseX < START_X - CURSOR_OFFSET + W * TILE_LEN &&
                           START_Y - CURSOR_OFFSET <= mouseY < START_Y - CURSOR_OFFSET + H * TILE_LEN)
  {
    PixelToGrid(W, H, TILE_LEN, mouseX + CURSOR_OFFSET - START_X, mouseY + CURSOR_OFFSET - START_Y)
  }

  /** `LoseGame`'s pass over the visible layer: every tile as `LoseCell`
      says, then the clicked one red. */
  method LosePass(t: array<int>, c: array<int>, g: int)
    requires t != c && t.Length <= c.Length && 0 <= g < t.Length
    modifies t
    ensures t[..] == LoseView(old(t[..]), c[..], g)
  {
    ghost var t0 := t[..];
    var i := 0;
    while i < t.Length
      invariant 0 <= i <= t.Length
      invariant forall k :: 0 <= k < i ==> t[k] == LoseCell(t0[k], c[k])
      invariant forall k :: i <= k < t.Length ==> t[k] == t0[k]
    {
      if c[i] == BOMB && t[i] != FLAG {
        t[i] := BOMB;
      } else if c[i] != BOMB && t[i] == FLAG {
        t[i] := BOMB_CROSS;
      }
      i := i + 1;
    }
    t[g] := BOMB_RED;
  }

  /** The game: the stage (`gameStage`) and the board. */
  class Game {
    var stage: int
    const grid: Grid

    /** What holds of the board in every stage: the engine's own
        invariant on a 16 by 12 board, the mine counter matching the hidden
        layer with room for a mine-free first neighbourhood, and a visible
        layer that agrees with the hidden one.  While playing only hidden,
        flagged and revealed tiles are on show and every flood mark names a
        revealed tile, and before the first click
        the hidden layer is the reset one and nothing is revealed. */
    ghost predicate Board()
      reads this, grid, grid.tiles, grid.content, grid.tilesScanned
    {
      grid.Valid() && grid.w == W && grid.h == H &&
      grid.bombCount == BombCount(grid.content[..]) && grid.bombCount + 9 <= grid.len &&
      LOST <= stage <= WON &&
      Coherent(grid.tiles[..], grid.content[..]) &&
      (stage == NOT_STARTED || stage == STARTED ==>
         InPlay(grid.tiles[..]) && MarksShown(grid.tilesScanned[..], grid.tiles[..])) &&
      (stage == NOT_STARTED ==> grid.content[..] == InitLayout(grid.len, grid.bombCount) && grid.tilesRevealed == 0)
    }

    /** The frame's win test. */
    ghost predicate Won()
      reads this, grid
    {
      grid.len - grid.bombCount == grid.tilesRevealed
    }

    /** Between frames: the won stage means the win test holds, and the
        lost, not-started and started stages mean it does not. */
    ghost predicate Inv()
      reads this, grid, grid.tiles, grid.content, grid.tilesScanned
    {
      Board() &&
      (stage == WON ==> Won()) &&
      (stage == LOST || stage == NOT_STARTED || stage == STARTED ==> !Won())
    }

    /** `main`'s set-up: a reset 16 by 12 board, and the menu on show. */
    constructor ()
      ensures Inv() && stage == MENU && grid.IsReset() && grid.bombCount == 32
    {
      stage := MENU;
      grid := new Grid(W, H);
      new;
      GameBoardQuota();
      InitLayoutBombs(grid.len, grid.bombCount);
    }

    /** `LoseGame`, at its one call site: a hidden mine was just clicked.
        The stage is lost and the visible layer is the loss view; the
        counters still match it. */
    method LoseGame(g: int)
      requires Board() && 0 <= g < grid.len && grid.tiles[g] == UNREVEALED && grid.content[g] == BOMB
      modifies this`stage, grid.tiles
      ensures Board() && stage == LOST
      ensures grid.tiles[..] == LoseView(old(grid.tiles[..]), grid.content[..], g)
    {
      stage := LOST;
      ghost var t0 := grid.tiles[..];
      LosePass(grid.tiles, grid.content, g);
      LoseViewCounts(t0, grid.content[..], g);
    }

    /** The first click on the board: the game starts, the mines are
        shuffled away from the click and the numbers are laid. */
    method FirstClick(g: int, draws: seq<nat>)
      requires Board() && stage == NOT_STARTED && 0 <= g < grid.len && |draws| >= grid.len
      modifies this`stage, grid.content
      ensures Board() && stage == STARTED && grid.tiles[..] == old(grid.tiles[..])
      ensures grid.content[..] == Numbered(SafeShuffle(old(grid.content[..]), W, H, g, draws), W, H)
      ensures forall k :: 0 <= k < grid.len && Near(W, g, k) ==> grid.content[k] != BOMB
      ensures grid.content[g] == REVEALED
    {
      stage := STARTED;
      ghost var m0 := grid.content[..];
      grid.ShuffleMapSafe(g, draws);
      grid.GenMap();
      FirstLayout(grid.len, grid.bombCount, W, H, g, draws);
      NothingShown(grid.tiles[..], grid.content[..]);
    }

    /** A left click on a tile of a started game: `RevealTile`, then the
        flood from an empty tile, or the loss on a mine. */
    method Reveal(g: int)
      requires Board() && stage == STARTED && 0 <= g < grid.len
      modifies this`stage, grid`quePos, grid`tilesRevealed, grid.tiles, grid.tilesScanned, grid.scanQue
      ensures Board()
      ensures old(grid.tiles[g]) != UNREVEALED ==> stage == STARTED && grid.tiles[..] == old(grid.tiles[..])
      ensures old(grid.tiles[g]) == UNREVEALED && grid.content[g] == BOMB ==>
                stage == LOST && grid.tiles[..] == LoseView(old(grid.tiles[..]), grid.content[..], g)
      ensures old(grid.tiles[g]) == UNREVEALED && grid.content[g] != BOMB ==>
                stage == STARTED && grid.tiles[g] == grid.content[g] &&
                RevealedOnly(old(grid.tiles[..]), grid.tiles[..], grid.content[..])
      ensures old(grid.tiles[g]) == UNREVEALED && grid.content[g] != BOMB && grid.content[g] != REVEALED ==>
                grid.tiles[..] == old(grid.tiles[..])[g := grid.content[g]]
      ensures old(grid.tiles[g]) == UNREVEALED && grid.content[g] == REVEALED ==>
                forall path :: ZeroPath(grid.content[..], W, H, path) && path[0] == g ==>
                  grid.tiles[path[|path| - 1]] != UNREVEALED
    {
      ghost var t0 := grid.tiles[..];
      var revealed := grid.RevealTile(g);
      if revealed == 1 {
        assert RevealedOnly(t0, grid.tiles[..], grid.content[..]);
        RevealKeepsBoard(t0, grid.tiles[..], grid.content[..], grid.tilesScanned[..]);
      }
      if revealed == 1 && grid.content[g] == REVEALED {
        assert forall p :: 0 <= p < grid.len ==> grid.tilesScanned[p] != g by {
          assert !Shown(t0[g]);
        }
        Spread(g);
      } else if revealed == -1 {
        LoseGame(g);
      }
    }

    /** The flood from the tile `g` a click has just revealed empty, run
        to the end of its queue (`RevealRegion`, the flood without the
        countdown).  It keeps the invariant, only uncovers tiles, and
        uncovers every tile reached from `g` through tiles with no
        adjacent mine. */
    method Spread(g: int)
      requires Board() && stage == STARTED && 0 <= g < grid.len
      requires grid.content[g] == REVEALED && grid.tiles[g] == REVEALED
      requires forall p :: 0 <= p < grid.len ==> grid.tilesScanned[p] != g
      modifies grid`quePos, grid`tilesRevealed, grid.tiles, grid.tilesScanned, grid.scanQue
      ensures Board()
      ensures RevealedOnly(old(grid.tiles[..]), grid.tiles[..], grid.content[..])
      ensures forall path :: ZeroPath(grid.content[..], W, H, path) && path[0] == g ==>
                  grid.tiles[path[|path| - 1]] != UNREVEALED
    {
      ghost var t1, marks := grid.tiles[..], grid.tilesScanned[..];
      ghost var queue := grid.RevealRegion(g);
      RevealKeepsBoard(t1, grid.tiles[..], grid.content[..], marks);
      assert MarksShown(grid.tilesScanned[..], grid.tiles[..]);
      FloodUncoversZeroRegion(grid.content[..], W, H, grid.tiles[..], grid.tilesScanned[..], g);
    }

    /** The left click's update, with the off-board click guarded: the
        first click on the board starts the game, and a click on a tile of
        a started game reveals it.  The first click never loses. */
    method LeftClick(gridPos: int, draws: seq<nat>)
      requires Board() && (gridPos == -1 || 0 <= gridPos < grid.len) && |draws| >= grid.len
      modifies this`stage, grid`quePos, grid`tilesRevealed, grid.tiles, grid.content, grid.tilesScanned, grid.scanQue
      ensures Board()
      ensures gridPos == -1 || (old(stage) != NOT_STARTED && old(stage) != STARTED) ==>
                stage == old(stage) && grid.tiles[..] == old(grid.tiles[..]) && grid.content[..] == old(grid.content[..])
      ensures old(stage) == NOT_STARTED && gridPos != -1 ==>
                stage == STARTED &&
                grid.content[..] == Numbered(SafeShuffle(old(grid.content[..]), W, H, gridPos, draws), W, H) &&
                (forall k :: 0 <= k < grid.len && Near(W, gridPos, k) ==> grid.content[k] != BOMB) &&
                (old(grid.tiles[gridPos]) == UNREVEALED ==> grid.tiles[gridPos] == REVEALED)
      ensures old(stage) == STARTED && gridPos != -1 ==>
                grid.content[..] == old(grid.content[..]) &&
                (old(grid.tiles[gridPos]) == UNREVEALED && grid.content[gridPos] == BOMB ==>
                   stage == LOST && grid.tiles[..] == LoseView(old(grid.tiles[..]), grid.content[..], gridPos)) &&
                (old(grid.tiles[gridPos]) == UNREVEALED && grid.content[gridPos] != BOMB ==>
                   stage == STARTED && grid.tiles[gridPos] == grid.content[gridPos]) &&
                (old(grid.tiles[gridPos]) != UNREVEALED ==> stage == STARTED && grid.tiles[..] == old(grid.tiles[..]))
      ensures gridPos != -1 && (old(stage) == NOT_STARTED || old(stage) == STARTED) &&
              old(grid.tiles[gridPos]) == UNREVEALED && grid.content[gridPos] == REVEALED ==>
                forall path :: ZeroPath(grid.content[..], W, H, path) && path[0] == gridPos ==>
                  grid.tiles[path[|path| - 1]] != UNREVEALED
    {
      var target := GuardedClickTarget(stage, gridPos);
      if target.Some? {
        if stage == NOT_STARTED {
          FirstClick(target.value, draws);
        }
        Reveal(target.value);
      }
    }

    /** The right click's update, with the off-board click guarded:
        `FlagTile` on the tile under the mouse, in every stage. */
    method RightClick(gridPos: int)
      requires Board() && (gridPos == -1 || 0 <= gridPos < grid.len)
      modifies grid`flagCount, grid`bombsFlagged, grid.tiles
      ensures Board()
      ensures gridPos == -1 ==> grid.tiles[..] == old(grid.tiles[..])
      ensures gridPos != -1 ==> grid.tiles[..] == old(grid.tiles[..])[gridPos := FlagStep(old(grid.tiles[gridPos]))]
    {
      if gridPos != -1 {
        grid.FlagTile(gridPos);
      }
    }

    /** The win test, run every frame: the game is won exactly when every
        tile without a mine is revealed. */
    method WinTest()
      requires Board()
      modifies this`stage
      ensures Board()
      ensures stage == if Won() then WON else old(stage)
      ensures Won() <==> forall k :: 0 <= k < grid.len && grid.content[k] != BOMB ==> Shown(grid.tiles[k])
    {
      if grid.len - grid.bombCount == grid.tilesRevealed {
        stage := WON;
      }
      WinMeansCleared(grid.tiles[..], grid.content[..]);
    }

    /** The HUD buttons, after drawing, on a left click: button 1 shows the
        menu, button 2 starts a new game on a reset board. */
    method PressButton(button: int)
      requires Board() && (stage == WON <==> Won())
      modifies this`stage, grid, grid.tiles, grid.content, grid.tilesScanned, grid.scanQue
      ensures Inv()
      ensures button == 1 ==> stage == MENU
      ensures button == 2 ==> stage == NOT_STARTED && grid.IsReset()
      ensures button != 2 ==> unchanged(grid, grid.tiles, grid.content, grid.tilesScanned, grid.scanQue)
      ensures button != 1 && button != 2 ==> stage == old(stage)
    {
      if button == 1 {
        stage := MENU;
      } else if button == 2 {
        stage := NOT_STARTED;
        grid.InitMap();
        GameBoardQuota();
        InitLayoutBombs(grid.len, grid.bombCount);
      }
    }

    /** The two mouse-button updates of a frame, in the frame's order,
        for the tile `gridPos` under the mouse: the left click, then the
        right click.  With one button pressed, the click does what
        `LeftClick` or `RightClick` says; a loss leaves the win test
        false. */
    method Clicks(left: bool, right: bool, gridPos: int, draws: seq<nat>)
      requires Inv() && (gridPos == -1 || 0 <= gridPos < grid.len) && |draws| >= grid.len
      modifies this`stage, grid`quePos, grid`tilesRevealed, grid`flagCount, grid`bombsFlagged
      modifies grid.tiles, grid.content, grid.tilesScanned, grid.scanQue
      ensures Board() && (stage == WON ==> Won())
      ensures !left && !right ==>
                stage == old(stage) && grid.tiles[..] == old(grid.tiles[..]) && grid.content[..] == old(grid.content[..])
      ensures right && !left ==>
                stage == old(stage) && grid.content[..] == old(grid.content[..]) &&
                (gridPos == -1 ==> grid.tiles[..] == old(grid.tiles[..])) &&
                (gridPos != -1 ==> grid.tiles[..] == old(grid.tiles[..])[gridPos := FlagStep(old(grid.tiles[gridPos]))])
      ensures left && !right && (gridPos == -1 || old(stage) == MENU || old(stage) == LOST || old(stage) == WON) ==>
                grid.tiles[..] == old(grid.tiles[..]) && grid.content[..] == old(grid.content[..])
      ensures left && !right && gridPos != -1 && old(stage) == NOT_STARTED ==>
                grid.content[..] == Numbered(SafeShuffle(old(grid.content[..]), W, H, gridPos, draws), W, H) &&
                (old(grid.tiles[gridPos]) == UNREVEALED ==> grid.tiles[gridPos] == REVEALED)
      ensures left && !right && gridPos != -1 && old(stage) == STARTED ==>
                grid.content[..] == old(grid.content[..]) &&
                (old(grid.tiles[gridPos]) == UNREVEALED && grid.content[gridPos] == BOMB ==>
                   grid.tiles[..] == LoseView(old(grid.tiles[..]), grid.content[..], gridPos) &&
                   stage == LOST && !Won()) &&
                (old(grid.tiles[gridPos]) == UNREVEALED && grid.content[gridPos] != BOMB ==>
                   grid.tiles[gridPos] == grid.content[gridPos]) &&
                (old(grid.tiles[gridPos]) != UNREVEALED ==> grid.tiles[..] == old(grid.tiles[..]))
    {
      if stage == STARTED && gridPos != -1 && grid.tiles[gridPos] == UNREVEALED && grid.content[gridPos] == BOMB {
        LoseViewCounts(grid.tiles[..], grid.content[..], gridPos);
      }
      if left {
        LeftClick(gridPos, draws);
      }
      if right {
        RightClick(gridPos);
      }
    }

    /** The update half of one frame (`UpdateDrawFrame`): the mouse position
        is taken relative to the board, the left click, the right click,
        the win test, then the HUD button under a left click.  The frame
        keeps the game invariant.  With one button pressed, the click does
        to the tile under the mouse what `Clicks` says, unless the HUD's
        new-game button resets the board afterwards. */
    method Frame(left: bool, right: bool, mouseX: int, mouseY: int, button: int, draws: seq<nat>)
      requires Inv() && |draws| >= grid.len
      modifies this`stage, grid, grid.tiles, grid.content, grid.tilesScanned, grid.scanQue
      ensures Inv()
      ensures !left && !right ==> grid.tiles[..] == old(grid.tiles[..]) && grid.content[..] == old(grid.content[..])
      ensures left && button == 2 ==> stage == NOT_STARTED && grid.IsReset()
      ensures (stage == WON) == (Won() && !(left && (button == 1 || button == 2)))
      ensures right && !left ==>
                var g := MouseTile(mouseX, mouseY);
                grid.content[..] == old(grid.content[..]) &&
                (g == -1 ==> grid.tiles[..] == old(grid.tiles[..])) &&
                (g != -1 ==> grid.tiles[..] == old(grid.tiles[..])[g := FlagStep(old(grid.tiles[g]))])
      ensures left && !right && button != 2 &&
              (MouseTile(mouseX, mouseY) == -1 || old(stage) == MENU || old(stage) == LOST || old(stage) == WON) ==>
                grid.tiles[..] == old(grid.tiles[..]) && grid.content[..] == old(grid.content[..])
      ensures left && !right && button != 2 && MouseTile(mouseX, mouseY) != -1 && old(stage) == NOT_STARTED ==>
                var g := MouseTile(mouseX, mouseY);
                grid.content[..] == Numbered(SafeShuffle(old(grid.content[..]), W, H, g, draws), W, H) &&
                (old(grid.tiles[g]) == UNREVEALED ==> grid.tiles[g] == REVEALED)
      ensures left && !right && button != 2 && MouseTile(mouseX, mouseY) != -1 && old(stage) == STARTED ==>
                var g := MouseTile(mouseX, mouseY);
                grid.content[..] == old(grid.content[..]) &&
                (old(grid.tiles[g]) == UNREVEALED && grid.content[g] == BOMB ==>
                   grid.tiles[..] == LoseView(old(grid.tiles[..]), grid.content[..], g) &&
                   (button != 1 ==> stage == LOST)) &&
                (old(grid.tiles[g]) == UNREVEALED && grid.content[g] != BOMB ==> grid.tiles[g] == grid.content[g]) &&
                (old(grid.tiles[g]) != UNREVEALED ==> grid.tiles[..] == old(grid.tiles[..]))
    {
      var gridPos := MouseTile(mouseX, mouseY);
      Clicks(left, right, gridPos, draws);
      WinTest();
      if left {
        PressButton(button);
      }
    }
  }
}
