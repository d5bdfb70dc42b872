# MineCweeper grid engine in Dafny

A Dafny model of the game logic in MineCweeper's `src/main.c`, a
Minesweeper clone written in C on raylib. The model covers the following.

- **The board, `struct Grid`.** It has a visible layer `tiles`, a hidden
  layer `map`, the flood marks `tilesScanned`, the flood queue `scanQue`
  with its read cursor `quePos`, and the counters `bombCount`,
  `bombsFlagged`, `flagCount` and `tilesRevealed`.
- **The engine routines that change the board.** These are:
  - `InitMap`, the reset;
  - `ShuffleMap`, the first-click mine shuffle;
  - `GenMap`, the numbering;
  - `RevealTile` and `FlagTile`;
  - `RevealEmptyTiles`, the breadth-first flood;
  - `LoseGame`.
- **The pure helpers.** `XYInBounds`, `TileInBounds`, `PixelToGrid`,
  `GetSurroundingTiles` and `GetSurroundingBombCount`.
- **The update half of `UpdateDrawFrame`.** This is the `gameStage`
  machine: the left click, the right click, the win test and the two HUD
  buttons.

The tile codes are the program's integer codes, and `NUM_TILE(n)` is
`7 + n`.

## Modules

| Module | File | What it holds |
|---|---|---|
| `Codes` | `codes.dfy` | The tile codes, and which codes may sit in the hidden layer. |
| `Geometry` | `geometry.dfy` | Bounds tests, index and coordinate conversion, and the nine neighbourhood slots. `Near` is the independent coordinate definition of "within one row and one column". `PixelToGrid` is over integer pixel offsets. |
| `Board` | `board.dfy` | The mine count around a tile, as a count over slots and as the size of a set of tiles. |
| `Tally` | `tally.dfy` | Counting over a layer. Defines what "only hidden mine-free tiles were uncovered" means, and proves what it does to the counters. |
| `Numbers` | `numbers.dfy` | `Numbered`, which specifies `GenMap`, and what a numbered layer means. |
| `Shuffle` | `shuffle.dfy` | The reset layout and the mine quota. The shuffle as the program writes it (`RawShuffle`), its flaw, and a corrected shuffle (`SafeShuffle`). |
| `Flood` | `flood.dfy` | The loop invariant of the flood and its closure property. A functional model of the flood's loop (`ScanStep`, `ScanRun`) that includes the patience countdown. |
| `FloodStall` | `stall.dfy` | A concrete board on which the countdown stops the flood early (Finding C). |
| `Engine` | `grid.dfy` | The class `Grid`: the engine routines as methods over arrays. |
| `Play` | `game.dfy` | The class `Game`: the stage machine of one frame, and the invariant it keeps between frames. |

The hidden layer `map` is named `content` here, because `map` is a Dafny
keyword.

`ShuffleMap`'s calls to `rand()` become a parameter `draws`. Entry `i` of
`draws` is the raw value drawn in the round for index `i`, and the model
takes it modulo `i` exactly as the program does.

The program has one board: 16 columns by 12 rows, 32-pixel tiles, and
`scanSize` 5. It has no difficulty presets and no explicit mine count. It
derives the mine count from the board size, and the model follows the code
there. The shuffle's model (`RawShuffle`) and the board's shape require at
least 9 tiles, because the shuffle's tail swaps address nine entries; the
program's only board has 192.

`ShuffleMap` lists the clicked tile's neighbours by raw index offsets
(`t - w - 1`, `t - 1`, `t + w + 1` and so on) and only checks each against
`[0, len)`. For a click in the first or last column, three of those slots
therefore name tiles at the far end of the adjacent row rather than
neighbours. `Shuffle.RawNeighbour` models the offsets exactly as written.

## Model

| member | source | states |
|---|---|---|
| Codes.NumTileDistinct | src/main.c:10-19 | The number codes 1 to 9 never equal the mine, hidden, empty, flag, wrong-flag or red-mine codes. So numbering in place cannot turn a tile into a mine. |
| Geometry.CoordinatesOf | src/main.c:370-389 | A tile index is in `[0, len)` exactly when its column `t % w` and row `t / w` pass `XYInBounds`. The index is `row * w + column`. |
| Geometry.IndexOf | src/main.c:383-389 | Coordinates that pass `XYInBounds` give an index `y * w + x` in `[0, len)`, and that index decodes back to `(x, y)`. |
| Geometry.SlotPosRow | src/main.c:401-406 | Slot `j` of tile `t` names `t + (j % 3 - 1) + (j / 3 - 1) * w`, the program's address formula. |
| Geometry.SlotInRange | src/main.c:401-408 | A slot whose coordinates are on the board names a tile in `[0, len)`. That tile's column and row are the clicked tile's plus the slot's offsets. |
| Geometry.SlotsDistinct | src/main.c:401-406 | Two different on-board slots name two different tiles. |
| Geometry.SlotsAreNeighbourhood | src/main.c:401-416 | The on-board slots are exactly the board tiles within one column and one row of the tile, in both directions. |
| Geometry.NearIsSlot | src/main.c:401-406 | A tile within one column and one row of the tile is the on-board slot whose column and row offsets are its own. |
| Geometry.PixelToGrid | src/main.c:352-368 | The result is -1 exactly when the offset lies outside the board. Otherwise it is the tile in `[0, len)` whose column is `px / tileLen` and whose row is `py / tileLen`. |
| Board.BombsAroundExact | src/main.c:421-443 | The per-slot mine count equals the number of mines within one row and column of the tile, the tile itself included. |
| Board.AroundSafeTile | src/main.c:421-443 | For a tile without a mine, the count is the number of mines among its neighbours, and it is at most 8. |
| Board.SameBombsSameCounts | src/main.c:339-350 | The count depends only on where the mines are, so renumbering other tiles does not change it. |
| Tally.SafeCountComplement | src/main.c:221-223 | Mine-free tiles plus mines make up the whole layer. This is what the win test's `len - bombCount` counts. |
| Tally.FlaggedMinesUpdate | src/main.c:459-474 | Changing one visible tile changes the count of flagged mines by the flag that came off and the flag that went on. |
| Tally.RevealedOnlyCounts | src/main.c:445-457 | If only hidden mine-free tiles were uncovered, the revealed count rises by the number of tiles that changed. The flag count and the flagged-mine count stay the same. |
| Numbers.NumberedKeepsMines | src/main.c:339-350 | `GenMap` keeps every mine where it is and adds none. |
| Numbers.NumberedMeaning | src/main.c:339-350 | After numbering, a mine stays a mine. A mine-free tile with `n` adjacent mines, `1 <= n <= 8`, holds `NUM_TILE(n)`. It stays empty exactly when no neighbour has a mine. |
| Numbers.NumberedIdempotent | src/main.c:339-350 | Numbering an already numbered layer changes nothing. |
| Numbers.NumberedCodes | src/main.c:339-350 | Numbering keeps the hidden layer within the hidden-layer codes. |
| Shuffle.MineQuota | src/main.c:274 | The quota `b` is the largest count with `2.35 * sqrt(len) >= b`, written in integers as `(20b)^2 <= 2209 * len`. |
| Shuffle.MineQuotaFits | src/main.c:274 | For boards of at least 4 tiles the quota fits on the board. |
| Shuffle.GameBoardQuota | src/main.c:274 | The 16 by 12 board gets 32 mines. |
| Shuffle.InitLayoutBombs | src/main.c:282-292 | The reset layout holds exactly the requested number of mines, all in hidden-layer codes. |
| Shuffle.Offset | src/main.c:300-317 | The offset is 10, 7 or 5, so the pass spares the last 9, 6 or 4 entries. On a board at least 2 by 2 it is 10 for a tile with all four diagonal neighbours on the board, 7 for a corner (one diagonal on the board) and 5 for any other rim tile (two diagonals). |
| Shuffle.FisherYatesPermutes | src/main.c:319-324 | The Fisher–Yates pass permutes the layer. |
| Shuffle.TailSwapsPermute | src/main.c:326-336 | The nine tail swaps permute the layer. |
| Shuffle.RawShuffleConservesMines | src/main.c:296-337 | `ShuffleMap` as written permutes the hidden layer, so the mine count is kept. |
| Shuffle.ClickedTileGetsLastEntry | src/main.c:311-336 | The clicked tile ends with the layer's never-shuffled last entry. This holds when `w >= 2` and the click is not one of the indices `len-9 .. len-2`. |
| Shuffle.ClickedTileSafe | src/main.c:269-336 | Under those same conditions, and with fewer mines than tiles, the clicked tile gets no mine. |
| Shuffle.RawShuffleCanMineNeighbour | src/main.c:319-336 | A concrete input on which the shuffle as written puts a mine next to the clicked tile (Finding A). |
| Shuffle.CounterexampleFisherYates | src/main.c:319-324 | Finding A, step 1: the Fisher–Yates pass of that input leaves the mine at index 5. |
| Shuffle.CounterexampleTailSwaps | src/main.c:326-336 | Finding A, step 2: slot 4 swaps that mine onto tile 0, a neighbour of the click. |
| Shuffle.FirstFreeMisses | src/main.c:326-336 | The corrected shuffle's search finds nothing exactly when every tile from the search start on is a neighbour of the click or holds a mine. |
| Shuffle.RelocateClears | src/main.c:326-336 | The corrected relocation pass leaves no mine within one row and column of the clicked tile, given room for the mines outside that zone. |
| Shuffle.SafeShuffleCorrect | src/main.c:296-337 | The corrected shuffle permutes the hidden layer and leaves the clicked tile and all its neighbours mine-free. |
| Flood.FloodStart | src/main.c:485-487 | The flood's start state: the clicked tile is the only entry in the queue and is marked. |
| Flood.FloodEnqueue | src/main.c:496-500 | Marking and queueing an unmarked mine-free tile keeps the flood invariant. The queue stays shorter than the board. |
| Flood.FloodNext | src/main.c:490-508 | Dequeuing a tile whose neighbours are all marked, or which has a mine around it, keeps the flood invariant. |
| Flood.FloodBound | src/main.c:489 | The queue never holds more entries than the board has tiles, so the write cursor stays below `scanSize * len`. |
| Flood.DistinctSize | src/main.c:489-513 | A queue without repeats has as many distinct tiles as entries. |
| Flood.FloodClosed | src/main.c:489-513 | Once every queued tile has been expanded, and no tile carried the mark beforehand, every marked tile with no mine around it has all its neighbours marked. |
| Flood.FloodMarks | src/main.c:494-506 | The start tile is marked. Every other tile the flood newly marked holds no mine and is no longer hidden. |
| Flood.ClosedReachesPath | src/main.c:477-514 | In a closed marked region, every path through mine-free tiles from a marked tile ends at a marked tile. |
| Flood.ScanStep | src/main.c:490-508 | One pass of the loop: with work queued the read cursor moves on by one; with none the patience is cleared. The queue only grows, and the layers keep their length. |
| Flood.StepDequeues | src/main.c:490-508 | A pass that dequeues a board tile drops the patience by one and scans the tile's slots exactly when it has no mine around it. |
| Flood.ScanRun | src/main.c:489-513 | The run stops only with the patience used up, the queue full, or the read cursor off the board; the queue only grows and the read cursor never moves back. |
| FloodStall.RunExpands | src/main.c:490-507 | From a flood state fixed by its queue, a pass over a tile with no mine around it appends the tile's unqueued board neighbours, in slot order, and resets the patience when one was added. |
| FloodStall.RunStalls | src/main.c:490-512 | With patience `n` and `n` queued tiles ahead that each have a mine around them, the run dequeues them all and stops with patience 0. |
| FloodStall.StallRun | src/main.c:482-513 | On the stall board the run from the click expands (4,4) and (3,3) and then stops at queue position 12 with 14 tiles queued. |
| FloodStall.StallEnd | src/main.c:494-506 | Where that run stops, (2,3) is shown empty while (1,3), its mine-free left neighbour, stays hidden, and the marked region is not closed. |
| FloodStall.FloodStopsEarly | src/main.c:482-514 | As written, the flood on the stall board stops with two tiles still queued, and a mine-free tile reached from the click through tiles with no adjacent mine stays hidden (Finding C). |
| Engine.FlagStepTwice | src/main.c:459-474 | A right click toggles only between flag and hidden. Twice is the identity. It never shows or hides a revealed tile. |
| Engine.SwapCells | src/main.c:321-323 | Exchanges two entries of the array, as the specification function `Swap` says. |
| Engine.FisherYatesPass | src/main.c:319-324 | The in-place loop computes `FisherYates` on the old array. |
| Engine.TailPass | src/main.c:326-336 | The in-place loop computes the nine tail swaps on the old array. |
| Engine.ShuffleLayer | src/main.c:296-337 | Both passes together compute `RawShuffle` on the old array. |
| Engine.RelocatePass | src/main.c:326-336 | The corrected tail pass computes `Relocate` on the old array. |
| Engine.ClearPrefix | src/main.c:282-288 | Every tile hidden, the first `len` scan entries -1, and the hidden layer empty. Entries beyond `len` are untouched. |
| Engine.PlaceMines | src/main.c:290-292 | The first `bombCount` hidden tiles become mines, which gives the reset layout. |
| Engine.Grid.constructor | src/main.c:146-162 | Arrays of `len` and `scanSize * len` entries, `quePos` 0, then a reset board that keeps the invariant. |
| Engine.Grid.InitMap | src/main.c:269-293 | The reset. Every tile is hidden, the quota of mines is in the first tiles of the hidden layer, and all counters are zero. The first `len` scan entries are -1 and the rest are unchanged. The board invariant holds. |
| Engine.Grid.RevealTile | src/main.c:445-457 | There are three outcomes. A tile that is not hidden gives 0 and no change. A hidden mine gives -1 and no change. Otherwise the tile takes its hidden code, no other tile changes, `tilesRevealed` rises by one, and the tile is shown, so a second call gives 0. The counters stay in step. |
| Engine.Grid.FlagTile | src/main.c:459-474 | Only this tile changes, and only flag and hidden swap. `flagCount` and `bombsFlagged` move by the same step. The board invariant and the flagged-mine tally are kept. |
| Engine.Grid.GetSurroundingBombCount | src/main.c:421-443 | Returns the number of mines among the on-board slots of the tile. |
| Engine.Grid.GetSurroundingTiles | src/main.c:391-419 | Slot `j` holds -1, with code -1, exactly when its coordinates are off the board. Otherwise it holds the tile's address in `[0, len)` and the tile's hidden code. The return value is the mine count. |
| Engine.Grid.GenMap | src/main.c:339-350 | The hidden layer becomes `Numbered` of the old layer. The board invariant is kept. |
| Engine.Grid.ShuffleMap | src/main.c:296-337 | The hidden layer becomes `RawShuffle` of the old layer, the shuffle as written. |
| Engine.Grid.ShuffleMapSafe | src/main.c:296-337 | The hidden layer becomes `SafeShuffle` of the old layer, the corrected shuffle. |
| Engine.Grid.ScanTile | src/main.c:497-503 | Marks, queues and reveals one unmarked mine-free tile, as `Uncover` says, and keeps the flood invariant. |
| Engine.Grid.ScanSlot | src/main.c:495-506 | One step of the inner loop is `SlotStep` of the flood state. Afterwards slots `0..j` of the dequeued tile are marked, and patience resets when a tile was queued. |
| Engine.Grid.ScanNeighbours | src/main.c:493-507 | The inner loop is `SlotsUpTo` of the flood state over all nine slots. It leaves the dequeued zero tile expanded, and patience resets exactly when something was queued. |
| Engine.Grid.NeighboursExpanded | src/main.c:493-507 | Once all nine slots of the dequeued tile carry the mark, the tile counts as expanded and the flood invariant moves past it. |
| Engine.Grid.FloodingSkip | src/main.c:491-493 | A dequeued tile with a mine around it queues nothing and counts as expanded. |
| Engine.Grid.ScanDequeued | src/main.c:491-508 | Handling one dequeued tile keeps the flood invariant and moves past that tile. Its slots are scanned exactly when it has no mine around it. |
| Engine.Grid.ScanNext | src/main.c:490-509 | One dequeue is `ScanStep` of the flood state: `quePos` rises by one, the write cursor stays within `len`, and patience drops by one unless a tile was queued. |
| Engine.Grid.ScanLoop | src/main.c:489-513 | The loop with its countdown computes `ScanRun` from the start state: the visible layer, the marks, the queue and `quePos` are the run's. It ends only with the patience used up, keeping the flood invariant. |
| Engine.Grid.ScanStart | src/main.c:485-487 | The set-up marks and queues the click and resets `quePos`; the state is `ScanBegin`, and the flood invariant holds. |
| Engine.Grid.FloodEnd | src/main.c:477-514 | What a flood leaves: the revealed count, the flagged-mine count, the queue's facts, the marks, and closure once the queue is drained. |
| Engine.Grid.ScanDrain | src/main.c:489-513 | The loop without the countdown runs until `quePos` reaches the end of the queue, keeping the flood invariant. |
| Engine.Grid.RevealEmptyTiles | src/main.c:477-514 | As written, the visible layer, the marks, the queue and `quePos` are those of `ScanRun` from the click. The queue starts at the click, has no repeats and stays within `len`. Only hidden mine-free tiles are uncovered, and `tilesRevealed` rises by exactly their number. Marks only change to the click's index, and every newly marked tile is mine-free and uncovered. A drained queue, with no stale mark equal to the click's index, leaves a closed region. |
| Engine.Grid.RevealRegion | src/main.c:477-514 | The corrected flood, without the countdown: the same facts as `RevealEmptyTiles`, and the queue is always drained, so with no stale mark the marked region is closed. |
| Play.RevealKeepsCoherent | src/main.c:445-457 | Uncovering only hidden mine-free tiles keeps the visible layer consistent with the hidden one, and keeps only play codes on show. |
| Play.RevealKeepsBoard | src/main.c:206-209 | A reveal or flood keeps the play invariant: consistent layers, play codes only, and marks naming revealed tiles. |
| Play.MarksShownFlag | src/main.c:216-219 | A right click keeps every flood mark naming a revealed tile. |
| Play.FloodUncoversZeroRegion | src/main.c:206-209 | After a closed flood from the click, the last tile of every path through mine-free tiles from the click is uncovered. |
| Play.LoseViewShowsMines | src/main.c:597-607 | After `LoseGame`, every mine shows as a mine, a kept flag or the red mine. A flag survives only on a mine. Every other tile that is not a flag is unchanged. |
| Play.LoseViewCounts | src/main.c:597-607 | `LoseGame` leaves the revealed count and the flag count unchanged. The visible layer stays consistent with the hidden one. |
| Play.WinMeansCleared | src/main.c:221-223 | The revealed count never exceeds the mine-free tiles. It equals them exactly when every mine-free tile is revealed. |
| Play.NothingShown | src/main.c:282-288 | A layer in play with nothing revealed shows only hidden and flagged tiles, and is consistent with any hidden layer. |
| Play.PermutationKeepsUnnumbered | src/main.c:296-337 | A shuffle keeps the layer free of number codes, so it can be numbered afterwards. |
| Play.FirstLayout | src/main.c:197-201 | After the first click the layout has the quota of mines. None is within one row and column of the click, and the clicked tile is empty, so it opens a flood. |
| Play.LeftClickTarget | src/main.c:206-207 | The left click reaches `RevealTile` exactly in the not-started and started stages. |
| Play.OffBoardClickReachesTile | src/main.c:193-218 | A click left of the board converts to -1, outside both layers, and in the not-started stage the left click hands that -1 to `RevealTile` (Finding B). |
| Play.GuardedClickTarget | src/main.c:206-207 | The guarded click reaches a tile exactly in the two play stages and only for an on-board position, and the tile is the one under the mouse. |
| Play.GuardedClickOnBoard | src/main.c:193-218 | Every tile the guarded click reaches lies in `[0, len)`. |
| Play.MouseTile | src/main.c:191-194 | The tile under the mouse is -1 exactly when the mouse, moved by the cursor offset, lies outside the board; otherwise it is a tile of the board. |
| Play.LosePass | src/main.c:599-606 | The loop of `LoseGame` computes `LoseView` on the old visible layer. |
| Play.Game.constructor | src/main.c:122-162 | The set-up: a reset 16 by 12 board with 32 mines, the menu stage, and the game invariant. |
| Play.Game.LoseGame | src/main.c:597-607 | The stage becomes lost and the visible layer becomes `LoseView`. The hidden layer and the counters are unchanged, and the board invariant holds. |
| Play.Game.FirstClick | src/main.c:197-201 | The stage becomes started. The hidden layer is shuffled (corrected) and numbered, no mine is within one row and column of the click, and the clicked tile is empty. |
| Play.Game.Reveal | src/main.c:206-213 | A shown tile gives no change. A hidden mine gives the loss. Otherwise the tile is revealed. A number tile changes alone, and an empty tile floods and uncovers every path of empty tiles from the click. |
| Play.Game.Spread | src/main.c:208-209 | The flood (corrected, without the countdown) from a freshly revealed empty tile uncovers only hidden mine-free tiles, keeps the board invariant, and uncovers every path of empty tiles from the click. |
| Play.Game.LeftClick | src/main.c:193-214 | Guarded left click, through `GuardedClickTarget`. Off the board or outside play, nothing changes. On the first click the layout is laid and the tile revealed. During play, the reveal outcomes of `Reveal` apply. |
| Play.Game.RightClick | src/main.c:216-219 | Guarded right click. Off the board nothing changes. Otherwise `FlagTile`'s step applies to the tile, and the board invariant is kept. |
| Play.Game.Clicks | src/main.c:193-219 | The left click, then the right click. With one button pressed, the click has the outcome `LeftClick` or `RightClick` states; a loss leaves the stage lost and the win test false. |
| Play.Game.WinTest | src/main.c:221-223 | The stage becomes won exactly when the test holds. The test holds exactly when every mine-free tile is revealed. |
| Play.Game.PressButton | src/main.c:253-266 | Button 1 shows the menu. Button 2 starts a new game on a reset board. Any other button changes nothing. |
| Play.Game.Frame | src/main.c:187-266 | One frame keeps the game invariant. Without a click nothing on the board changes, and button 2 resets. After the frame the stage is won exactly when the win test holds, unless a HUD button was pressed. With one button pressed, the tile under the mouse is flagged, revealed, laid out on the first click, or lost on, as `Clicks` says, unless button 2 resets the board. |

## Left out

- Drawing is not part of this model: the window, textures, fonts, the drawing half of `UpdateDrawFrame`, `DrawHud`, the Emscripten loop and `printf` tracing. The HUD button under the cursor is an input to `Play.Game.Frame`.
- `rand`, `srand` and `time` are not modelled; the values `rand()` returns are the parameter `draws`.
- The mouse position is a pair of floats in the program. Here it is a pair of integer pixels, and `PixelToGrid` works on integer offsets, where the program's float division truncated toward zero agrees with integer division for the non-negative offsets that reach it.
- Shuffle.MineQuota: it is the exact integer form of `2.35 * sqrt(len)` truncated; the program computes it in double arithmetic, which is not modelled. On the 16 by 12 board both give 32.
- Engine.Grid.RevealEmptyTiles: closure is claimed only when the queue was drained and no tile carried the click's index as a stale mark. The countdown can stop the flood earlier (Finding C, shown on one board); an old mark equal to the click's index can keep a tile out of the flood. The model does not characterise every board on which either happens.
- Play.Game.Spread: the game uses the corrected flood `Engine.Grid.RevealRegion`; the flood as written is `Engine.Grid.RevealEmptyTiles` (Finding C).
- Play.Game.Board: the invariant leaves out `bombsFlagged`. The first-click shuffle moves mines under flags placed before it and the program never recounts, so that counter can go stale (it is never read). `Engine.Grid.RevealTile` and `Engine.Grid.FlagTile` still keep it exact when it was exact.
- Play.Game.Frame: the click outcomes are stated for a frame with one mouse button pressed; with both pressed only the invariant and the win test are stated.
- Play.Game.LeftClick and Play.Game.RightClick: they guard against the off-board position -1 (Finding B), which the program does not.
- Play.Game.FirstClick: it uses the corrected shuffle `SafeShuffle`. The shuffle as written is `Engine.Grid.ShuffleMap` (Finding A).
- `GetSurroundingTiles` writes through pointers to two global arrays. Here it returns two sequences, so aliasing of those globals is not modelled.
- The program's arrays are stack buffers. The entries of `tilesScanned` and `scanQue` beyond `len` are never initialised in the program, and the model assumes nothing about them.
- The shuffle's tail pass indexes with the global `len` where the other routines use `gp->len`. These are always equal, and the model uses one length.
- The two question-mark codes are defined but never set by the program, so they appear only as codes.
- Integer widths: tile codes are `char` in the program, and codes up to 16 fit. Counters are `int`, and no counter exceeds `len` on the 16 by 12 board. The model uses unbounded integers.
- When a HUD button is pressed in the same frame as a win, the frame ends in the menu or a new game. On a later frame the win test may set the won stage again. `Play.Game.Frame` states this as the source does, without a separate lemma.

## Findings

| source | as written | input that shows it | evidently intended | confidence | as-written member | corrected member |
|---|---|---|---|---|---|---|
| src/main.c:319-336 | The tail swaps move only the entries in the last nine slots into the clicked tile's neighbourhood. Off-board slots skip their swap, and with `o = 5` or `o = 7` the Fisher–Yates pass can leave a mine in a tail slot that an on-board slot then swaps onto a neighbour. | A 5 by 2 board with 1 mine, a click on tile 1, every draw 0: the mine ends on tile 0, next to the click. | The first click's tile and all its neighbours are mine-free. | not executed | Shuffle.RawShuffleCanMineNeighbour | Shuffle.SafeShuffleCorrect |
| src/main.c:193-218 | An off-board click converts to -1. The left click in the not-started stage skips the shuffle but still calls `RevealTile(-1)`, and during play it calls it too. The right click calls `FlagTile(-1)` in every stage. Both read and write `tiles[-1]`. | A click whose offset from `startPos` is (-5, 40). | Off-board clicks are ignored. | not executed | Play.OffBoardClickReachesTile | Play.GuardedClickOnBoard |
| src/main.c:482-514 | The flood also stops once ten dequeues in a row queue nothing (`loop` counts down from 10), even with tiles still queued. | A 16 by 12 board with mines at (5,2), (2,5), (3,1), (6,4) and (4,6), clicked at (4,4): after (4,4) and (3,3) are expanded, the ten numbered tiles queued before (2,3) use up the countdown, so (2,3) is shown but never expanded and its mine-free neighbour (1,3), reached from the click through tiles with no adjacent mine, stays hidden. | The flood uncovers every tile reached from the click through tiles with no adjacent mine. | not executed | FloodStall.FloodStopsEarly | Engine.Grid.RevealRegion |
