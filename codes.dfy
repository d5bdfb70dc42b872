/** Tile codes shared by the visible layer (`tiles`) and the hidden layer
    (`content`, the source's `map`).  Both layers hold small integers; the
    hidden layer uses REVEALED for an empty tile, BOMB for a mine and
    NumTile(k) for a tile with k neighbouring mines, so that revealing a
    tile is a plain copy from the hidden layer to the visible one. */
module Codes {
  const UNGENERATED := -1
  const UNREVEALED := 0
  const REVEALED := 1
  const FLAG := 2
  const QUESTION_UNREVEALED := 3
  const QUESTION_REVEALED := 4
  const BOMB := 5
  const BOMB_RED := 6
  const BOMB_CROSS := 7

  /** The code of a numbered tile with `n` neighbouring mines. */
  function NumTile(n: int): int
  {
    7 + n
  }

  /** The codes the hidden layer may hold once the board has been reset:
      empty, mine, or a number 1..8. */
  predicate IsContentCode(c: int)
  {
    c == REVEALED || c == BOMB || (NumTile(1) <= c <= NumTile(8))
  }

  /** A hidden layer: every entry is a hidden-layer code. */
  predicate ContentLayer(s: seq<int>)
  {
    forall k :: 0 <= k < |s| ==> IsContentCode(s[k])
  }

  /** The visible codes of a revealed safe tile: empty or a number. */
  predicate Shown(c: int)
  {
    c == REVEALED || (NumTile(1) <= c <= NumTile(8))
  }

  /** The visible codes that the flag counter accounts for: a flag, or a
      flag the loss display has crossed out. */
  predicate Flagged(c: int)
  {
    c == FLAG || c == BOMB_CROSS
  }

  /** A number tile never collides with any other code, so the number pass
      can write numbers in place without creating or hiding a mine. */
  lemma NumTileDistinct(n: int)
    requires 1 <= n <= 9
    ensures NumTile(n) != BOMB && NumTile(n) != REVEALED && NumTile(n) != UNREVEALED
    ensures NumTile(n) != FLAG && NumTile(n) != BOMB_CROSS && NumTile(n) != BOMB_RED
  {
  }
}
