/** The first-click mine shuffle, as the source writes it (`RawShuffle`) and
    as it is evidently meant to behave (`SafeShuffle`), on the hidden layer
    as a sequence.  Randomness is a caller-supplied sequence of `rand()`
    values: the draw used while the cursor is at `i` is `draws[i]`. */
module Shuffle {
  import opened Codes
  import opened Geometry
  import opened Board
  import opened Tally

  /** Exchange two entries. */
  function Swap(m: seq<int>, a: int, b: int): (r: seq<int>)
    requires 0 <= a < |m| && 0 <= b < |m|
    ensures |r| == |m| && r[a] == m[b] && r[b] == m[a]
    ensures forall k :: 0 <= k < |m| && k != a && k != b ==> r[k] == m[k]
  {
    m[a := m[b]][b := m[a]]
  }

  lemma {:induction false} SwapPermutes(m: seq<int>, a: int, b: int)
    requires 0 <= a < |m| && 0 <= b < |m|
    ensures multiset(Swap(m, a, b)) == multiset(m)
  {
  }

  /** Number of mines in a layer. */
  function BombCount(m: seq<int>): nat
  {
    multiset(m)[BOMB]
  }

  /** The layer `InitMap` leaves: mines in the first `bombs` tiles, every
      other tile empty. */
  function InitLayout(len: nat, bombs: nat): (m: seq<int>)
    requires bombs <= len
  {
    seq(len, k => if k < bombs then BOMB else REVEALED)
  }

  /** The reset's mine count, `(int)(2.35 * sqrt(len))`, in exact integer
      arithmetic: the largest `b` with `b <= 2.35 * sqrt(len)`, that is with
      `400 * b * b <= 2209 * len`. */
  function MineQuota(len: nat): (b: nat)
    ensures 400 * (b * b) <= 2209 * len < 400 * ((b + 1) * (b + 1))
  {
    QuotaFrom(len, 0)
  }

  function QuotaFrom(len: nat, b: nat): (r: nat)
    requires 400 * (b * b) <= 2209 * len
    ensures 400 * (r * r) <= 2209 * len < 400 * ((r + 1) * (r + 1))
    decreases 2209 * len - 400 * (b * b)
  {
    SquareNext(b);
    if 400 * ((b + 1) * (b + 1)) <= 2209 * len then QuotaFrom(len, b + 1) else b
  }

  lemma {:induction false} SquareNext(b: int)
    ensures (b + 1) * (b + 1) == b * b + 2 * b + 1
  {
  }

  lemma {:induction false} SquareMono(a: nat, b: nat)
    ensures a <= b ==> a * a <= b * b
  {
    if a <= b {
      assert a * a <= a * b <= b * b;
    }
  }

  /** From four tiles on, the quota fits on the board. */
  lemma {:induction false} MineQuotaFits(len: nat)
    requires len >= 4
    ensures MineQuota(len) <= len
  {
    var b := MineQuota(len);
    SquareMono(len + 1, b);
    SquareNext(len);
    MulMono(4, len, len);
  }

  lemma {:induction false} MulMono(a: nat, b: nat, c: nat)
    ensures a <= b ==> a * c <= b * c
  {
  }

  /** On the game's 16 by 12 board the reset places 32 mines, which leaves
      more than nine free tiles. */
  lemma {:induction false} GameBoardQuota()
    ensures MineQuota(16 * 12) == 32
  {
    var b := MineQuota(192);
    SquareMono(b + 1, 32);
    SquareMono(33, b);
  }

  lemma {:induction false} BombCountIsCard(m: seq<int>)
    ensures |BombSet(m)| == BombCount(m)
    decreases |m|
  {
    if m != [] {
      var n := |m| - 1;
      BombCountIsCard(m[..n]);
      assert BombCount(m) == BombCount(m[..n]) + (if m[n] == BOMB then 1 else 0) by {
        assert m == m[..n] + [m[n]];
        assert multiset(m) == multiset(m[..n]) + multiset{m[n]};
      }
      if m[n] == BOMB {
        assert BombSet(m) == BombSet(m[..n]) + {n};
      } else {
        assert BombSet(m) == BombSet(m[..n]);
      }
    }
  }

  lemma {:induction false} InitLayoutCodes(len: nat, bombs: nat)
    requires bombs <= len
    ensures ContentLayer(InitLayout(len, bombs))
    ensures Unnumbered(InitLayout(len, bombs))
  {
  }

  lemma {:induction false} InitLayoutBombs(len: nat, bombs: nat)
    requires bombs <= len
    ensures BombCount(InitLayout(len, bombs)) == bombs
    ensures ContentLayer(InitLayout(len, bombs))
  {
    var m := InitLayout(len, bombs);
    BombCountIsCard(m);
    assert BombSet(m) == RangeSet(bombs);
  }

  // ---------------------------------------------------------------------
  // The shuffle as written

  /** `o` in the source: how far below the end the Fisher-Yates pass
      starts, chosen from how many diagonal neighbours of the click lie on
      the board (10 by default, 7 when exactly one does, 5 when two do).
      On a board at least two tiles wide and high that is 10 inside the
      board, 7 in a corner and 5 elsewhere on the rim; the pass then
      spares the last `o - 1` entries: 9, 6 or 4. */
  function Offset(w: int, h: int, t: int): (o: int)
    requires w >= 1
    ensures o == 5 || o == 7 || o == 10
    ensures 0 <= t < w * h && 0 < t % w < w - 1 && 0 < t / w < h - 1 ==> o == 10
    ensures (0 <= t < w * h && w >= 2 && h >= 2 &&
             (t % w == 0 || t % w == w - 1) && (t / w == 0 || t / w == h - 1)) ==> o == 7
    ensures (0 <= t < w * h && w >= 2 && h >= 2 &&
             ((t % w == 0 || t % w == w - 1) != (t / w == 0 || t / w == h - 1))) ==> o == 5
  {
    var x, y := t % w, t / w;
    var edgeCount :=
      (if XYInBounds(w, h, x + 1, y + 1) then 1 else 0) +
      (if XYInBounds(w, h, x - 1, y + 1) then 1 else 0) +
      (if XYInBounds(w, h, x - 1, y - 1) then 1 else 0) +
      (if XYInBounds(w, h, x + 1, y - 1) then 1 else 0);
    if edgeCount == 1 then 7 else if edgeCount == 2 then 5 else 10
  }

  /** The Fisher-Yates pass: for the cursor `i` going down to 1, swap entry
      `i` with entry `draws[i] % i`.  It permutes the layer and never
      touches an entry above the starting cursor. */
  function FisherYates(m: seq<int>, draws: seq<nat>, i: int): (r: seq<int>)
    requires i < |m| && i < |draws|
    ensures |r| == |m|
    ensures forall k :: i < k < |m| && 0 <= k ==> r[k] == m[k]
    decreases i
  {
    if i <= 0 then m else FisherYates(Swap(m, draws[i] % i, i), draws, i - 1)
  }

  /** The source's list of the click's neighbours, by raw offsets:
      self, up-left, up, up-right, left, right, down-left, down, down-right.
      These are only checked against `[0, len)`, so the left and right
      offsets of a tile at the end of a row name a tile of the next or
      previous row. */
  function RawNeighbour(w: int, t: int, j: int): int
  {
    if j == 0 then t
    else if j == 1 then t - w - 1
    else if j == 2 then t - w
    else if j == 3 then t - w + 1
    else if j == 4 then t - 1
    else if j == 5 then t + 1
    else if j == 6 then t + w - 1
    else if j == 7 then t + w
    else t + w + 1
  }

  /** The tail swaps for slots `j..8`: every raw neighbour that is a valid
      index trades places with entry `len - (j + 1)`. */
  function TailSwaps(m: seq<int>, w: int, t: int, j: nat): (r: seq<int>)
    requires 9 <= |m| && j <= 9
    ensures |r| == |m|
    decreases 9 - j
  {
    if j == 9 then m else TailSwaps(TailStep(m, w, t, j), w, t, j + 1)
  }

  /** Tail slot `j`: the raw neighbour, when it is a valid index, trades
      places with entry `len - (j + 1)`. */
  function TailStep(m: seq<int>, w: int, t: int, j: nat): (r: seq<int>)
    requires 9 <= |m| && j < 9
    ensures |r| == |m|
  {
    var n := RawNeighbour(w, t, j);
    if TileInBounds(|m|, n) then Swap(m, |m| - (j + 1), n) else m
  }

  /** `ShuffleMap` as written: the Fisher-Yates pass from `len - o` down,
      then the tail swaps. */
  function RawShuffle(m: seq<int>, w: int, h: int, t: int, draws: seq<nat>): seq<int>
    requires IsLayer(m, w, h) && 9 <= |m| && 0 <= t < |m| && |draws| >= |m|
  {
    TailSwaps(FisherYates(m, draws, |m| - Offset(w, h, t)), w, t, 0)
  }

  lemma {:induction false} FisherYatesPermutes(m: seq<int>, draws: seq<nat>, i: int)
    requires i < |m| && i < |draws|
    ensures multiset(FisherYates(m, draws, i)) == multiset(m)
    decreases i
  {
    if i > 0 {
      var m' := Swap(m, draws[i] % i, i);
      assert multiset(m') == multiset(m) by {
        SwapPermutes(m, draws[i] % i, i);
      }
      FisherYatesPermutes(m', draws, i - 1);
    }
  }

  lemma {:induction false} TailSwapsPermute(m: seq<int>, w: int, t: int, j: nat)
    requires 9 <= |m| && j <= 9
    ensures multiset(TailSwaps(m, w, t, j)) == multiset(m)
    decreases 9 - j
  {
    if j < 9 {
      TailStepPermutes(m, w, t, j);
      TailSwapsPermute(TailStep(m, w, t, j), w, t, j + 1);
    }
  }

  /** The first `j` tail slots applied in order. */
  function TailPrefix(m: seq<int>, w: int, t: int, j: nat): (r: seq<int>)
    requires 9 <= |m| && j <= 9
    ensures |r| == |m|
  {
    if j == 0 then m else TailStep(TailPrefix(m, w, t, j - 1), w, t, j - 1)
  }

  /** Applying the first `j` slots and then the rest is the whole tail
      loop. */
  lemma {:induction false} TailPrefixThenRest(m: seq<int>, w: int, t: int, j: nat)
    requires 9 <= |m| && j <= 9
    ensures TailSwaps(TailPrefix(m, w, t, j), w, t, j) == TailSwaps(m, w, t, 0)
  {
    if j > 0 {
      TailPrefixThenRest(m, w, t, j - 1);
      TailSwapsStep(TailPrefix(m, w, t, j - 1), w, t, j - 1);
    }
  }

  /** All nine slots applied in order are the tail loop. */
  lemma {:induction false} TailPrefixComplete(m: seq<int>, w: int, t: int)
    requires 9 <= |m|
    ensures TailPrefix(m, w, t, 9) == TailSwaps(m, w, t, 0)
  {
    TailPrefixThenRest(m, w, t, 9);
  }

  /** One tail slot only trades two entries. */
  lemma TailStepPermutes(m: seq<int>, w: int, t: int, j: nat)
    requires 9 <= |m| && j < 9
    ensures multiset(TailStep(m, w, t, j)) == multiset(m)
  {
    var n := RawNeighbour(w, t, j);
    if TileInBounds(|m|, n) {
      SwapPermutes(m, |m| - (j + 1), n);
    }
  }

  /** The shuffle only moves entries: the layer is a permutation of the
      input, so the number of mines is unchanged. */
  lemma {:induction false} RawShuffleConservesMines(m: seq<int>, w: int, h: int, t: int, draws: seq<nat>)
    requires IsLayer(m, w, h) && 9 <= |m| && 0 <= t < |m| && |draws| >= |m|
    ensures multiset(RawShuffle(m, w, h, t, draws)) == multiset(m)
    ensures BombCount(RawShuffle(m, w, h, t, draws)) == BombCount(m)
  {
    var i := |m| - Offset(w, h, t);
    var r := TailSwaps(FisherYates(m, draws, i), w, t, 0);
    assert RawShuffle(m, w, h, t, draws) == r;
    PassesPermute(m, draws, w, t, i);
  }

  /** Both passes, from any starting cursor, only move entries. */
  lemma {:induction false} PassesPermute(m: seq<int>, draws: seq<nat>, w: int, t: int, i: int)
    requires 9 <= |m| && i < |m| && i < |draws|
    ensures multiset(TailSwaps(FisherYates(m, draws, i), w, t, 0)) == multiset(m)
  {
    FisherYatesPermutes(m, draws, i);
    TailSwapsPermute(FisherYates(m, draws, i), w, t, 0);
  }

  /** A tile that no tail swap from slot `j` on names keeps its entry. */
  lemma {:induction false} TailSwapsKeep(m: seq<int>, w: int, t: int, j: nat, p: int)
    requires 9 <= |m| && j <= 9 && 0 <= p < |m|
    requires p < |m| - 9 || |m| - (j + 1) < p
    requires forall k :: j <= k < 9 ==> p != RawNeighbour(w, t, k)
    ensures TailSwaps(m, w, t, j)[p] == m[p]
    decreases 9 - j
  {
    if j < 9 {
      var m' := TailStep(m, w, t, j);
      assert m'[p] == m[p];
      TailSwapsKeep(m', w, t, j + 1, p);
    }
  }

  /** What the code does guarantee: the clicked tile receives the last
      entry of the layer, which the Fisher-Yates pass never touches, as
      long as the board is at least two tiles wide and the click is not one
      of the tiles `len-9 .. len-2` that later tail swaps overwrite. */
  lemma {:induction false} ClickedTileGetsLastEntry(m: seq<int>, w: int, h: int, t: int, draws: seq<nat>)
    requires IsLayer(m, w, h) && 9 <= |m| && 0 <= t < |m| && |draws| >= |m|
    requires w >= 2 && !(|m| - 9 <= t <= |m| - 2)
    ensures RawShuffle(m, w, h, t, draws)[t] == m[|m| - 1]
  {
    LastEntryThroughPasses(m, draws, w, t, |m| - Offset(w, h, t));
  }

  /** Whatever cursor the Fisher-Yates pass starts from below the last
      entry, the passes hand that entry to the click. */
  lemma {:induction false} LastEntryThroughPasses(m: seq<int>, draws: seq<nat>, w: int, t: int, i: int)
    requires 9 <= |m| && 0 <= t < |m| && i < |m| - 1 && i < |draws|
    requires w >= 2 && !(|m| - 9 <= t <= |m| - 2)
    ensures TailSwaps(FisherYates(m, draws, i), w, t, 0)[t] == m[|m| - 1]
  {
    var fy := FisherYates(m, draws, i);
    var v := m[|m| - 1];
    assert fy[|m| - 1] == v;
    LastEntryToClick(fy, w, t);
    assert TailSwaps(fy, w, t, 0)[t] == v;
  }

  /** The tail swaps hand the last entry to the click and leave it there. */
  lemma {:induction false} LastEntryToClick(m: seq<int>, w: int, t: int)
    requires 9 <= |m| && 0 <= t < |m|
    requires w >= 2 && !(|m| - 9 <= t <= |m| - 2)
    ensures TailSwaps(m, w, t, 0)[t] == m[|m| - 1]
  {
    var s := Swap(m, |m| - 1, t);
    assert TailSwaps(m, w, t, 0) == TailSwaps(s, w, t, 1);
    forall k | 1 <= k < 9 ensures t != RawNeighbour(w, t, k) {
      RawNeighbourMoves(w, t, k);
    }
    TailSwapsKeep(s, w, t, 1, t);
  }

  /** On a board at least two wide, no raw neighbour but the first is the
      click itself. */
  lemma {:induction false} RawNeighbourMoves(w: int, t: int, k: int)
    requires w >= 2 && 1 <= k < 9
    ensures RawNeighbour(w, t, k) != t
  {
  }

  /** So after a reset with fewer mines than tiles, the clicked tile is
      safe under the same conditions. */
  lemma {:induction false} ClickedTileSafe(len: nat, bombs: nat, w: int, h: int, t: int, draws: seq<nat>)
    requires ValidDims(w, h) && len == w * h && 9 <= len && bombs < len
    requires 0 <= t < len && |draws| >= len
    requires w >= 2 && !(len - 9 <= t <= len - 2)
    ensures RawShuffle(InitLayout(len, bombs), w, h, t, draws)[t] != BOMB
  {
    ClickedTileGetsLastEntry(InitLayout(len, bombs), w, h, t, draws);
  }

  /** Swapping two equal entries changes nothing. */
  lemma {:induction false} SwapEqual(m: seq<int>, a: int, b: int)
    requires 0 <= a < |m| && 0 <= b < |m| && m[a] == m[b]
    ensures Swap(m, a, b) == m
  {
  }

  /** A Fisher-Yates pass over a prefix of equal entries changes nothing. */
  lemma {:induction false} FisherYatesUniform(m: seq<int>, draws: seq<nat>, i: int)
    requires i < |m| && i < |draws|
    requires forall k :: 0 <= k <= i ==> m[k] == m[0]
    ensures FisherYates(m, draws, i) == m
    decreases i
  {
    if i > 0 {
      SwapEqual(m, draws[i] % i, i);
      FisherYatesUniform(m, draws, i - 1);
    }
  }

  /** One Fisher-Yates step. */
  lemma {:induction false} FisherYatesStep(m: seq<int>, draws: seq<nat>, i: int)
    requires 0 < i < |m| && i < |draws|
    ensures FisherYates(m, draws, i) == FisherYates(Swap(m, draws[i] % i, i), draws, i - 1)
  {
  }

  /** One tail-swap slot. */
  lemma {:induction false} TailSwapsStep(m: seq<int>, w: int, t: int, j: nat)
    requires 9 <= |m| && j < 9
    ensures TailSwaps(m, w, t, j) == TailSwaps(TailStep(m, w, t, j), w, t, j + 1)
  {
  }

  /** The code does not keep the whole 3x3 neighbourhood free: on a 5 by 2
      board with one mine, a click on tile 1 (an edge tile, so `o` is 5 and
      only four tail entries are spared) and every draw 0, the mine lands
      on tile 0, next to the click, although nine mine-free tiles exist. */
  lemma {:induction false} RawShuffleCanMineNeighbour()
    ensures var m := InitLayout(10, 1);
            BombCount(m) + 9 <= |m| && Near(5, 1, 0) &&
            RawShuffle(m, 5, 2, 1, seq(10, k => 0))[0] == BOMB
  {
    var m := InitLayout(10, 1);
    InitLayoutBombs(10, 1);
    var draws := seq(10, k => 0);
    var fy := CounterexampleFisherYates(m, draws);
    var s4 := CounterexampleTailSwaps(fy);
    // Slots 5..8 trade entries 4..1 with entries 2, 5, 6 and 7, none of
    // which is tile 0, so entry 0 keeps the mine.
    TailSwapsKeep(s4, 5, 1, 5, 0);
  }

  /** With every draw 0 the first Fisher-Yates step moves the mine from
      entry 0 to entry 5, and the remaining steps swap empty tiles only. */
  lemma {:induction false} CounterexampleFisherYates(m: seq<int>, draws: seq<nat>) returns (fy: seq<int>)
    requires m == InitLayout(10, 1) && draws == seq(10, k => 0)
    ensures Offset(5, 2, 1) == 5
    ensures fy == FisherYates(m, draws, 5)
    ensures fy == [REVEALED, REVEALED, REVEALED, REVEALED, REVEALED, BOMB, REVEALED, REVEALED, REVEALED, REVEALED]
  {
    assert draws[5] % 5 == 0;
    fy := Swap(m, 0, 5);
    assert fy == [REVEALED, REVEALED, REVEALED, REVEALED, REVEALED, BOMB, REVEALED, REVEALED, REVEALED, REVEALED];
    FisherYatesUniform(fy, draws, 4);
  }

  /** Slot 0 swaps entry 9 with the click (both empty), slots 1..3 are off
      the board, and slot 4 (raw left neighbour 0) trades with entry 5,
      which holds the mine. */
  lemma {:induction false} CounterexampleTailSwaps(fy: seq<int>) returns (s4: seq<int>)
    requires fy == [REVEALED, REVEALED, REVEALED, REVEALED, REVEALED, BOMB, REVEALED, REVEALED, REVEALED, REVEALED]
    ensures s4 == [BOMB, REVEALED, REVEALED, REVEALED, REVEALED, REVEALED, REVEALED, REVEALED, REVEALED, REVEALED]
    ensures TailSwaps(fy, 5, 1, 0) == TailSwaps(s4, 5, 1, 5)
  {
    assert RawNeighbour(5, 1, 0) == 1 && TileInBounds(10, 1);
    TailSwapsStep(fy, 5, 1, 0);
    SwapEqual(fy, 9, 1);
    assert TailSwaps(fy, 5, 1, 0) == TailSwaps(fy, 5, 1, 1);
    CounterexampleOffBoard(fy);
    assert RawNeighbour(5, 1, 4) == 0 && TileInBounds(10, 0);
    TailSwapsStep(fy, 5, 1, 4);
    s4 := Swap(fy, 5, 0);
  }

  /** Slots 1..3 of a click on the top row name negative indices and are
      skipped. */
  lemma {:induction false} CounterexampleOffBoard(fy: seq<int>)
    requires |fy| == 10
    ensures TailSwaps(fy, 5, 1, 1) == TailSwaps(fy, 5, 1, 4)
  {
    assert RawNeighbour(5, 1, 1) == -5 && RawNeighbour(5, 1, 2) == -4 && RawNeighbour(5, 1, 3) == -3;
    TailSwapsStep(fy, 5, 1, 1);
    TailSwapsStep(fy, 5, 1, 2);
    TailSwapsStep(fy, 5, 1, 3);
  }

  // ---------------------------------------------------------------------
  // The shuffle as intended

  /** The first tile from `i` on that lies outside the neighbourhood of
      `t` and holds no mine, or -1 when there is none. */
  function FirstFree(m: seq<int>, w: int, t: int, i: nat): (r: int)
    ensures r == -1 || (i <= r < |m| && !Near(w, t, r) && m[r] != BOMB)
    decreases |m| - i
  {
    if i >= |m| then -1
    else if !Near(w, t, i) && m[i] != BOMB then i
    else FirstFree(m, w, t, i + 1)
  }

  /** The search fails only when every tile from `i` on is in the
      neighbourhood or holds a mine. */
  lemma {:induction false} FirstFreeMisses(m: seq<int>, w: int, t: int, i: nat)
    ensures FirstFree(m, w, t, i) == -1 <==> forall f :: i <= f < |m| ==> Near(w, t, f) || m[f] == BOMB
    decreases |m| - i
  {
    if i < |m| {
      FirstFreeMisses(m, w, t, i + 1);
    }
  }

  /** One relocation step at tile `k`: a mine in the neighbourhood of `t`
      trades places with the first free tile outside it, if there is one. */
  function RelocateOne(m: seq<int>, w: int, t: int, k: nat): (r: seq<int>)
    requires k < |m|
    ensures |r| == |m|
  {
    var f := FirstFree(m, w, t, 0);
    if Near(w, t, k) && m[k] == BOMB && f != -1 then Swap(m, k, f) else m
  }

  /** For the tiles from `k` on, one relocation step each. */
  function Relocate(m: seq<int>, w: int, t: int, k: nat): (r: seq<int>)
    requires k <= |m|
    ensures |r| == |m|
    decreases |m| - k
  {
    if k == |m| then m else Relocate(RelocateOne(m, w, t, k), w, t, k + 1)
  }

  /** `ShuffleMap` as intended: the same shuffle, after which no mine is
      left in the 3x3 neighbourhood of the first click. */
  function SafeShuffle(m: seq<int>, w: int, h: int, t: int, draws: seq<nat>): (r: seq<int>)
    requires IsLayer(m, w, h) && 9 <= |m| && 0 <= t < |m| && |draws| >= |m|
    ensures |r| == |m|
  {
    Relocate(RawShuffle(m, w, h, t, draws), w, t, 0)
  }

  /** When a neighbourhood tile holds a mine and there are at least nine
      more tiles than mines, some tile outside the neighbourhood is free. */
  lemma {:induction false} FreeTileExists(m: seq<int>, w: int, h: int, t: int, k: int)
    requires IsLayer(m, w, h) && 0 <= t < |m| && BombCount(m) + 9 <= |m|
    requires 0 <= k < |m| && Near(w, t, k) && m[k] == BOMB
    ensures FirstFree(m, w, t, 0) != -1
  {
    var outside := Outside(m, w, t);
    OutsideSize(m, w, h, t);
    var others := BombSet(m) - {k};
    BombCountIsCard(m);
    assert k in BombSet(m);
    SubsetSize(outside, others);
    FirstFreeMisses(m, w, t, 0);
  }

  /** The tiles outside the neighbourhood of `t`. */
  function Outside(m: seq<int>, w: int, t: int): set<int>
  {
    set f | 0 <= f < |m| && !Near(w, t, f)
  }

  lemma {:induction false} OutsideSize(m: seq<int>, w: int, h: int, t: int)
    requires IsLayer(m, w, h) && 0 <= t < |m|
    ensures |Outside(m, w, t)| + 9 >= |m|
  {
    var z, outside := Zone(|m|, w, t), Outside(m, w, t);
    ZoneSize(w, h, t);
    assert outside + z == RangeSet(|m|);
    assert outside * z == {};
  }

  /** A relocation step only moves entries. */
  lemma {:induction false} RelocateOnePermutes(m: seq<int>, w: int, t: int, k: nat)
    requires k < |m|
    ensures multiset(RelocateOne(m, w, t, k)) == multiset(m)
  {
    var f := FirstFree(m, w, t, 0);
    if Near(w, t, k) && m[k] == BOMB && f != -1 {
      SwapPermutes(m, k, f);
    }
  }

  lemma {:induction false} RelocatePermutes(m: seq<int>, w: int, t: int, k: nat)
    requires k <= |m|
    ensures multiset(Relocate(m, w, t, k)) == multiset(m)
    decreases |m| - k
  {
    if k < |m| {
      RelocateOnePermutes(m, w, t, k);
      RelocatePermutes(RelocateOne(m, w, t, k), w, t, k + 1);
    }
  }

  /** Relocation from `k` on, over a layer whose neighbourhood tiles below
      `k` are already clear, clears the whole neighbourhood. */
  lemma {:induction false} RelocateClears(m: seq<int>, w: int, h: int, t: int, k: nat)
    requires IsLayer(m, w, h) && 0 <= t < |m| && BombCount(m) + 9 <= |m| && k <= |m|
    requires forall z :: 0 <= z < k && Near(w, t, z) ==> m[z] != BOMB
    ensures forall z :: 0 <= z < |m| && Near(w, t, z) ==> Relocate(m, w, t, k)[z] != BOMB
    decreases |m| - k
  {
    if k < |m| {
      var f := FirstFree(m, w, t, 0);
      if Near(w, t, k) && m[k] == BOMB {
        FreeTileExists(m, w, h, t, k);
        var m' := Swap(m, k, f);
        assert m' == RelocateOne(m, w, t, k);
        assert Relocate(m, w, t, k) == Relocate(m', w, t, k + 1);
        assert BombCount(m') == BombCount(m) by {
          SwapPermutes(m, k, f);
        }
        assert forall z :: 0 <= z < k + 1 && Near(w, t, z) ==> m'[z] != BOMB;
        RelocateClears(m', w, h, t, k + 1);
      } else {
        assert m == RelocateOne(m, w, t, k);
        assert Relocate(m, w, t, k) == Relocate(m, w, t, k + 1);
        RelocateClears(m, w, h, t, k + 1);
      }
    }
  }

  /** The intended guarantee: the corrected shuffle permutes the layer and,
      when the board has at least nine more tiles than mines, leaves every
      tile within one row and one column of the click free of mines. */
  lemma {:induction false} SafeShuffleCorrect(m: seq<int>, w: int, h: int, t: int, draws: seq<nat>)
    requires IsLayer(m, w, h) && 9 <= |m| && 0 <= t < |m| && |draws| >= |m|
    requires BombCount(m) + 9 <= |m|
    ensures multiset(SafeShuffle(m, w, h, t, draws)) == multiset(m)
    ensures forall n :: 0 <= n < |m| && Near(w, t, n) ==> SafeShuffle(m, w, h, t, draws)[n] != BOMB
  {
    var raw := RawShuffle(m, w, h, t, draws);
    RawShuffleConservesMines(m, w, h, t, draws);
    RelocatePermutes(raw, w, t, 0);
    RelocateClears(raw, w, h, t, 0);
  }
}
