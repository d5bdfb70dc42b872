/** Mine counting over a hidden layer: the neighbourhood count the engine
    computes slot by slot, and the same count stated by coordinates. */
module Board {
  import opened Codes
  import opened Geometry

  /** `m` is a hidden (or visible) layer of a `w` by `h` board. */
  predicate IsLayer(m: seq<int>, w: int, h: int)
  {
    ValidDims(w, h) && |m| == w * h
  }

  /** A layer fresh from a reset and a shuffle: only mines and empty tiles. */
  predicate Unnumbered(m: seq<int>)
  {
    forall k :: 0 <= k < |m| ==> m[k] == BOMB || m[k] == REVEALED
  }

  /** Slot `j` of tile `t` is on the board and holds a mine. */
  predicate SlotHasBomb(m: seq<int>, w: int, h: int, t: int, j: int)
    requires IsLayer(m, w, h) && 0 <= t < |m| && 0 <= j < 9
  {
    SlotValid(w, h, t, j) && (SlotOnBoard(w, h, t, j); m[SlotPos(w, t, j)] == BOMB)
  }

  /** Mines in slots `j..8` of tile `t`. */
  function BombsFrom(m: seq<int>, w: int, h: int, t: int, j: nat): (c: nat)
    requires IsLayer(m, w, h) && 0 <= t < |m| && j <= 9
    ensures c <= 9 - j
    decreases 9 - j
  {
    if j == 9 then 0
    else (if SlotHasBomb(m, w, h, t, j) then 1 else 0) + BombsFrom(m, w, h, t, j + 1)
  }

  /** `GetSurroundingBombCount`: mines in the 3x3 neighbourhood of `t`,
      the tile itself included. */
  function BombsAround(m: seq<int>, w: int, h: int, t: int): (c: nat)
    requires IsLayer(m, w, h) && 0 <= t < |m|
  {
    BombsFrom(m, w, h, t, 0)
  }

  /** The mines of a layer. */
  function BombSet(m: seq<int>): set<int>
  {
    set k | 0 <= k < |m| && m[k] == BOMB
  }

  /** The mines within one row and one column of `t`, by coordinates. */
  function NearBombs(m: seq<int>, w: int, t: int): set<int>
  {
    set n | 0 <= n < |m| && Near(w, t, n) && m[n] == BOMB
  }

  /** The tiles that slots `j..8` of `t` name and that hold a mine. */
  function SlotBombs(m: seq<int>, w: int, h: int, t: int, j: nat): set<int>
    requires IsLayer(m, w, h) && 0 <= t < |m| && j <= 9
  {
    set k | j <= k < 9 && SlotHasBomb(m, w, h, t, k) :: SlotPos(w, t, k)
  }

  lemma {:induction false} BombsFromCounts(m: seq<int>, w: int, h: int, t: int, j: nat)
    requires IsLayer(m, w, h) && 0 <= t < |m| && j <= 9
    ensures BombsFrom(m, w, h, t, j) == |SlotBombs(m, w, h, t, j)|
    decreases 9 - j
  {
    if j == 9 {
      assert SlotBombs(m, w, h, t, j) == {};
    } else {
      BombsFromCounts(m, w, h, t, j + 1);
      SlotBombsSplit(m, w, h, t, j);
    }
  }

  /** Slot `j` adds its own tile, when it holds a mine, to the tiles of the
      later slots, none of which is the same tile. */
  lemma {:induction false} SlotBombsSplit(m: seq<int>, w: int, h: int, t: int, j: nat)
    requires IsLayer(m, w, h) && 0 <= t < |m| && j < 9
    ensures SlotHasBomb(m, w, h, t, j) ==>
              SlotBombs(m, w, h, t, j) == SlotBombs(m, w, h, t, j + 1) + {SlotPos(w, t, j)} &&
              SlotPos(w, t, j) !in SlotBombs(m, w, h, t, j + 1)
    ensures !SlotHasBomb(m, w, h, t, j) ==> SlotBombs(m, w, h, t, j) == SlotBombs(m, w, h, t, j + 1)
  {
    if SlotHasBomb(m, w, h, t, j) {
      forall k | j + 1 <= k < 9 && SlotHasBomb(m, w, h, t, k)
        ensures SlotPos(w, t, k) != SlotPos(w, t, j)
      {
        SlotsDistinct(w, h, t, j, k);
      }
    }
  }

  /** The count the engine computes is the number of mines within one row
      and one column of the tile (the tile included). */
  lemma {:induction false} BombsAroundExact(m: seq<int>, w: int, h: int, t: int)
    requires IsLayer(m, w, h) && 0 <= t < |m|
    ensures BombsAround(m, w, h, t) == |NearBombs(m, w, t)|
  {
    BombsFromCounts(m, w, h, t, 0);
    var slots, near := SlotBombs(m, w, h, t, 0), NearBombs(m, w, t);
    forall n | n in slots ensures n in near {
      var j :| 0 <= j < 9 && SlotHasBomb(m, w, h, t, j) && SlotPos(w, t, j) == n;
      SlotInRange(w, h, t, j);
      SlotsAreNeighbourhood(w, h, t, n);
    }
    forall n | n in near ensures n in slots {
      SlotsAreNeighbourhood(w, h, t, n);
      var j :| 0 <= j < 9 && SlotValid(w, h, t, j) && SlotPos(w, t, j) == n;
      assert SlotHasBomb(m, w, h, t, j);
    }
    assert slots == near;
  }

  /** Mines adjacent to `t`, the tile itself excluded. */
  function AdjacentBombs(m: seq<int>, w: int, t: int): set<int>
  {
    set n | 0 <= n < |m| && n != t && Near(w, t, n) && m[n] == BOMB
  }

  /** For a tile that is not a mine, the 3x3 count is its number of
      adjacent mines, at most 8. */
  lemma {:induction false} AroundSafeTile(m: seq<int>, w: int, h: int, t: int)
    requires IsLayer(m, w, h) && 0 <= t < |m| && m[t] != BOMB
    ensures BombsAround(m, w, h, t) == |AdjacentBombs(m, w, t)| <= 8
  {
    BombsAroundExact(m, w, h, t);
    assert AdjacentBombs(m, w, t) == NearBombs(m, w, t);
    assert !SlotHasBomb(m, w, h, t, 4) by {
      CoordinatesOf(w, h, t);
    }
    assert BombsFrom(m, w, h, t, 4) == BombsFrom(m, w, h, t, 5);
  }

  /** Layers with the same mines have the same neighbourhood counts. */
  lemma {:induction false} SameBombsSameCounts(m1: seq<int>, m2: seq<int>, w: int, h: int, t: int, j: nat)
    requires IsLayer(m1, w, h) && IsLayer(m2, w, h) && 0 <= t < |m1| && j <= 9
    requires forall k :: 0 <= k < |m1| ==> (m1[k] == BOMB <==> m2[k] == BOMB)
    ensures BombsFrom(m1, w, h, t, j) == BombsFrom(m2, w, h, t, j)
    decreases 9 - j
  {
    if j < 9 {
      SameBombsSameCounts(m1, m2, w, h, t, j + 1);
      if SlotValid(w, h, t, j) {
        SlotInRange(w, h, t, j);
        var p := SlotPos(w, t, j);
        assert m1[p] == BOMB <==> m2[p] == BOMB;
      }
    }
  }

  /** The tiles that the valid slots `j..8` of `t` name. */
  function SlotTiles(w: int, h: int, t: int, j: nat): set<int>
    requires ValidDims(w, h) && 0 <= t < w * h && j <= 9
  {
    set k | j <= k < 9 && SlotValid(w, h, t, k) :: SlotPos(w, t, k)
  }

  lemma {:induction false} SlotTilesBound(w: int, h: int, t: int, j: nat)
    requires ValidDims(w, h) && 0 <= t < w * h && j <= 9
    ensures |SlotTiles(w, h, t, j)| <= 9 - j
    decreases 9 - j
  {
    if j == 9 {
      assert SlotTiles(w, h, t, j) == {};
    } else {
      SlotTilesBound(w, h, t, j + 1);
      var rest := SlotTiles(w, h, t, j + 1);
      if SlotValid(w, h, t, j) {
        assert SlotTiles(w, h, t, j) == rest + {SlotPos(w, t, j)};
      } else {
        assert SlotTiles(w, h, t, j) == rest;
      }
    }
  }

  /** The 3x3 neighbourhood of `t` on a board of `len` tiles. */
  function Zone(len: int, w: int, t: int): set<int>
  {
    set n | 0 <= n < len && Near(w, t, n)
  }

  /** The neighbourhood of a tile has at most nine tiles, the tile itself
      among them. */
  lemma {:induction false} ZoneSize(w: int, h: int, t: int)
    requires ValidDims(w, h) && 0 <= t < w * h
    ensures t in Zone(w * h, w, t) && |Zone(w * h, w, t)| <= 9
  {
    var z, s := Zone(w * h, w, t), SlotTiles(w, h, t, 0);
    forall n | n in z ensures n in s {
      SlotsAreNeighbourhood(w, h, t, n);
    }
    SlotTilesBound(w, h, t, 0);
    assert s == z + (s - z);
    assert |s| == |z| + |s - z|;
  }

  /** A zero count means no slot holds a mine. */
  lemma {:induction false} ZeroAroundNoBombs(m: seq<int>, w: int, h: int, t: int, j: nat, k: int)
    requires IsLayer(m, w, h) && 0 <= t < |m| && j <= k < 9 && BombsFrom(m, w, h, t, j) == 0
    ensures !SlotHasBomb(m, w, h, t, k)
    decreases 9 - j
  {
    if j < k {
      ZeroAroundNoBombs(m, w, h, t, j + 1, k);
    }
  }
}
