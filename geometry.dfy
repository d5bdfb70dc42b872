/** Board geometry: the bounds predicates, the 3x3 neighbourhood slots the
    engine scans, and the conversion from a click position to a tile. */
module Geometry {

  /** A board is `w` tiles wide and `h` tiles high, with `w*h` tiles stored
      row by row: tile `t` sits at column `t % w`, row `t / w`. */
  predicate ValidDims(w: int, h: int)
  {
    w >= 1 && h >= 1
  }

  /** `XYInBounds`: the coordinate pair names a tile of the board. */
  predicate XYInBounds(w: int, h: int, x: int, y: int)
  {
    x >= 0 && y >= 0 && x < w && y < h
  }

  /** `TileInBounds`: the index names a tile of the board. */
  predicate TileInBounds(len: int, tile: int)
  {
    tile >= 0 && tile < len
  }

  // ---------------------------------------------------------------------
  // Arithmetic on the row-major layout

  lemma {:induction false} MulMonotone(a: int, b: int, w: int)
    requires w >= 1 && a < b
    ensures a * w + w <= b * w
  {
    assert b * w - a * w == (b - a) * w;
    assert (b - a) * w >= w by {
      assert b - a >= 1;
      assert (b - a) * w == w + (b - a - 1) * w;
    }
  }

  /** The row and column of `y * w + x` are `y` and `x` when `0 <= x < w`. */
  lemma {:induction false} RowColumnOf(y: int, x: int, w: int)
    requires w >= 1 && 0 <= x < w
    ensures (y * w + x) / w == y && (y * w + x) % w == x
  {
    var n := y * w + x;
    var q, r := n / w, n % w;
    assert n == q * w + r && 0 <= r < w;
    if q < y {
      MulMonotone(q, y, w);
      assert false;
    } else if y < q {
      MulMonotone(y, q, w);
      assert false;
    }
  }

  /** Every tile index has coordinates on the board, and the index can be
      rebuilt from them; `TileInBounds` agrees with `XYInBounds` on the
      coordinates of a non-negative index. */
  lemma {:induction false} CoordinatesOf(w: int, h: int, t: int)
    requires ValidDims(w, h) && t >= 0
    ensures t == (t / w) * w + t % w && 0 <= t % w < w
    ensures TileInBounds(w * h, t) <==> XYInBounds(w, h, t % w, t / w)
  {
    var x, y := t % w, t / w;
    if y < h {
      MulMonotone(y, h, w);
    } else {
      MulMonotone(h - 1, y, w);
    }
  }

  /** A coordinate pair on the board names an index of the board. */
  lemma {:induction false} IndexOf(w: int, h: int, x: int, y: int)
    requires ValidDims(w, h) && XYInBounds(w, h, x, y)
    ensures 0 <= y * w + x < w * h
    ensures (y * w + x) % w == x && (y * w + x) / w == y
  {
    RowColumnOf(y, x, w);
    MulMonotone(y, h, w);
  }

  // ---------------------------------------------------------------------
  // The nine slots of the 3x3 neighbourhood, in scan order: slot j looks at
  // column offset j % 3 - 1 and row offset j / 3 - 1 (slot 4 is the tile).

  function SlotDx(j: int): int { j % 3 - 1 }
  function SlotDy(j: int): int { j / 3 - 1 }

  /** Slot `j` of tile `t` lies on the board. */
  predicate SlotValid(w: int, h: int, t: int, j: int)
  {
    w >= 1 && XYInBounds(w, h, t % w + SlotDx(j), t / w + SlotDy(j))
  }

  /** The index the engine computes for slot `j` of tile `t`. */
  function SlotPos(w: int, t: int, j: int): int
  {
    t + SlotDx(j) + (if j < 3 then -w else if j < 6 then 0 else w)
  }

  /** The slot's index is the tile's shifted by the slot's column offset
      and its row offset times the width. */
  lemma {:induction false} SlotPosRow(w: int, t: int, j: int)
    requires 0 <= j < 9
    ensures SlotPos(w, t, j) == t + SlotDx(j) + SlotDy(j) * w
  {
  }

  /** A valid slot is a real tile whose coordinates are the tile's shifted
      by the slot's offsets. */
  lemma {:induction false} SlotInRange(w: int, h: int, t: int, j: int)
    requires ValidDims(w, h) && 0 <= t < w * h && 0 <= j < 9
    requires SlotValid(w, h, t, j)
    ensures 0 <= SlotPos(w, t, j) < w * h
    ensures SlotPos(w, t, j) % w == t % w + SlotDx(j)
    ensures SlotPos(w, t, j) / w == t / w + SlotDy(j)
  {
    CoordinatesOf(w, h, t);
    var x, y := t % w + SlotDx(j), t / w + SlotDy(j);
    SlotPosRow(w, t, j);
    assert SlotPos(w, t, j) == y * w + x by {
      assert SlotDy(j) * w + (t / w) * w == (t / w + SlotDy(j)) * w;
    }
    IndexOf(w, h, x, y);
  }

  /** A valid slot names a tile of the board. */
  lemma {:induction false} SlotOnBoard(w: int, h: int, t: int, j: int)
    requires ValidDims(w, h) && 0 <= t < w * h && 0 <= j < 9
    requires SlotValid(w, h, t, j)
    ensures 0 <= SlotPos(w, t, j) < w * h
  {
    SlotInRange(w, h, t, j);
  }

  /** Distinct valid slots name distinct tiles. */
  lemma {:induction false} SlotsDistinct(w: int, h: int, t: int, i: int, j: int)
    requires ValidDims(w, h) && 0 <= t < w * h && 0 <= i < 9 && 0 <= j < 9 && i != j
    requires SlotValid(w, h, t, i) && SlotValid(w, h, t, j)
    ensures SlotPos(w, t, i) != SlotPos(w, t, j)
  {
    SlotInRange(w, h, t, i);
    SlotInRange(w, h, t, j);
    assert SlotDx(i) != SlotDx(j) || SlotDy(i) != SlotDy(j);
  }

  /** Tiles `t` and `n` are within one row and one column of each other
      (the tile itself included): the 3x3 neighbourhood by coordinates. */
  predicate Near(w: int, t: int, n: int)
  {
    w >= 1 && -1 <= n % w - t % w <= 1 && -1 <= n / w - t / w <= 1
  }

  /** The slots cover the coordinate neighbourhood exactly: a valid slot is
      a near tile, and every near tile of the board is some valid slot. */
  lemma {:induction false} SlotsAreNeighbourhood(w: int, h: int, t: int, n: int)
    requires ValidDims(w, h) && 0 <= t < w * h && 0 <= n < w * h
    ensures Near(w, t, n) <==>
            exists j :: 0 <= j < 9 && SlotValid(w, h, t, j) && SlotPos(w, t, j) == n
  {
    if Near(w, t, n) {
      NearIsSlot(w, h, t, n);
      var j := (n % w - t % w + 1) + 3 * (n / w - t / w + 1);
      assert 0 <= j < 9 && SlotValid(w, h, t, j) && SlotPos(w, t, j) == n;
    }
    if exists j :: 0 <= j < 9 && SlotValid(w, h, t, j) && SlotPos(w, t, j) == n {
      CoordinatesOf(w, h, t);
      CoordinatesOf(w, h, n);
      var j :| 0 <= j < 9 && SlotValid(w, h, t, j) && SlotPos(w, t, j) == n;
      SlotInRange(w, h, t, j);
    }
  }

  /** A near tile is the valid slot named by its column and row offsets. */
  lemma {:induction false} NearIsSlot(w: int, h: int, t: int, n: int)
    requires ValidDims(w, h) && 0 <= t < w * h && 0 <= n < w * h && Near(w, t, n)
    ensures var j := (n % w - t % w + 1) + 3 * (n / w - t / w + 1);
            0 <= j < 9 && SlotValid(w, h, t, j) && SlotPos(w, t, j) == n
  {
    CoordinatesOf(w, h, t);
    CoordinatesOf(w, h, n);
    var dx, dy := n % w - t % w, n / w - t / w;
    var j := (dx + 1) + 3 * (dy + 1);
    assert SlotDx(j) == dx && SlotDy(j) == dy;
    assert SlotValid(w, h, t, j);
    SlotInRange(w, h, t, j);
    SlotPosRow(w, t, j);
    assert SlotPos(w, t, j) == (n / w) * w + n % w by {
      assert SlotDy(j) * w + (t / w) * w == (t / w + SlotDy(j)) * w;
    }
  }

  // ---------------------------------------------------------------------
  // Click position to tile

  /** `PixelToGrid` over integer pixel offsets from the board's origin:
      -1 for a click left of or above the board or past its last column or
      row, otherwise the tile under the click. */
  function PixelToGrid(w: int, h: int, tileLen: int, px: int, py: int): (r: int)
    requires ValidDims(w, h) && tileLen > 0
    ensures r == -1 || 0 <= r < w * h
    ensures r == -1 <==> !(0 <= px < w * tileLen && 0 <= py < h * tileLen)
    ensures r != -1 ==> r % w == px / tileLen && r / w == py / tileLen
  {
    if px < 0 || py < 0 then -1
    else
      var gridX, gridY := px / tileLen, py / tileLen;
      if gridX >= w || gridY >= h then
        ClickOutside(w, tileLen, px);
        ClickOutside(h, tileLen, py);
        -1
      else
        ClickInside(w, tileLen, px);
        ClickInside(h, tileLen, py);
        IndexOf(w, h, gridX, gridY);
        gridX + gridY * w
  }

  lemma {:induction false} ClickInside(n: int, tileLen: int, p: int)
    requires tileLen > 0 && 0 <= p && p / tileLen < n
    ensures p < n * tileLen
  {
    MulMonotone(p / tileLen, n, tileLen);
  }

  lemma {:induction false} ClickOutside(n: int, tileLen: int, p: int)
    requires tileLen > 0 && 0 <= p
    ensures p / tileLen >= n ==> p >= n * tileLen
  {
    if p / tileLen >= n && n * tileLen > p {
      MulMonotone(p / tileLen, n, tileLen);
      assert false;
    }
  }
}
