/** A board on which the countdown of `RevealEmptyTiles` stops the flood
    while tiles are still queued: the 16 by 12 board with mines at
    (5,2), (2,5), (3,1), (6,4) and (4,6), clicked at (4,4).  The flood
    states of the functional model are written as `Canon` states, fixed
    by the queue alone, so the run can be followed pass by pass. */
module FloodStall {
  import opened Codes
  import opened Geometry
  import opened Board
  import opened Numbers
  import opened Flood

  /** The mines, as tile indices `y * 16 + x`. */
  const MINES: set<int> := {19, 37, 70, 82, 100}

  /** The clicked tile (4,4). */
  const START := 68

  /** The hidden layer after the shuffle, before the number pass. */
  function Mined(): seq<int>
  {
    seq(192, k => if k in MINES then BOMB else REVEALED)
  }

  /** The visible layer once the click has uncovered the start tile. */
  function Clicked(): seq<int>
  {
    seq(192, k => if k == START then REVEALED else UNREVEALED)
  }

  /** The visible layer that shows exactly the queued mine-free tiles. */
  function TilesOf(m: seq<int>, q: seq<int>): seq<int>
  {
    seq(|m|, p requires 0 <= p < |m| => if p in q && m[p] != BOMB then m[p] else UNREVEALED)
  }

  /** Reset scan marks, with the mark `g` on exactly the queued tiles. */
  function MarksOf(g: int, q: seq<int>): seq<int>
  {
    seq(960, p => if p in q then g else -1)
  }

  /** The flood state in which the queue `q` says everything else. */
  function Canon(m: seq<int>, g: int, q: seq<int>, pos: int, loop: int): Scan
  {
    Scan(TilesOf(m, q), MarksOf(g, q), q, pos, loop)
  }

  /** The queue after slots `0..j-1` of the dequeued tile `k`: each board
      tile not yet queued is appended. */
  function Grow(q: seq<int>, k: int, j: nat): (r: seq<int>)
    ensures q <= r
  {
    if j == 0 then q
    else
      var q' := Grow(q, k, j - 1);
      var p := SlotPos(16, k, j - 1);
      if SlotValid(16, 12, k, j - 1) && p !in q' then q' + [p] else q'
  }

  /** No mine of `MINES` is within one row and one column of tile `k`. */
  predicate FarFromMines(k: int)
  {
    !Near(16, k, 19) && !Near(16, k, 37) && !Near(16, k, 70) && !Near(16, k, 82) && !Near(16, k, 100)
  }

  /** On a layer whose mines are exactly `MINES`, a tile far from all of
      them has no mine in slots `j..8`. */
  lemma {:induction false} NoMineFrom(m: seq<int>, k: int, j: nat)
    requires IsLayer(m, 16, 12) && 0 <= k < 192 && j <= 9 && FarFromMines(k)
    requires forall x :: 0 <= x < 192 ==> (m[x] == BOMB <==> x in MINES)
    ensures BombsFrom(m, 16, 12, k, j) == 0
    decreases 9 - j
  {
    if j < 9 {
      if SlotValid(16, 12, k, j) {
        SlotOnBoard(16, 12, k, j);
        SlotsAreNeighbourhood(16, 12, k, SlotPos(16, k, j));
      }
      NoMineFrom(m, k, j + 1);
    }
  }

  /** A mine in slot `j` of tile `t` is counted by every count from a
      slot `i <= j` on. */
  lemma {:induction false} MineCounted(m: seq<int>, t: int, i: nat, j: nat)
    requires IsLayer(m, 16, 12) && 0 <= t < |m| && i <= j < 9 && SlotHasBomb(m, 16, 12, t, j)
    ensures BombsFrom(m, 16, 12, t, i) >= 1
    decreases j - i
  {
    if i < j {
      MineCounted(m, t, i + 1, j);
    }
  }

  /** One slot of a `Canon` state gives a `Canon` state. */
  lemma {:induction false} CanonSlot(m: seq<int>, g: int, q: seq<int>, pos: int, loop: int, k: int, j: int)
    requires IsLayer(m, 16, 12) && 0 <= k < 192 && 0 <= j < 9 && g != -1
    ensures SlotStep(m, 16, 12, g, k, j, Canon(m, g, q, pos, loop)) ==
            var p := SlotPos(16, k, j);
            if SlotValid(16, 12, k, j) && p !in q then Canon(m, g, q + [p], pos, SCAN_PATIENCE)
            else Canon(m, g, q, pos, loop)
  {
    var p := SlotPos(16, k, j);
    if SlotValid(16, 12, k, j) {
      SlotOnBoard(16, 12, k, j);
      if p !in q {
        var s := Canon(m, g, q, pos, loop);
        assert s.tiles[p] == UNREVEALED;
        assert Uncover(s.tiles, m, p) == TilesOf(m, q + [p]);
        assert s.marks[p := g] == MarksOf(g, q + [p]);
      }
    }
  }

  /** The nine slots of a `Canon` state give the `Canon` state of the
      grown queue; the patience is reset when the queue grew. */
  lemma {:induction false} CanonSlots(m: seq<int>, g: int, q: seq<int>, pos: int, loop: int, k: int, j: nat)
    requires IsLayer(m, 16, 12) && 0 <= k < 192 && j <= 9 && g != -1
    ensures SlotsUpTo(m, 16, 12, g, k, j, Canon(m, g, q, pos, loop)) ==
            Canon(m, g, Grow(q, k, j), pos, if |Grow(q, k, j)| > |q| then SCAN_PATIENCE else loop)
  {
    if j > 0 {
      CanonSlots(m, g, q, pos, loop, k, j - 1);
      var q' := Grow(q, k, j - 1);
      CanonSlot(m, g, q', pos, if |q'| > |q| then SCAN_PATIENCE else loop, k, j - 1);
    }
  }

  /** A run with room in the queue, patience left and a tile to dequeue
      goes on with one more pass. */
  lemma {:induction false} RunUnfolds(m: seq<int>, g: int, s: Scan)
    requires IsLayer(m, 16, 12) && 0 <= s.quePos < |s.queue| <= 192 && 0 < s.loop
    ensures ScanRun(m, 16, 12, g, s) == ScanRun(m, 16, 12, g, ScanStep(m, 16, 12, g, s))
  {
  }

  /** A pass from a `Canon` state with a tile without mines around it at
      the read cursor queues the tile's neighbours. */
  lemma {:induction false} StepExpands(m: seq<int>, g: int, q: seq<int>, pos: int, loop: int)
    requires IsLayer(m, 16, 12) && g != -1 && 0 <= pos < |q|
    requires 0 <= q[pos] < 192 && BombsAround(m, 16, 12, q[pos]) == 0
    ensures var q' := Grow(q, q[pos], 9);
            ScanStep(m, 16, 12, g, Canon(m, g, q, pos, loop)) ==
            Canon(m, g, q', pos + 1, if |q'| > |q| then SCAN_PATIENCE else loop - 1)
  {
    var s := Canon(m, g, q, pos, loop);
    var s1 := Canon(m, g, q, pos + 1, loop - 1);
    assert s.(quePos := pos + 1, loop := loop - 1) == s1;
    StepDequeues(m, 16, 12, g, s, q[pos]);
    CanonSlots(m, g, q, pos + 1, loop - 1, q[pos], 9);
  }

  /** The same within a run. */
  lemma {:induction false} RunExpands(m: seq<int>, g: int, q: seq<int>, pos: int, loop: int)
    requires IsLayer(m, 16, 12) && g != -1 && 0 <= pos < |q| <= 192 && 0 < loop
    requires 0 <= q[pos] < 192 && BombsAround(m, 16, 12, q[pos]) == 0
    ensures var q' := Grow(q, q[pos], 9);
            ScanRun(m, 16, 12, g, Canon(m, g, q, pos, loop)) ==
            ScanRun(m, 16, 12, g, Canon(m, g, q', pos + 1, if |q'| > |q| then SCAN_PATIENCE else loop - 1))
  {
    RunUnfolds(m, g, Canon(m, g, q, pos, loop));
    StepExpands(m, g, q, pos, loop);
  }

  /** From a `Canon` state whose next `n` queued tiles all have mines
      around them, with patience `n`, the run dequeues them and stops. */
  lemma {:induction false} RunStalls(m: seq<int>, g: int, q: seq<int>, pos: int, n: nat)
    requires IsLayer(m, 16, 12) && 0 <= pos && pos + n <= |q| <= 192
    requires forall i :: pos <= i < pos + n ==> 0 <= q[i] < 192 && BombsAround(m, 16, 12, q[i]) != 0
    ensures ScanRun(m, 16, 12, g, Canon(m, g, q, pos, n)) == Canon(m, g, q, pos + n, 0)
    decreases n
  {
    var s := Canon(m, g, q, pos, n);
    if n > 0 {
      var s1 := Canon(m, g, q, pos + 1, n - 1);
      assert s.(quePos := pos + 1, loop := n - 1) == s1;
      assert ScanStep(m, 16, 12, g, s) == s1;
      RunUnfolds(m, g, s);
      RunStalls(m, g, q, pos + 1, n - 1);
    }
  }

  /** The click (4,4), (3,3) and (2,3) have no mine around them. */
  lemma {:induction false} StallZeros(m: seq<int>)
    requires IsLayer(m, 16, 12)
    requires forall x :: 0 <= x < 192 ==> (m[x] == BOMB <==> x in MINES)
    ensures BombsAround(m, 16, 12, 68) == 0 && BombsAround(m, 16, 12, 51) == 0 && BombsAround(m, 16, 12, 50) == 0
  {
    NoMineFrom(m, 68, 0);
    NoMineFrom(m, 51, 0);
    NoMineFrom(m, 50, 0);
  }

  /** The other tiles the first expansion queues each have a mine
      around them, in the slot given. */
  lemma {:induction false} FirstMines(m: seq<int>)
    requires IsLayer(m, 16, 12)
    requires forall x :: 0 <= x < 192 ==> (m[x] == BOMB <==> x in MINES)
    ensures BombsAround(m, 16, 12, 52) != 0 && BombsAround(m, 16, 12, 53) != 0 &&
            BombsAround(m, 16, 12, 67) != 0 && BombsAround(m, 16, 12, 69) != 0 &&
            BombsAround(m, 16, 12, 83) != 0
  {
    assert m[37] == BOMB && m[82] == BOMB && m[70] == BOMB;
    MineCounted(m, 52, 0, 2);
    MineCounted(m, 53, 0, 1);
    MineCounted(m, 67, 0, 6);
    MineCounted(m, 69, 0, 5);
    MineCounted(m, 83, 0, 3);
  }

  /** The same for the rest of the tiles queued before (2,3). */
  lemma {:induction false} SecondMines(m: seq<int>)
    requires IsLayer(m, 16, 12)
    requires forall x :: 0 <= x < 192 ==> (m[x] == BOMB <==> x in MINES)
    ensures BombsAround(m, 16, 12, 84) != 0 && BombsAround(m, 16, 12, 85) != 0 &&
            BombsAround(m, 16, 12, 34) != 0 && BombsAround(m, 16, 12, 35) != 0 &&
            BombsAround(m, 16, 12, 36) != 0
  {
    assert m[100] == BOMB && m[70] == BOMB && m[19] == BOMB;
    MineCounted(m, 84, 0, 7);
    MineCounted(m, 85, 0, 2);
    MineCounted(m, 34, 0, 2);
    MineCounted(m, 35, 0, 1);
    MineCounted(m, 36, 0, 0);
  }

  /** The first five tiles the run dequeues after (3,3) all have a mine
      around them. */
  lemma {:induction false} FirstStalls(m: seq<int>, q: seq<int>)
    requires IsLayer(m, 16, 12)
    requires |q| == 14 && q[2] == 52 && q[3] == 53 && q[4] == 67 && q[5] == 69 && q[6] == 83
    requires BombsAround(m, 16, 12, 52) != 0 && BombsAround(m, 16, 12, 53) != 0 &&
             BombsAround(m, 16, 12, 67) != 0 && BombsAround(m, 16, 12, 69) != 0 &&
             BombsAround(m, 16, 12, 83) != 0
    ensures forall i :: 2 <= i < 7 ==> 0 <= q[i] < 192 && BombsAround(m, 16, 12, q[i]) != 0
  {
    forall i | 2 <= i < 7
      ensures 0 <= q[i] < 192 && BombsAround(m, 16, 12, q[i]) != 0
    {
      if i == 2 {} else if i == 3 {} else if i == 4 {} else if i == 5 {} else {}
    }
  }

  /** So do the next two, (4,5) and (5,5). */
  lemma {:induction false} SecondStalls(m: seq<int>, q: seq<int>)
    requires IsLayer(m, 16, 12) && |m| == 192
    requires |q| == 14 && q[7] == 84 && q[8] == 85
    requires BombsAround(m, 16, 12, 84) != 0 && BombsAround(m, 16, 12, 85) != 0
    ensures forall i :: 7 <= i < 9 ==> 0 <= q[i] < 192 && BombsAround(m, 16, 12, q[i]) != 0
  {
    forall i | 7 <= i < 9
      ensures 0 <= q[i] < 192 && BombsAround(m, 16, 12, q[i]) != 0
    {
      if i == 7 { assert q[i] == 84; } else { assert q[i] == 85; }
    }
  }

  /** And the three after them, (2,2), (3,2) and (4,2). */
  lemma {:induction false} ThirdStalls(m: seq<int>, q: seq<int>)
    requires IsLayer(m, 16, 12) && |m| == 192
    requires |q| == 14 && q[9] == 34 && q[10] == 35 && q[11] == 36
    requires BombsAround(m, 16, 12, 34) != 0 && BombsAround(m, 16, 12, 35) != 0 &&
             BombsAround(m, 16, 12, 36) != 0
    ensures forall i :: 9 <= i < 12 ==> 0 <= q[i] < 192 && BombsAround(m, 16, 12, q[i]) != 0
  {
    forall i | 9 <= i < 12
      ensures 0 <= q[i] < 192 && BombsAround(m, 16, 12, q[i]) != 0
    {
      if i == 9 { assert q[i] == 34; }
      else if i == 10 { assert q[i] == 35; }
      else { assert q[i] == 36; }
    }
  }

  /** The entries of the stall queue the run dequeues without expanding. */
  lemma {:induction false} StallEntries(q: seq<int>)
    requires q == StallQueue()
    ensures |q| == 14
    ensures q[2] == 52 && q[3] == 53 && q[4] == 67 && q[5] == 69 && q[6] == 83
    ensures q[7] == 84 && q[8] == 85 && q[9] == 34 && q[10] == 35 && q[11] == 36
  {
  }

  /** The ten tiles queued after (3,3) and before (2,3) all have a mine
      around them. */
  lemma {:induction false} StallBusy(m: seq<int>, q: seq<int>)
    requires StallBoard(m) && q == StallQueue()
    ensures forall i :: 2 <= i < 12 ==> 0 <= q[i] < 192 && BombsAround(m, 16, 12, q[i]) != 0
  {
    FirstMines(m);
    SecondMines(m);
    StallEntries(q);
    FirstStalls(m, q);
    SecondStalls(m, q);
    ThirdStalls(m, q);
  }

  /** The queue once the click (4,4) and then (3,3) are expanded. */
  function StallQueue(): seq<int>
  {
    [68, 51, 52, 53, 67, 69, 83, 84, 85, 34, 35, 36, 50, 66]
  }

  /** The queue after the click (4,4) and then (3,3) are expanded. */
  lemma {:induction false} StallQueues()
    ensures Grow([68], 68, 9) == [68, 51, 52, 53, 67, 69, 83, 84, 85]
    ensures Grow([68, 51, 52, 53, 67, 69, 83, 84, 85], 51, 9) == StallQueue()
  {
    FirstQueue([68]);
    SecondQueue([68, 51, 52, 53, 67, 69, 83, 84, 85]);
  }

  /** Slot `j` of `k` names a board tile not yet queued: it is appended. */
  lemma {:induction false} GrowAdds(q: seq<int>, k: int, j: nat, r: seq<int>)
    requires Grow(q, k, j) == r && SlotValid(16, 12, k, j) && SlotPos(16, k, j) !in r
    ensures Grow(q, k, j + 1) == r + [SlotPos(16, k, j)]
  {
  }

  /** Slot `j` of `k` names the tile queued at `i`: the queue stays. */
  lemma {:induction false} GrowKeeps(q: seq<int>, k: int, j: nat, r: seq<int>, i: int)
    requires Grow(q, k, j) == r && 0 <= i < |r| && r[i] == SlotPos(16, k, j)
    ensures Grow(q, k, j + 1) == r
  {
  }

  /** Expanding the click (4,4): its first four slots are queued. */
  lemma {:induction false} FirstQueueHalf(q: seq<int>)
    requires q == [68]
    ensures Grow(q, 68, 4) == [68, 51, 52, 53, 67]
  {
    GrowAdds(q, 68, 0, [68]);
    GrowAdds(q, 68, 1, [68, 51]);
    GrowAdds(q, 68, 2, [68, 51, 52]);
    GrowAdds(q, 68, 3, [68, 51, 52, 53]);
  }

  /** Expanding the click (4,4) queues its eight neighbours. */
  lemma {:induction false} FirstQueue(q: seq<int>)
    requires q == [68]
    ensures Grow(q, 68, 9) == [68, 51, 52, 53, 67, 69, 83, 84, 85]
  {
    FirstQueueHalf(q);
    GrowKeeps(q, 68, 4, [68, 51, 52, 53, 67], 0);
    GrowAdds(q, 68, 5, [68, 51, 52, 53, 67]);
    GrowAdds(q, 68, 6, [68, 51, 52, 53, 67, 69]);
    GrowAdds(q, 68, 7, [68, 51, 52, 53, 67, 69, 83]);
    GrowAdds(q, 68, 8, [68, 51, 52, 53, 67, 69, 83, 84]);
  }

  /** Expanding (3,3): its first four slots are queued. */
  lemma {:induction false} SecondQueueHalf(q: seq<int>)
    requires q == [68, 51, 52, 53, 67, 69, 83, 84, 85]
    ensures Grow(q, 51, 4) == [68, 51, 52, 53, 67, 69, 83, 84, 85, 34, 35, 36, 50]
  {
    GrowAdds(q, 51, 0, [68, 51, 52, 53, 67, 69, 83, 84, 85]);
    GrowAdds(q, 51, 1, [68, 51, 52, 53, 67, 69, 83, 84, 85, 34]);
    GrowAdds(q, 51, 2, [68, 51, 52, 53, 67, 69, 83, 84, 85, 34, 35]);
    GrowAdds(q, 51, 3, [68, 51, 52, 53, 67, 69, 83, 84, 85, 34, 35, 36]);
  }

  /** Expanding (3,3) queues its five neighbours not yet queued. */
  lemma {:induction false} SecondQueue(q: seq<int>)
    requires q == [68, 51, 52, 53, 67, 69, 83, 84, 85]
    ensures Grow(q, 51, 9) == StallQueue()
  {
    SecondQueueHalf(q);
    GrowKeeps(q, 51, 4, [68, 51, 52, 53, 67, 69, 83, 84, 85, 34, 35, 36, 50], 1);
    GrowKeeps(q, 51, 5, [68, 51, 52, 53, 67, 69, 83, 84, 85, 34, 35, 36, 50], 2);
    GrowAdds(q, 51, 6, [68, 51, 52, 53, 67, 69, 83, 84, 85, 34, 35, 36, 50]);
    GrowKeeps(q, 51, 7, [68, 51, 52, 53, 67, 69, 83, 84, 85, 34, 35, 36, 50, 66], 4);
    GrowKeeps(q, 51, 8, [68, 51, 52, 53, 67, 69, 83, 84, 85, 34, 35, 36, 50, 66], 0);
  }

  /** What the run needs to know of the numbered layer: its mines are
      `MINES`, and the click (4,4) and (2,3) are empty. */
  predicate StallBoard(m: seq<int>)
  {
    IsLayer(m, 16, 12) &&
    (forall x :: 0 <= x < 192 ==> (m[x] == BOMB <==> x in MINES)) &&
    m[68] == REVEALED && m[50] == REVEALED
  }

  /** The number pass leaves an empty tile with no mine around it empty. */
  lemma {:induction false} NumberedEmpty(l: seq<int>, k: int)
    requires IsLayer(l, 16, 12) && 0 <= k < |l| && l[k] == REVEALED && BombsAround(l, 16, 12, k) == 0
    ensures Numbered(l, 16, 12)[k] == REVEALED
  {
  }

  /** The click (4,4) and (2,3) stay empty through the number pass. */
  lemma {:induction false} StallEmptyKept(l: seq<int>)
    requires l == Mined()
    ensures Numbered(l, 16, 12)[68] == REVEALED && Numbered(l, 16, 12)[50] == REVEALED
  {
    assert forall x :: 0 <= x < 192 ==> (l[x] == BOMB <==> x in MINES);
    StallZeros(l);
    NumberedEmpty(l, 68);
    NumberedEmpty(l, 50);
  }

  /** The numbered layer of this board is as `StallBoard` says. */
  lemma {:induction false} StallBoardHolds(l: seq<int>)
    requires l == Mined()
    ensures StallBoard(Numbered(l, 16, 12))
  {
    assert forall x :: 0 <= x < 192 ==> (l[x] == BOMB <==> x in MINES);
    NumberedKeepsMines(l, 16, 12);
    StallEmptyKept(l);
  }

  /** The flood starts in the `Canon` state of the click alone. */
  lemma {:induction false} StallStart(m: seq<int>)
    requires StallBoard(m)
    ensures ScanBegin(Clicked(), seq(960, p => -1), START) == Canon(m, START, [68], 0, SCAN_PATIENCE)
  {
    assert Clicked() == TilesOf(m, [68]) by {
      forall p | 0 <= p < 192
        ensures Clicked()[p] == TilesOf(m, [68])[p]
      {
        assert p in [68] <==> p == 68;
      }
    }
    assert seq(960, p => -1)[START := START] == MarksOf(START, [68]) by {
      forall p | 0 <= p < 960
        ensures seq(960, p => -1)[START := START][p] == MarksOf(START, [68])[p]
      {
        assert p in [68] <==> p == 68;
      }
    }
  }

  /** The first pass expands the click (4,4). */
  lemma {:induction false} StallFirstPass(m: seq<int>, q: seq<int>)
    requires StallBoard(m) && q == [68]
    ensures ScanRun(m, 16, 12, START, Canon(m, START, q, 0, SCAN_PATIENCE)) ==
            ScanRun(m, 16, 12, START, Canon(m, START, [68, 51, 52, 53, 67, 69, 83, 84, 85], 1, SCAN_PATIENCE))
  {
    StallZeros(m);
    FirstQueue(q);
    RunExpands(m, START, q, 0, SCAN_PATIENCE);
  }

  /** The second pass expands (3,3). */
  lemma {:induction false} StallSecondPass(m: seq<int>, q: seq<int>)
    requires StallBoard(m) && q == [68, 51, 52, 53, 67, 69, 83, 84, 85]
    ensures ScanRun(m, 16, 12, START, Canon(m, START, q, 1, SCAN_PATIENCE)) ==
            ScanRun(m, 16, 12, START, Canon(m, START, StallQueue(), 2, SCAN_PATIENCE))
  {
    StallZeros(m);
    SecondQueue(q);
    RunExpands(m, START, q, 1, SCAN_PATIENCE);
  }

  /** The run: the click and (3,3) are expanded, then ten dequeues in a
      row queue nothing and the patience runs out. */
  lemma {:induction false} StallRun(m: seq<int>)
    requires StallBoard(m)
    ensures ScanRun(m, 16, 12, START, Canon(m, START, [68], 0, SCAN_PATIENCE)) ==
            Canon(m, START, StallQueue(), 12, 0)
  {
    StallFirstPass(m, [68]);
    StallSecondPass(m, [68, 51, 52, 53, 67, 69, 83, 84, 85]);
    StallBusy(m, StallQueue());
    RunStalls(m, START, StallQueue(), 2, SCAN_PATIENCE);
  }

  /** From the click, (3,3), (2,3) and (1,3) are reached through tiles
      with no mine around them. */
  lemma {:induction false} StallPath(m: seq<int>)
    requires StallBoard(m)
    ensures ZeroPath(m, 16, 12, [68, 51, 50, 49])
  {
    StallZeros(m);
    PathHolds(m, [68, 51, 50, 49]);
  }

  /** The walk (4,4), (3,3), (2,3), (1,3) moves between adjacent tiles, and
      its first three tiles have no mine around them. */
  lemma {:induction false} PathHolds(m: seq<int>, path: seq<int>)
    requires IsLayer(m, 16, 12) && |m| == 192 && path == [68, 51, 50, 49]
    requires BombsAround(m, 16, 12, 68) == 0 && BombsAround(m, 16, 12, 51) == 0 && BombsAround(m, 16, 12, 50) == 0
    ensures ZeroPath(m, 16, 12, path)
  {
    forall i | 0 <= i < 3
      ensures BombsAround(m, 16, 12, path[i]) == 0 && Near(16, path[i], path[i + 1])
    {
      if i == 0 { assert Near(16, 68, 51); }
      else if i == 1 { assert Near(16, 51, 50); }
      else { assert Near(16, 50, 49); }
    }
  }

  /** Where the run stops: (2,3) is marked and shown empty but its left
      slot (1,3) is neither marked nor shown. */
  lemma {:induction false} StallEnd(m: seq<int>)
    requires StallBoard(m)
    ensures var r := Canon(m, START, StallQueue(), 12, 0);
            r.tiles[50] == REVEALED && r.tiles[49] == UNREVEALED && m[49] != BOMB &&
            !Closed(m, 16, 12, r.marks, START)
  {
    StallZeros(m);
    var q := StallQueue();
    var r := Canon(m, START, q, 12, 0);
    assert q[12] == 50 && 49 !in q;
    assert SlotValid(16, 12, 50, 3) && SlotPos(16, 50, 3) == 49;
    assert r.marks[50] == START && r.marks[49] == -1;
    assert !Expanded(m, 16, 12, r.marks, START, 50);
  }

  /** As written, the flood on this board stops with two tiles, (3,3)'s
      neighbours (2,3) and (2,4), still queued: (2,3) has no mine around
      it and is shown, yet its neighbour (1,3), mine-free and reachable
      from the click through empty tiles, stays hidden, and the marked
      region is not closed. */
  lemma {:induction false} FloodStopsEarly()
    ensures var m := Numbered(Mined(), 16, 12);
            var r := ScanRun(m, 16, 12, START, ScanBegin(Clicked(), seq(960, p => -1), START));
            r.quePos == 12 && |r.queue| == 14 && r.loop == 0 &&
            ZeroPath(m, 16, 12, [68, 51, 50, 49]) &&
            r.tiles[50] == REVEALED && r.tiles[49] == UNREVEALED && m[49] != BOMB &&
            !Closed(m, 16, 12, r.marks, START)
  {
    var m := Numbered(Mined(), 16, 12);
    StallBoardHolds(Mined());
    StallStart(m);
    StallRun(m);
    StallPath(m);
    StallEnd(m);
  }
}
