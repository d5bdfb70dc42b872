/** What the flood reveal (`RevealEmptyTiles`) leaves behind, stated over
    the scan marks: a tile carries the mark `g` when the flood started at
    `g` has reached it. */
module Flood {
  import opened Codes
  import opened Geometry
  import opened Board
  import opened Tally

  /** Position `p` carries the mark `g`. */
  predicate Marked(marks: seq<int>, p: int, g: int)
  {
    0 <= p < |marks| && marks[p] == g
  }

  /** Tile `k` has been expanded: it has mines around it, or every tile of
      its 3x3 neighbourhood carries the mark. */
  predicate Expanded(m: seq<int>, w: int, h: int, marks: seq<int>, g: int, k: int)
    requires IsLayer(m, w, h) && 0 <= k < |m|
  {
    BombsAround(m, w, h, k) != 0 ||
    forall j :: 0 <= j < 9 && SlotValid(w, h, k, j) ==> Marked(marks, SlotPos(w, k, j), g)
  }

  /** Slots `0..j-1` of tile `k` that lie on the board carry the mark. */
  predicate SlotsMarked(marks: seq<int>, w: int, h: int, k: int, j: int, g: int)
  {
    forall i :: 0 <= i < j && SlotValid(w, h, k, i) ==> Marked(marks, SlotPos(w, k, i), g)
  }

  /** Marking slot `j` extends the marked slots by one; marks already set
      stay set. */
  lemma {:induction false} SlotsMarkedStep(marks: seq<int>, marks': seq<int>, w: int, h: int, k: int, j: int, g: int)
    requires SlotsMarked(marks, w, h, k, j, g)
    requires forall p :: Marked(marks, p, g) ==> Marked(marks', p, g)
    requires SlotValid(w, h, k, j) ==> Marked(marks', SlotPos(w, k, j), g)
    ensures SlotsMarked(marks', w, h, k, j + 1, g)
  {
  }

  /** A tile all of whose nine slots carry the mark is expanded. */
  lemma {:induction false} SlotsMarkedExpanded(m: seq<int>, w: int, h: int, marks: seq<int>, k: int, g: int)
    requires IsLayer(m, w, h) && 0 <= k < |m| && SlotsMarked(marks, w, h, k, 9, g)
    ensures Expanded(m, w, h, marks, g, k)
  {
  }

  /** Every marked tile has been expanded: the marked region is closed
      under the flood step. */
  predicate Closed(m: seq<int>, w: int, h: int, marks: seq<int>, g: int)
    requires IsLayer(m, w, h)
  {
    forall k :: 0 <= k < |m| && Marked(marks, k, g) ==> Expanded(m, w, h, marks, g, k)
  }

  /** Adding marks never undoes an expansion. */
  lemma {:induction false} ExpandedGrows(m: seq<int>, w: int, h: int, marks: seq<int>, marks': seq<int>, g: int, k: int)
    requires IsLayer(m, w, h) && 0 <= k < |m|
    requires forall p :: Marked(marks, p, g) ==> Marked(marks', p, g)
    requires Expanded(m, w, h, marks, g, k)
    ensures Expanded(m, w, h, marks', g, k)
  {
  }

  /** No entry of the queue occurs twice. */
  predicate Distinct(queue: seq<int>)
  {
    forall a, b :: 0 <= a < b < |queue| ==> queue[a] != queue[b]
  }

  /** The state of a flood started at `g`, part way through: `marks0` are
      the scan marks before it began and `marks` the current ones, `queue`
      the tiles queued so far and `done` how many of them have been
      expanded.  Every queued tile is a marked board tile, queued once;
      every queued tile but the start is mine-free; marks only ever change
      to `g`, and a tile that gained the mark is queued; the expanded
      prefix is expanded with respect to the current marks. */
  ghost predicate FloodState(m: seq<int>, w: int, h: int, marks0: seq<int>, marks: seq<int>,
                             queue: seq<int>, done: int, g: int)
    requires IsLayer(m, w, h)
  {
    |marks| == |marks0| && |m| <= |marks| &&
    |queue| >= 1 && queue[0] == g && 0 <= done <= |queue| &&
    (forall q :: 0 <= q < |queue| ==> 0 <= queue[q] < |m| && marks[queue[q]] == g) &&
    (forall q :: 1 <= q < |queue| ==> m[queue[q]] != BOMB) &&
    Distinct(queue) &&
    (forall p :: 0 <= p < |marks| ==> marks[p] == marks0[p] || marks[p] == g) &&
    (forall p :: 0 <= p < |marks| && marks[p] == g && marks0[p] != g ==> p in queue) &&
    (forall q :: 0 <= q < done ==> Expanded(m, w, h, marks, g, queue[q]))
  }

  /** The elements of a queue. */
  function Elements(queue: seq<int>): (s: set<int>)
    ensures forall x :: x in s <==> x in queue
  {
    set x | x in queue
  }

  /** A queue without repeats has as many elements as entries. */
  lemma {:induction false} DistinctSize(queue: seq<int>)
    requires Distinct(queue)
    ensures |Elements(queue)| == |queue|
    decreases |queue|
  {
    if |queue| > 0 {
      var init := queue[..|queue| - 1];
      var last := queue[|queue| - 1];
      assert Distinct(init);
      DistinctSize(init);
      assert Elements(queue) == Elements(init) + {last};
      assert last !in Elements(init);
    }
  }

  /** The queue never holds more entries than the board has tiles, so the
      scan buffer (five times the board) never overflows. */
  lemma {:induction false} FloodBound(m: seq<int>, w: int, h: int, marks0: seq<int>, marks: seq<int>,
                                      queue: seq<int>, done: int, g: int)
    requires IsLayer(m, w, h) && FloodState(m, w, h, marks0, marks, queue, done, g)
    ensures |queue| <= |m|
  {
    DistinctSize(queue);
    assert Elements(queue) <= RangeSet(|m|);
    SubsetSize(Elements(queue), RangeSet(|m|));
  }

  /** The flood begins with the start tile marked and queued. */
  lemma {:induction false} FloodStart(m: seq<int>, w: int, h: int, marks0: seq<int>, g: int)
    requires IsLayer(m, w, h) && |m| <= |marks0| && 0 <= g < |m|
    ensures FloodState(m, w, h, marks0, marks0[g := g], [g], 0, g)
  {
  }

  /** Queuing an unmarked mine-free tile keeps the flood state, and there
      was room for it on the board. */
  lemma {:induction false} FloodEnqueue(m: seq<int>, w: int, h: int, marks0: seq<int>, marks: seq<int>,
                                        queue: seq<int>, done: int, g: int, p: int)
    requires IsLayer(m, w, h) && FloodState(m, w, h, marks0, marks, queue, done, g)
    requires 0 <= p < |m| && marks[p] != g && m[p] != BOMB
    ensures |queue| < |m|
    ensures FloodState(m, w, h, marks0, marks[p := g], queue + [p], done, g)
  {
    var marks', queue' := marks[p := g], queue + [p];
    assert p !in queue;
    forall q | 0 <= q < done
      ensures Expanded(m, w, h, marks', g, queue'[q])
    {
      ExpandedGrows(m, w, h, marks, marks', g, queue[q]);
    }
    assert Distinct(queue');
    FloodBound(m, w, h, marks0, marks', queue', done, g);
  }

  /** Once the next queued tile is expanded, the expanded prefix grows. */
  lemma {:induction false} FloodNext(m: seq<int>, w: int, h: int, marks0: seq<int>, marks: seq<int>,
                                     queue: seq<int>, done: int, g: int)
    requires IsLayer(m, w, h) && FloodState(m, w, h, marks0, marks, queue, done, g)
    requires done < |queue| && Expanded(m, w, h, marks, g, queue[done])
    ensures FloodState(m, w, h, marks0, marks, queue, done + 1, g)
  {
  }

  /** A drained flood whose start saw no mark `g` leaves the marked
      region closed. */
  lemma {:induction false} FloodClosed(m: seq<int>, w: int, h: int, marks0: seq<int>, marks: seq<int>,
                                       queue: seq<int>, g: int)
    requires IsLayer(m, w, h) && FloodState(m, w, h, marks0, marks, queue, |queue|, g)
    requires forall p :: 0 <= p < |m| ==> marks0[p] != g
    ensures Closed(m, w, h, marks, g)
  {
    forall k | 0 <= k < |m| && Marked(marks, k, g)
      ensures Expanded(m, w, h, marks, g, k)
    {
      assert k in queue;
      var q :| 0 <= q < |queue| && queue[q] == k;
    }
  }

  /** What a flood leaves on the marks: every tile that gained the mark,
      other than the start, is mine-free and was queued, hence (with
      `QueueShown`) uncovered. */
  lemma {:induction false} FloodMarks(m: seq<int>, w: int, h: int, marks0: seq<int>, marks: seq<int>,
                                      queue: seq<int>, done: int, g: int, tiles: seq<int>)
    requires IsLayer(m, w, h) && FloodState(m, w, h, marks0, marks, queue, done, g)
    requires |tiles| == |m|
    requires forall q :: 1 <= q < |queue| && 0 <= queue[q] < |tiles| ==> tiles[queue[q]] != UNREVEALED
    ensures marks[g] == g
    ensures forall p :: 0 <= p < |m| && p != g && marks[p] == g && marks0[p] != g ==>
              m[p] != BOMB && tiles[p] != UNREVEALED
  {
    forall p | 0 <= p < |m| && p != g && marks[p] == g && marks0[p] != g
      ensures m[p] != BOMB && tiles[p] != UNREVEALED
    {
      assert p in queue;
      var q :| 0 <= q < |queue| && queue[q] == p;
    }
  }

  /** A walk from tile to adjacent tile (by coordinates) that only leaves
      tiles with no mine around them: the tiles a player expects one click
      on an empty tile to uncover. */
  predicate ZeroPath(m: seq<int>, w: int, h: int, path: seq<int>)
    requires IsLayer(m, w, h)
  {
    |path| >= 1 &&
    (forall i :: 0 <= i < |path| ==> 0 <= path[i] < |m|) &&
    (forall i :: 0 <= i < |path| - 1 ==>
       0 <= path[i] < |m| && BombsAround(m, w, h, path[i]) == 0 && Near(w, path[i], path[i + 1]))
  }

  /** A closed region holding the start contains the end of every such
      walk from the start. */
  lemma {:induction false} ClosedReachesPath(m: seq<int>, w: int, h: int, marks: seq<int>, g: int, path: seq<int>)
    requires IsLayer(m, w, h) && Closed(m, w, h, marks, g)
    requires ZeroPath(m, w, h, path) && Marked(marks, path[0], g)
    ensures Marked(marks, path[|path| - 1], g)
    decreases |path|
  {
    if |path| > 1 {
      var prefix := path[..|path| - 1];
      assert ZeroPath(m, w, h, prefix);
      ClosedReachesPath(m, w, h, marks, g, prefix);
      var a, b := path[|path| - 2], path[|path| - 1];
      assert Expanded(m, w, h, marks, g, a);
      SlotsAreNeighbourhood(w, h, a, b);
      var j :| 0 <= j < 9 && SlotValid(w, h, a, j) && SlotPos(w, a, j) == b;
    }
  }
  // ---------------------------------------------------------------------
  // The flood pass by pass, as the loop of `RevealEmptyTiles` runs it: the
  // working state after each step as a function of the one before.

  /** `scanSize`: the scan arrays hold this many entries per tile. */
  const SCAN_SIZE := 5

  /** The flood's patience: it stops after this many dequeues in a row that
      add no tile. */
  const SCAN_PATIENCE := 10

  /** The flood's working state: the visible layer, the scan marks, the
      tiles queued so far (`scanQue[..i]`), the read cursor `quePos` and
      the countdown `loop`. */
  datatype Scan = Scan(tiles: seq<int>, marks: seq<int>, queue: seq<int>, quePos: int, loop: int)

  /** The state the flood from `g` starts in: `g` marked and queued,
      nothing dequeued, full patience. */
  function ScanBegin(t: seq<int>, marks: seq<int>, g: int): Scan
    requires 0 <= g < |marks|
  {
    Scan(t, marks[g := g], [g], 0, SCAN_PATIENCE)
  }

  /** What `RevealTile` does to the visible layer at `p`, its result
      ignored: a hidden tile without a mine takes its hidden code. */
  function Uncover(t: seq<int>, m: seq<int>, p: int): seq<int>
  {
    if 0 <= p < |t| && p < |m| && t[p] == UNREVEALED && m[p] != BOMB then t[p := m[p]] else t
  }

  /** Slot `j` of the dequeued tile `k`: a board tile that does not carry
      the mark `g` is marked, queued and uncovered, and the patience is
      reset.  Nothing else changes, and the queue only grows. */
  function SlotStep(m: seq<int>, w: int, h: int, g: int, k: int, j: int, s: Scan): (r: Scan)
    ensures r.quePos == s.quePos && s.queue <= r.queue
    ensures |r.tiles| == |s.tiles| && |r.marks| == |s.marks|
  {
    var p := SlotPos(w, k, j);
    if SlotValid(w, h, k, j) && 0 <= p < |s.marks| && s.marks[p] != g then
      Scan(Uncover(s.tiles, m, p), s.marks[p := g], s.queue + [p], s.quePos, SCAN_PATIENCE)
    else s
  }

  /** Slots `0..j-1` of the dequeued tile `k`, in scan order. */
  function SlotsUpTo(m: seq<int>, w: int, h: int, g: int, k: int, j: nat, s: Scan): (r: Scan)
    ensures r.quePos == s.quePos && s.queue <= r.queue
    ensures |r.tiles| == |s.tiles| && |r.marks| == |s.marks|
  {
    if j == 0 then s else SlotStep(m, w, h, g, k, j - 1, SlotsUpTo(m, w, h, g, k, j - 1, s))
  }

  /** One pass of the loop: with work queued, the next tile is dequeued,
      the patience drops by one, and a tile with no mine around it has its
      nine slots scanned; with nothing queued the patience is cleared. */
  function ScanStep(m: seq<int>, w: int, h: int, g: int, s: Scan): (r: Scan)
    ensures s.quePos < |s.queue| ==> r.quePos == s.quePos + 1
    ensures |s.queue| <= s.quePos ==> r == s.(loop := 0)
    ensures s.queue <= r.queue
    ensures |r.tiles| == |s.tiles| && |r.marks| == |s.marks|
  {
    if s.quePos < |s.queue| then
      var s1 := s.(quePos := s.quePos + 1, loop := s.loop - 1);
      var k := if 0 <= s.quePos then s.queue[s.quePos] else -1;
      if IsLayer(m, w, h) && 0 <= k < |m| && BombsAround(m, w, h, k) == 0 then
        SlotsUpTo(m, w, h, g, k, 9, s1)
      else s1
    else s.(loop := 0)
  }

  /** A pass that dequeues the board tile `k`: the read cursor moves on,
      the patience drops by one, and only a tile with no mine around it
      has its slots scanned. */
  lemma StepDequeues(m: seq<int>, w: int, h: int, g: int, s: Scan, k: int)
    requires IsLayer(m, w, h) && 0 <= s.quePos < |s.queue| && k == s.queue[s.quePos] && 0 <= k < |m|
    ensures var s1 := s.(quePos := s.quePos + 1, loop := s.loop - 1);
            ScanStep(m, w, h, g, s) == if BombsAround(m, w, h, k) == 0 then SlotsUpTo(m, w, h, g, k, 9, s1) else s1
  {
  }

  /** The loop of `RevealEmptyTiles`: passes run while the queue has room
      and patience is left.  The run stops with the patience used up or
      the queue full (the last case is the guard for a cursor that left
      the board, which a flood never reaches), keeping every tile queued
      on the way. */
  function ScanRun(m: seq<int>, w: int, h: int, g: int, s: Scan): (r: Scan)
    ensures r.loop <= 0 || |r.queue| >= SCAN_SIZE * |m| || (r.quePos < |r.queue| && !(0 <= r.quePos < |m|))
    ensures s.queue <= r.queue && s.quePos <= r.quePos
    ensures |r.tiles| == |s.tiles| && |r.marks| == |s.marks|
    decreases |m| - s.quePos, s.loop
  {
    if |s.queue| < SCAN_SIZE * |m| && s.loop > 0 then
      if s.quePos < |s.queue| && !(0 <= s.quePos < |m|) then s
      else ScanRun(m, w, h, g, ScanStep(m, w, h, g, s))
    else s
  }
}
