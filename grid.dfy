/** The engine's board (`struct Grid`) and the operations the game loop
    runs on it.  The hidden layer, `map` in the source, is `content` here
    because `map` is a Dafny keyword. */
module Engine {
  import opened Codes
  import opened Geometry
  import opened Board
  import opened Tally
  import opened Shuffle
  import opened Numbers
  import opened Flood

  /** What a right click does to a visible code: a flag comes off, a
      hidden tile gets a flag, anything else stays. */
  function FlagStep(c: int): int
  {
    if c == FLAG then UNREVEALED else if c == UNREVEALED then FLAG else c
  }

  /** Two right clicks on the same tile undo each other, and a toggle only
      ever moves between hidden and flagged. */
  lemma {:induction false} FlagStepTwice(c: int)
    ensures FlagStep(FlagStep(c)) == c
    ensures FlagStep(c) != c <==> (c == FLAG || c == UNREVEALED)
    ensures Shown(FlagStep(c)) <==> Shown(c)
  {
  }

  /** Every queued tile after the start is no longer hidden. */
  ghost predicate QueueShown(t: seq<int>, queue: seq<int>)
  {
    forall q :: 1 <= q < |queue| && 0 <= queue[q] < |t| ==> t[queue[q]] != UNREVEALED
  }

  /** Slot `j` of tile `t` as `GetSurroundingTiles` lists it: the tile it
      names and that tile's hidden code, or -1 for both off the board. */
  predicate SlotListed(m: seq<int>, w: int, h: int, t: int, j: int, a: int, c: int)
  {
    if SlotValid(w, h, t, j) then a == SlotPos(w, t, j) && 0 <= a < |m| && c == m[a]
    else a == -1 && c == UNGENERATED
  }

  /** The first `|addrs|` slots of tile `t`, listed. */
  predicate SlotsListed(m: seq<int>, w: int, h: int, t: int, addrs: seq<int>, codes: seq<int>)
  {
    |addrs| == |codes| &&
    forall j :: 0 <= j < |addrs| ==> SlotListed(m, w, h, t, j, addrs[j], codes[j])
  }

  lemma {:induction false} SlotsListedStep(m: seq<int>, w: int, h: int, t: int, addrs: seq<int>, codes: seq<int>, a: int, c: int)
    requires SlotsListed(m, w, h, t, addrs, codes) && SlotListed(m, w, h, t, |addrs|, a, c)
    ensures SlotsListed(m, w, h, t, addrs + [a], codes + [c])
  {
    assert forall j :: 0 <= j < |addrs| ==> (addrs + [a])[j] == addrs[j] && (codes + [c])[j] == codes[j];
  }

  /** A permutation of a layer of hidden-layer codes is one too. */
  lemma {:induction false} PermutationKeepsCodes(a: seq<int>, b: seq<int>)
    requires multiset(a) == multiset(b)
    requires ContentLayer(a)
    ensures ContentLayer(b)
  {
    forall k | 0 <= k < |b|
      ensures IsContentCode(b[k])
    {
      assert b[k] in multiset(a);
      var i :| 0 <= i < |a| && a[i] == b[k];
    }
  }

  lemma {:induction false} RawShuffleKeepsCodes(m: seq<int>, w: int, h: int, t: int, draws: seq<nat>)
    requires IsLayer(m, w, h) && 9 <= |m| && 0 <= t < |m| && |draws| >= |m|
    requires ContentLayer(m)
    ensures ContentLayer(RawShuffle(m, w, h, t, draws))
  {
    RawShuffleConservesMines(m, w, h, t, draws);
    PermutationKeepsCodes(m, RawShuffle(m, w, h, t, draws));
  }

  lemma {:induction false} RelocateKeepsCodes(m: seq<int>, w: int, t: int)
    requires ContentLayer(m)
    ensures ContentLayer(Relocate(m, w, t, 0))
  {
    RelocatePermutes(m, w, t, 0);
    PermutationKeepsCodes(m, Relocate(m, w, t, 0));
  }

  /** Exchanges two cells of a layer in place. */
  method SwapCells(a: array<int>, x: int, y: int)
    requires 0 <= x < a.Length && 0 <= y < a.Length
    modifies a
    ensures a[..] == Swap(old(a[..]), x, y)
  {
    a[x], a[y] := a[y], a[x];
  }

  /** The Fisher-Yates loop of `ShuffleMap`: the cursor runs from `top`
      down to 1 and swaps with entry `rand() % i`. */
  method FisherYatesPass(a: array<int>, draws: seq<nat>, top: int)
    requires top < a.Length && top < |draws|
    modifies a
    ensures a[..] == FisherYates(old(a[..]), draws, top)
  {
    ghost var m := a[..];
    var i := top;
    while i > 0
      invariant i <= top
      invariant FisherYates(a[..], draws, i) == FisherYates(m, draws, top)
      decreases i
    {
      FisherYatesStep(a[..], draws, i);
      SwapCells(a, draws[i] % i, i);
      i := i - 1;
    }
  }

  /** The tail loop of `ShuffleMap`: each raw neighbour of `t` that is a
      valid index trades places with one of the last nine entries. */
  method TailPass(a: array<int>, w: int, t: int)
    requires 9 <= a.Length
    modifies a
    ensures a[..] == TailSwaps(old(a[..]), w, t, 0)
  {
    ghost var m := a[..];
    var j := 0;
    while j < 9
      invariant 0 <= j <= 9 && a[..] == TailPrefix(m, w, t, j)
    {
      var n := RawNeighbour(w, t, j);
      if TileInBounds(a.Length, n) {
        SwapCells(a, a.Length - (j + 1), n);
      }
      j := j + 1;
    }
    TailPrefixComplete(m, w, t);
  }

  /** The body of `ShuffleMap` on the hidden layer `a`: the offset `o` from
      the number of diagonal neighbours of `t` on the board, the
      Fisher-Yates pass from `len - o`, then the tail swaps. */
  method ShuffleLayer(a: array<int>, w: int, h: int, t: int, draws: seq<nat>)
    requires IsLayer(a[..], w, h) && 9 <= a.Length && 0 <= t < a.Length && |draws| >= a.Length
    modifies a
    ensures a[..] == RawShuffle(old(a[..]), w, h, t, draws)
  {
    ghost var m := a[..];
    var o := Offset(w, h, t);
    FisherYatesPass(a, draws, a.Length - o);
    ghost var fy := a[..];
    TailPass(a, w, t);
    assert a[..] == TailSwaps(fy, w, t, 0);
  }

  /** The relocation loop of the corrected shuffle: a mine inside the 3x3
      neighbourhood of `t` trades places with the first free tile outside
      it, when there is one. */
  method RelocatePass(a: array<int>, w: int, t: int)
    modifies a
    ensures a[..] == Relocate(old(a[..]), w, t, 0)
  {
    ghost var m := a[..];
    var k := 0;
    while k < a.Length
      invariant 0 <= k <= a.Length
      invariant Relocate(a[..], w, t, k) == Relocate(m, w, t, 0)
    {
      var f := FirstFree(a[..], w, t, 0);
      ghost var before := a[..];
      if Near(w, t, k) && a[k] == BOMB && f != -1 {
        SwapCells(a, k, f);
      }
      assert a[..] == RelocateOne(before, w, t, k);
      k := k + 1;
    }
  }

  /** The first loop of `InitMap`: the first `n` entries of the visible
      layer hidden, of the hidden layer empty, and of both scan arrays -1;
      the scan entries past `n` untouched. */
  method ClearPrefix(tiles: array<int>, content: array<int>, scanQue: array<int>, tilesScanned: array<int>, n: int)
    requires tiles.Length == n && content.Length == n && n <= scanQue.Length && n <= tilesScanned.Length
    requires tiles != content && tiles != scanQue && tiles != tilesScanned
    requires content != scanQue && content != tilesScanned && scanQue != tilesScanned
    modifies tiles, content, scanQue, tilesScanned
    ensures forall k :: 0 <= k < n ==> tiles[k] == UNREVEALED && scanQue[k] == -1 && tilesScanned[k] == -1
    ensures content[..] == InitLayout(n, 0)
    ensures forall k :: n <= k < scanQue.Length ==> scanQue[k] == old(scanQue[k])
    ensures forall k :: n <= k < tilesScanned.Length ==> tilesScanned[k] == old(tilesScanned[k])
  {
    var i := 0;
    while i < n
      invariant 0 <= i <= n
      invariant forall k :: 0 <= k < i ==>
                  tiles[k] == UNREVEALED && content[k] == REVEALED && scanQue[k] == -1 && tilesScanned[k] == -1
      invariant forall k :: n <= k < scanQue.Length ==> scanQue[k] == old(scanQue[k])
      invariant forall k :: n <= k < tilesScanned.Length ==> tilesScanned[k] == old(tilesScanned[k])
    {
      tiles[i] := UNREVEALED;
      content[i] := REVEALED;
      scanQue[i] := -1;
      tilesScanned[i] := -1;
      i := i + 1;
    }
  }

  /** The second loop of `InitMap`: mines in the first `bombs` tiles of an
      empty hidden layer. */
  method PlaceMines(content: array<int>, bombs: int)
    requires 0 <= bombs <= content.Length && content[..] == InitLayout(content.Length, 0)
    modifies content
    ensures content[..] == InitLayout(content.Length, bombs)
  {
    var i := 0;
    while i < bombs
      invariant 0 <= i <= bombs
      invariant content[..] == InitLayout(content.Length, i)
    {
      content[i] := BOMB;
      i := i + 1;
    }
  }

  class Grid {
    const h: int
    const w: int
    const len: int
    /** The visible layer, one code per tile. */
    const tiles: array<int>
    /** The hidden layer: empty, mine or number per tile. */
    const content: array<int>
    /** The flood marks: the start tile of the flood that last reached a
        tile, or -1. */
    const tilesScanned: array<int>
    /** The flood's work queue. */
    const scanQue: array<int>
    var quePos: int
    var bombCount: int
    var bombsFlagged: int
    var flagCount: int
    var tilesRevealed: int

    /** The sizes the program gives the board and its arrays. */
    ghost predicate Shape()
    {
      ValidDims(w, h) && len == w * h && len >= 9 &&
      tiles.Length == len && content.Length == len &&
      tilesScanned.Length == SCAN_SIZE * len && scanQue.Length == SCAN_SIZE * len &&
      tiles != content && tiles != tilesScanned && tiles != scanQue &&
      content != tilesScanned && content != scanQue && tilesScanned != scanQue
    }

    /** The board invariant: the hidden layer holds hidden-layer codes and
        the two counters agree with the visible layer. */
    ghost predicate Valid()
      reads this`tilesRevealed, this`flagCount, tiles, content
    {
      Shape() &&
      ContentLayer(content[..]) &&
      tilesRevealed == ShownCount(tiles[..]) &&
      flagCount == FlagCount(tiles[..])
    }

    /** `bombsFlagged` counts the flags that sit on mines. */
    ghost predicate MinesTallied()
      reads this`bombsFlagged, tiles, content
      requires Shape()
    {
      bombsFlagged == FlaggedMines(tiles[..], content[..])
    }

    /** The state `InitMap` leaves. */
    ghost predicate IsReset()
      reads this`bombCount, this`bombsFlagged, this`flagCount, this`tilesRevealed, tiles, content, tilesScanned, scanQue
      requires Shape()
    {
      bombCount == MineQuota(len) && bombCount <= len &&
      bombsFlagged == 0 && flagCount == 0 && tilesRevealed == 0 &&
      (forall k :: 0 <= k < len ==> tiles[k] == UNREVEALED) &&
      (forall k :: 0 <= k < len ==> tilesScanned[k] == -1 && scanQue[k] == -1) &&
      content[..] == InitLayout(len, bombCount)
    }

    /** The state inside the loop of `RevealEmptyTiles` for the flood
        `g`, started on the marks `marks0` and the visible layer `tiles0`:
        `i` tiles queued, the first `done` of them expanded, and only
        hidden mine-free tiles uncovered since the start. */
    ghost predicate Flooding(g: int, marks0: seq<int>, tiles0: seq<int>, i: int, done: int)
      reads this`tilesRevealed, this`flagCount, tiles, content, tilesScanned, scanQue
    {
      Valid() && 0 <= i <= scanQue.Length &&
      FloodState(content[..], w, h, marks0, tilesScanned[..], scanQue[..i], done, g) &&
      RevealedOnly(tiles0, tiles[..], content[..]) && QueueShown(tiles[..], scanQue[..i])
    }

    /** The flood's working state with `i` tiles queued and the patience
        at `loop`, as the functional model of the flood sees it. */
    ghost function Now(i: int, loop: int): Scan
      reads this`quePos, tiles, tilesScanned, scanQue
      requires 0 <= i <= scanQue.Length
    {
      Scan(tiles[..], tilesScanned[..], scanQue[..i], quePos, loop)
    }

    /** The board `main` sets up: arrays for a `width` by `height` board,
        then a reset. */
    constructor (width: int, height: int)
      requires ValidDims(width, height) && width * height >= 9
      ensures Valid() && IsReset() && w == width && h == height && quePos == 0
      ensures fresh(tiles) && fresh(content) && fresh(tilesScanned) && fresh(scanQue)
    {
      h, w, len := height, width, width * height;
      tiles := new int[width * height];
      content := new int[width * height];
      tilesScanned := new int[SCAN_SIZE * (width * height)];
      scanQue := new int[SCAN_SIZE * (width * height)];
      quePos := 0;
      new;
      InitMap();
    }

    /** `InitMap`: every tile hidden, the quota of mines in the first tiles
        of the hidden layer, the counters and the first `len` scan entries
        cleared. */
    method InitMap()
      requires Shape()
      modifies this, tiles, content, tilesScanned, scanQue
      ensures Valid() && IsReset() && MinesTallied() && quePos == old(quePos)
      ensures forall k :: len <= k < SCAN_SIZE * len ==>
                tilesScanned[k] == old(tilesScanned[k]) && scanQue[k] == old(scanQue[k])
    {
      bombCount := MineQuota(len);
      MineQuotaFits(len);
      bombsFlagged, flagCount, tilesRevealed := 0, 0, 0;
      ClearPrefix(tiles, content, scanQue, tilesScanned, len);
      PlaceMines(content, bombCount);
      ghost var t := tiles[..];
      CountNone(t, Shown);
      CountNone(t, Flagged);
      FlaggedMinesNone(t, content[..]);
      InitLayoutCodes(len, bombCount);
    }

    /** `RevealTile`: a hidden tile is uncovered and counted, unless it is
        a mine, which is reported with -1; any other tile is left alone
        with 0. */
    method RevealTile(g: int) returns (r: int)
      requires Valid() && 0 <= g < len
      modifies this`tilesRevealed, tiles
      ensures Valid()
      ensures old(tiles[g]) != UNREVEALED ==> r == 0 && tiles[..] == old(tiles[..])
      ensures old(tiles[g]) == UNREVEALED && content[g] == BOMB ==> r == -1 && tiles[..] == old(tiles[..])
      ensures old(tiles[g]) == UNREVEALED && content[g] != BOMB ==>
                r == 1 && tiles[..] == old(tiles[..])[g := content[g]] && Shown(tiles[g])
      ensures tilesRevealed == old(tilesRevealed) + (if r == 1 then 1 else 0)
      ensures old(MinesTallied()) ==> MinesTallied()
    {
      if tiles[g] == UNREVEALED {
        if content[g] == BOMB {
          r := -1;
        } else {
          ghost var s := tiles[..];
          CountUpdate(s, Shown, g, content[g]);
          CountUpdate(s, Flagged, g, content[g]);
          FlaggedMinesUpdate(s, content[..], g, content[g]);
          tiles[g] := content[g];
          assert tiles[..] == s[g := content[g]];
          tilesRevealed := tilesRevealed + 1;
          r := 1;
        }
      } else {
        r := 0;
      }
    }

    /** `FlagTile`: toggles the flag on a hidden tile and keeps the flag
        counters. */
    method FlagTile(g: int)
      requires Valid() && 0 <= g < len
      modifies this`flagCount, this`bombsFlagged, tiles
      ensures Valid()
      ensures tiles[..] == old(tiles[..])[g := FlagStep(old(tiles[g]))]
      ensures flagCount == old(flagCount) +
                (if old(tiles[g]) == UNREVEALED then 1 else if old(tiles[g]) == FLAG then -1 else 0)
      ensures bombsFlagged == old(bombsFlagged) +
                (if content[g] != BOMB then 0
                 else if old(tiles[g]) == UNREVEALED then 1 else if old(tiles[g]) == FLAG then -1 else 0)
      ensures old(MinesTallied()) ==> MinesTallied()
    {
      ghost var s := tiles[..];
      if tiles[g] == FLAG {
        CountUpdate(s, Shown, g, UNREVEALED);
        CountUpdate(s, Flagged, g, UNREVEALED);
        FlaggedMinesUpdate(s, content[..], g, UNREVEALED);
        tiles[g] := UNREVEALED;
        assert tiles[..] == s[g := UNREVEALED];
        flagCount := flagCount - 1;
        if content[g] == BOMB {
          bombsFlagged := bombsFlagged - 1;
        }
      } else if tiles[g] == UNREVEALED {
        CountUpdate(s, Shown, g, FLAG);
        CountUpdate(s, Flagged, g, FLAG);
        FlaggedMinesUpdate(s, content[..], g, FLAG);
        tiles[g] := FLAG;
        assert tiles[..] == s[g := FLAG];
        flagCount := flagCount + 1;
        if content[g] == BOMB {
          bombsFlagged := bombsFlagged + 1;
        }
      }
    }

    /** `GetSurroundingBombCount`: the mines in the 3x3 neighbourhood of a
        tile, counted slot by slot. */
    method GetSurroundingBombCount(t: int) returns (count: int)
      requires Shape() && 0 <= t < len
      ensures count == BombsAround(content[..], w, h, t)
    {
      ghost var m := content[..];
      count := 0;
      var i := 0;
      while i < 9
        invariant 0 <= i <= 9
        invariant count + BombsFrom(m, w, h, t, i) == BombsAround(m, w, h, t)
      {
        ghost var here := SlotHasBomb(m, w, h, t, i);
        if SlotValid(w, h, t, i) {
          SlotOnBoard(w, h, t, i);
          var pos := SlotPos(w, t, i);
          if content[pos] == BOMB {
            count := count + 1;
          }
        }
        assert BombsFrom(m, w, h, t, i) == (if here then 1 else 0) + BombsFrom(m, w, h, t, i + 1);
        i := i + 1;
      }
    }

    /** `GetSurroundingTiles`: for each of the nine slots, the tile it names
        and that tile's hidden code (-1 for both when the slot is off the
        board), and the mine count. */
    method GetSurroundingTiles(t: int) returns (count: int, addrs: seq<int>, codes: seq<int>)
      requires Shape() && 0 <= t < len
      ensures count == BombsAround(content[..], w, h, t)
      ensures |addrs| == 9 && |codes| == 9
      ensures forall j :: 0 <= j < 9 && SlotValid(w, h, t, j) ==>
                addrs[j] == SlotPos(w, t, j) && 0 <= addrs[j] < len && codes[j] == content[addrs[j]]
      ensures forall j :: 0 <= j < 9 && !SlotValid(w, h, t, j) ==>
                addrs[j] == -1 && codes[j] == UNGENERATED
    {
      ghost var m := content[..];
      count, addrs, codes := 0, [], [];
      var i := 0;
      while i < 9
        invariant 0 <= i <= 9 && |addrs| == i
        invariant count + BombsFrom(m, w, h, t, i) == BombsAround(m, w, h, t)
        invariant SlotsListed(m, w, h, t, addrs, codes)
      {
        ghost var addrs0, codes0, here := addrs, codes, SlotHasBomb(m, w, h, t, i);
        if SlotValid(w, h, t, i) {
          SlotOnBoard(w, h, t, i);
          var pos := SlotPos(w, t, i);
          addrs, codes := addrs + [pos], codes + [content[pos]];
          if content[pos] == BOMB {
            count := count + 1;
          }
        } else {
          addrs, codes := addrs + [-1], codes + [UNGENERATED];
        }
        SlotsListedStep(m, w, h, t, addrs0, codes0, addrs[i], codes[i]);
        assert BombsFrom(m, w, h, t, i) == (if here then 1 else 0) + BombsFrom(m, w, h, t, i + 1);
        i := i + 1;
      }
    }

    /** `GenMap`: the number pass over the whole hidden layer. */
    method GenMap()
      requires Valid()
      modifies content
      ensures Valid()
      ensures content[..] == Numbered(old(content[..]), w, h)
    {
      ghost var m := content[..];
      NumberedCodes(m, w, h);
      var i := 0;
      while i < len
        invariant 0 <= i <= len
        invariant NumberedPrefix(content[..], m, w, h, i)
      {
        ghost var c := content[..];
        if content[i] != BOMB {
          NumberedPrefixMines(c, m, w, h, i);
          SameBombsSameCounts(c, m, w, h, i, 0);
          var n := GetSurroundingBombCount(i);
          if n != 0 {
            content[i] := NumTile(n);
          }
        }
        assert content[..] == c[i := NumberAt(m, w, h, i)];
        NumberedPrefixStep(c, m, w, h, i);
        i := i + 1;
      }
      NumberedPrefixDone(content[..], m, w, h);
    }

    /** `ShuffleMap` as written: the Fisher-Yates pass from `len - o` down
        to 1 with `r = rand() % i`, then the tail swaps with the raw
        neighbour list of the first click `t`. */
    method ShuffleMap(t: int, draws: seq<nat>)
      requires Valid() && 0 <= t < len && |draws| >= len
      modifies content
      ensures Valid()
      ensures content[..] == RawShuffle(old(content[..]), w, h, t, draws)
    {
      ghost var m := content[..];
      ShuffleLayer(content, w, h, t, draws);
      RawShuffleKeepsCodes(m, w, h, t, draws);
    }

    /** The corrected shuffle: `ShuffleMap` as written, then every mine left
        in the 3x3 neighbourhood of `t` trades places with the first free
        tile outside it. */
    method ShuffleMapSafe(t: int, draws: seq<nat>)
      requires Valid() && 0 <= t < len && |draws| >= len
      modifies content
      ensures Valid()
      ensures content[..] == SafeShuffle(old(content[..]), w, h, t, draws)
    {
      ghost var m := content[..];
      ShuffleMap(t, draws);
      ghost var raw := content[..];
      RelocatePass(content, w, t);
      RelocateKeepsCodes(raw, w, t);
    }
    /** The body of the inner loop of `RevealEmptyTiles` for a neighbour
        `p` without the mark: mark it, queue it at `i0`, reveal it. */
    method ScanTile(g: int, p: int, i0: int, ghost marks0: seq<int>, ghost tiles0: seq<int>, ghost done: int)
      returns (i: int)
      requires Flooding(g, marks0, tiles0, i0, done) && 0 <= done <= i0
      requires 0 <= p < len && tilesScanned[p] != g && content[p] != BOMB
      modifies this`tilesRevealed, tiles, tilesScanned, scanQue
      ensures Flooding(g, marks0, tiles0, i, done) && i == i0 + 1
      ensures tilesScanned[..] == old(tilesScanned[..])[p := g]
      ensures scanQue[..i] == old(scanQue[..i0]) + [p]
      ensures tiles[..] == Uncover(old(tiles[..]), content[..], p)
    {
      ghost var marks, queue := tilesScanned[..], scanQue[..i0];
      FloodEnqueue(content[..], w, h, marks0, marks, queue, done, g, p);
      tilesScanned[p] := g;
      scanQue[i0] := p;
      i := i0 + 1;
      assert tilesScanned[..] == marks[p := g];
      assert scanQue[..i] == queue + [p];
      var revealed := RevealTile(p);
    }

    /** The inner loop of `RevealEmptyTiles` for a dequeued tile `k` with
        no mine around it: each neighbour (`addrs`, from
        `GetSurroundingTiles`) that does not carry the mark `g` is marked,
        queued at `i` and revealed, and the patience is reset. */
    method ScanNeighbours(g: int, k: int, addrs: seq<int>, i0: int, loop0: int,
                          ghost marks0: seq<int>, ghost tiles0: seq<int>, ghost done: int)
      returns (i: int, loop: int)
      requires Flooding(g, marks0, tiles0, i0, done) && 0 <= done < i0 && 0 <= k < len
      requires |addrs| == 9
      requires forall j :: 0 <= j < 9 && SlotValid(w, h, k, j) ==> addrs[j] == SlotPos(w, k, j) && 0 <= addrs[j] < len
      requires forall j :: 0 <= j < 9 && !SlotValid(w, h, k, j) ==> addrs[j] == -1
      requires BombsAround(content[..], w, h, k) == 0
      requires scanQue[done] == k
      modifies this`tilesRevealed, tiles, tilesScanned, scanQue
      ensures Flooding(g, marks0, tiles0, i, done + 1) && i0 <= i
      ensures loop == if i > i0 then SCAN_PATIENCE else loop0
      ensures Now(i, loop) == SlotsUpTo(content[..], w, h, g, k, 9, old(Now(i0, loop0)))
    {
      ghost var m := content[..];
      ghost var s0 := Now(i0, loop0);
      ghost var st := s0;
      i, loop := i0, loop0;
      var j := 0;
      while j < 9
        invariant Flooding(g, marks0, tiles0, i, done)
        invariant 0 <= j <= 9 && i0 <= i && scanQue[..i][done] == k
        invariant SlotsMarked(tilesScanned[..], w, h, k, j, g)
        invariant loop == if i > i0 then SCAN_PATIENCE else loop0
        invariant st == SlotsUpTo(m, w, h, g, k, j, s0)
        invariant tiles[..] == st.tiles && tilesScanned[..] == st.marks && scanQue[..i] == st.queue
        invariant quePos == st.quePos && loop == st.loop
      {
        ghost var prev := st;
        i, loop := ScanSlot(g, k, j, addrs[j], i, loop, marks0, tiles0, done, m, prev);
        st := Now(i, loop);
        j := j + 1;
      }
      NeighboursExpanded(g, k, marks0, tiles0, i, done);
    }

    /** Once all nine slots of the dequeued tile `k` carry the mark, `k`
        counts as expanded. */
    lemma NeighboursExpanded(g: int, k: int, marks0: seq<int>, tiles0: seq<int>, i: int, done: int)
      requires Flooding(g, marks0, tiles0, i, done) && 0 <= done < i && 0 <= k < len
      requires scanQue[..i][done] == k && SlotsMarked(tilesScanned[..], w, h, k, 9, g)
      ensures Flooding(g, marks0, tiles0, i, done + 1)
    {
      SlotsMarkedExpanded(content[..], w, h, tilesScanned[..], k, g);
      FloodNext(content[..], w, h, marks0, tilesScanned[..], scanQue[..i], done, g);
    }

    /** Slot `j` of the inner loop of `RevealEmptyTiles` for the tile `k`:
        the neighbour `scanPos` (-1 off the board) is scanned unless it
        already carries the mark `g`. */
    method ScanSlot(g: int, k: int, j: int, scanPos: int, i0: int, loop0: int,
                    ghost marks0: seq<int>, ghost tiles0: seq<int>, ghost done: int,
                    ghost m: seq<int>, ghost s: Scan)
      returns (i: int, loop: int)
      requires Flooding(g, marks0, tiles0, i0, done) && 0 <= done < i0 && 0 <= k < len && 0 <= j < 9
      requires SlotValid(w, h, k, j) ==> scanPos == SlotPos(w, k, j) && 0 <= scanPos < len
      requires !SlotValid(w, h, k, j) ==> scanPos == -1
      requires BombsAround(content[..], w, h, k) == 0
      requires scanQue[..i0][done] == k && SlotsMarked(tilesScanned[..], w, h, k, j, g)
      requires m == content[..] && s == Now(i0, loop0)
      modifies this`tilesRevealed, tiles, tilesScanned, scanQue
      ensures Flooding(g, marks0, tiles0, i, done) && i0 <= i && scanQue[..i][done] == k
      ensures SlotsMarked(tilesScanned[..], w, h, k, j + 1, g)
      ensures loop == if i > i0 then SCAN_PATIENCE else loop0
      ensures Now(i, loop) == SlotStep(m, w, h, g, k, j, s)
    {
      ghost var marks := tilesScanned[..];
      if scanPos != -1 && tilesScanned[scanPos] != g {
        loop := SCAN_PATIENCE;
        ZeroAroundNoBombs(content[..], w, h, k, 0, j);
        i := ScanTile(g, scanPos, i0, marks0, tiles0, done);
        SlotsMarkedStep(marks, tilesScanned[..], w, h, k, j, g);
      } else {
        i, loop := i0, loop0;
        SlotsMarkedStep(marks, marks, w, h, k, j, g);
      }
    }

    /** One pass of the loop of `RevealEmptyTiles` with work queued: the
        next queued tile is dequeued and expanded; the patience drops by
        one unless a tile was queued. */
    method ScanNext(g: int, i0: int, loop0: int, ghost marks0: seq<int>, ghost tiles0: seq<int>)
      returns (i: int, loop: int)
      requires Flooding(g, marks0, tiles0, i0, quePos) && 0 <= quePos < i0 <= len
      modifies this`quePos, this`tilesRevealed, tiles, tilesScanned, scanQue
      ensures Flooding(g, marks0, tiles0, i, quePos) && quePos == old(quePos) + 1 && quePos <= i <= len
      ensures loop == if i > i0 then SCAN_PATIENCE else loop0 - 1
      ensures Now(i, loop) == ScanStep(content[..], w, h, g, old(Now(i0, loop0)))
    {
      ghost var s0 := Now(i0, loop0);
      var k := scanQue[quePos];
      assert k == s0.queue[s0.quePos] && 0 <= k < len;
      StepDequeues(content[..], w, h, g, s0, k);
      quePos := quePos + 1;
      assert Now(i0, loop0 - 1) == s0.(quePos := quePos, loop := loop0 - 1);
      ghost var flooding := Flooding(g, marks0, tiles0, i0, quePos - 1);
      assert flooding;
      var count, addrs, codes := GetSurroundingTiles(k);
      i, loop := ScanDequeued(g, k, count, addrs, i0, loop0 - 1, marks0, tiles0);
      FloodBound(content[..], w, h, marks0, tilesScanned[..], scanQue[..i], quePos, g);
    }

    /** The expansion of the dequeued tile `k`: when `count`, the number
        of mines around it, is zero, its neighbours are scanned. */
    method ScanDequeued(g: int, k: int, count: int, addrs: seq<int>, i0: int, loop0: int,
                        ghost marks0: seq<int>, ghost tiles0: seq<int>)
      returns (i: int, loop: int)
      requires Flooding(g, marks0, tiles0, i0, quePos - 1) && 0 < quePos <= i0 && scanQue[quePos - 1] == k
      requires 0 <= k < len && count == BombsAround(content[..], w, h, k) && |addrs| == 9
      requires forall j :: 0 <= j < 9 && SlotValid(w, h, k, j) ==> addrs[j] == SlotPos(w, k, j) && 0 <= addrs[j] < len
      requires forall j :: 0 <= j < 9 && !SlotValid(w, h, k, j) ==> addrs[j] == -1
      modifies this`tilesRevealed, tiles, tilesScanned, scanQue
      ensures Flooding(g, marks0, tiles0, i, quePos) && i0 <= i
      ensures loop == if i > i0 then SCAN_PATIENCE else loop0
      ensures Now(i, loop) == if count == 0 then SlotsUpTo(content[..], w, h, g, k, 9, old(Now(i0, loop0)))
                              else old(Now(i0, loop0))
    {
      i, loop := i0, loop0;
      if count == 0 {
        i, loop := ScanNeighbours(g, k, addrs, i, loop, marks0, tiles0, quePos - 1);
      } else {
        FloodingSkip(g, marks0, tiles0, i, k);
      }
    }

    /** A dequeued tile with a mine around it is expanded as it stands. */
    lemma FloodingSkip(g: int, marks0: seq<int>, tiles0: seq<int>, i: int, k: int)
      requires Flooding(g, marks0, tiles0, i, quePos - 1) && 0 < quePos <= i && scanQue[quePos - 1] == k
      requires 0 <= k < len && BombsAround(content[..], w, h, k) != 0
      ensures Flooding(g, marks0, tiles0, i, quePos)
    {
      assert scanQue[..i][quePos - 1] == k;
      FloodNext(content[..], w, h, marks0, tilesScanned[..], scanQue[..i], quePos - 1, g);
    }

    /** The set-up of `RevealEmptyTiles`: the start tile `g` is marked and
        queued, and the read cursor goes back to the head of the queue. */
    method ScanStart(g: int)
      requires Valid() && 0 <= g < len
      modifies this`quePos, tilesScanned, scanQue
      ensures Flooding(g, old(tilesScanned[..]), tiles[..], 1, 0) && quePos == 0
      ensures Now(1, SCAN_PATIENCE) == ScanBegin(tiles[..], old(tilesScanned[..]), g)
    {
      ghost var marks0 := tilesScanned[..];
      quePos := 0;
      scanQue[0] := g;
      tilesScanned[g] := g;
      FloodStart(content[..], w, h, marks0, g);
      assert tilesScanned[..] == marks0[g := g];
      assert scanQue[..1] == [g];
    }

    /** The loop of `RevealEmptyTiles`, from the start tile queued with
        full patience: it runs pass by pass as `ScanRun` says, and so
        stops only once the patience is used up. */
    method ScanLoop(g: int, ghost marks0: seq<int>, ghost tiles0: seq<int>) returns (i: int, loop: int)
      requires Flooding(g, marks0, tiles0, 1, 0) && quePos == 0
      requires 0 <= g < |marks0| && Now(1, SCAN_PATIENCE) == ScanBegin(tiles0, marks0, g)
      modifies this`quePos, this`tilesRevealed, tiles, tilesScanned, scanQue
      ensures Flooding(g, marks0, tiles0, i, quePos) && 0 <= quePos <= i <= len
      ensures Now(i, loop) == ScanRun(content[..], w, h, g, ScanBegin(tiles0, marks0, g))
      ensures var r := ScanRun(content[..], w, h, g, ScanBegin(tiles0, marks0, g));
              tiles[..] == r.tiles && tilesScanned[..] == r.marks && scanQue[..i] == r.queue && quePos == r.quePos
      ensures loop <= 0
    {
      ghost var m, s0 := content[..], Now(1, SCAN_PATIENCE);
      loop := SCAN_PATIENCE;
      i := 1;
      while i < SCAN_SIZE * len && loop > 0
        invariant Flooding(g, marks0, tiles0, i, quePos) && 0 <= quePos <= i <= len
        invariant ScanRun(m, w, h, g, Now(i, loop)) == ScanRun(m, w, h, g, s0)
        decreases len - quePos, loop
      {
        ghost var s := Now(i, loop);
        if i > quePos {
          i, loop := ScanNext(g, i, loop, marks0, tiles0);
        } else {
          loop := 0;
        }
        assert Now(i, loop) == ScanStep(m, w, h, g, s);
      }
    }

    /** What every flood leaves, read off its state once the passes stop
        with `i` tiles queued. */
    lemma FloodEnd(g: int, marks0: seq<int>, tiles0: seq<int>, i: int)
      requires Flooding(g, marks0, tiles0, i, quePos) && 0 <= quePos <= i <= len && 0 <= g < len
      requires |tiles0| == len
      ensures tilesRevealed == ShownCount(tiles0) + Changed(tiles0, tiles[..])
      ensures FlaggedMines(tiles[..], content[..]) == FlaggedMines(tiles0, content[..])
      ensures 1 <= i && scanQue[0] == g && Distinct(scanQue[..i])
      ensures forall q :: 0 <= q < i ==> 0 <= scanQue[q] < len && tilesScanned[scanQue[q]] == g
      ensures tilesScanned[g] == g
      ensures forall p :: 0 <= p < tilesScanned.Length ==> tilesScanned[p] == marks0[p] || tilesScanned[p] == g
      ensures forall p :: 0 <= p < len && p != g && tilesScanned[p] == g && marks0[p] != g ==>
                content[p] != BOMB && tiles[p] != UNREVEALED
      ensures quePos == i && (forall p :: 0 <= p < len ==> marks0[p] != g) ==>
                Closed(content[..], w, h, tilesScanned[..], g)
    {
      var queue := scanQue[..i];
      FloodMarks(content[..], w, h, marks0, tilesScanned[..], queue, quePos, g, tiles[..]);
      RevealedOnlyCounts(tiles0, tiles[..], content[..]);
      if quePos == i && (forall p :: 0 <= p < len ==> marks0[p] != g) {
        FloodClosed(content[..], w, h, marks0, tilesScanned[..], queue, g);
      }
      forall q | 0 <= q < i
        ensures 0 <= scanQue[q] < len && tilesScanned[scanQue[q]] == g
      {
        assert scanQue[q] == queue[q];
      }
    }

    /** The loop of the flood without the countdown: passes run until
        the queue is read to its end. */
    method ScanDrain(g: int, ghost marks0: seq<int>, ghost tiles0: seq<int>) returns (i: int)
      requires Flooding(g, marks0, tiles0, 1, 0) && quePos == 0
      modifies this`quePos, this`tilesRevealed, tiles, tilesScanned, scanQue
      ensures Flooding(g, marks0, tiles0, i, quePos) && 0 <= quePos == i <= len
    {
      i := 1;
      while quePos < i
        invariant Flooding(g, marks0, tiles0, i, quePos) && 0 <= quePos <= i <= len
        decreases len - quePos
      {
        var loop;
        i, loop := ScanNext(g, i, SCAN_PATIENCE, marks0, tiles0);
      }
    }

    /** `RevealEmptyTiles`: the flood from a just-uncovered empty tile `g`.
        It queues `g` with the mark `g`, then dequeues tile after tile;
        one with no mine around it has its unmarked neighbours marked,
        queued and revealed.  The final visible layer, marks, queue and
        read cursor are those of `ScanRun` from the start state, so the
        flood stops after `SCAN_PATIENCE` dequeues in a row that queue
        nothing, whether or not tiles are still queued.  Only hidden
        mine-free tiles are uncovered, marks only change to `g`, every
        newly marked tile is mine-free and uncovered (unless flagged), and
        when the queue was read to its end and no stale mark `g` was found
        the marked region is closed: every marked tile with no mine around
        it has all its neighbours marked. */
    method RevealEmptyTiles(g: int) returns (ghost queue: seq<int>)
      requires Valid() && 0 <= g < len
      modifies this`quePos, this`tilesRevealed, tiles, tilesScanned, scanQue
      ensures Valid()
      ensures var r := ScanRun(content[..], w, h, g, ScanBegin(old(tiles[..]), old(tilesScanned[..]), g));
              tiles[..] == r.tiles && tilesScanned[..] == r.marks && queue == r.queue && quePos == r.quePos
      ensures RevealedOnly(old(tiles[..]), tiles[..], content[..])
      ensures tilesRevealed == old(tilesRevealed) + Changed(old(tiles[..]), tiles[..])
      ensures old(MinesTallied()) ==> MinesTallied()
      ensures 1 <= |queue| <= len && queue[0] == g && Distinct(queue) && queue == scanQue[..|queue|]
      ensures 0 <= quePos <= |queue|
      ensures forall q :: 0 <= q < |queue| ==> 0 <= queue[q] < len && tilesScanned[queue[q]] == g
      ensures tilesScanned[g] == g
      ensures forall p :: 0 <= p < tilesScanned.Length ==>
                tilesScanned[p] == old(tilesScanned[p]) || tilesScanned[p] == g
      ensures forall p :: 0 <= p < len && p != g && tilesScanned[p] == g && old(tilesScanned[p]) != g ==>
                content[p] != BOMB && tiles[p] != UNREVEALED
      ensures quePos == |queue| && (forall p :: 0 <= p < len ==> old(tilesScanned[p]) != g) ==>
                Closed(content[..], w, h, tilesScanned[..], g)
    {
      ghost var marks0, tiles0 := tilesScanned[..], tiles[..];
      ScanStart(g);
      var i, loop := ScanLoop(g, marks0, tiles0);
      queue := scanQue[..i];
      FloodEnd(g, marks0, tiles0, i);
    }

    /** The flood without the countdown: tiles are dequeued until the
        queue is read to its end.  Besides everything `RevealEmptyTiles`
        keeps, the queue is always drained, so a flood that found no stale
        mark `g` leaves the marked region closed. */
    method RevealRegion(g: int) returns (ghost queue: seq<int>)
      requires Valid() && 0 <= g < len
      modifies this`quePos, this`tilesRevealed, tiles, tilesScanned, scanQue
      ensures Valid()
      ensures RevealedOnly(old(tiles[..]), tiles[..], content[..])
      ensures tilesRevealed == old(tilesRevealed) + Changed(old(tiles[..]), tiles[..])
      ensures old(MinesTallied()) ==> MinesTallied()
      ensures 1 <= |queue| <= len && queue[0] == g && Distinct(queue) && queue == scanQue[..|queue|]
      ensures quePos == |queue|
      ensures forall q :: 0 <= q < |queue| ==> 0 <= queue[q] < len && tilesScanned[queue[q]] == g
      ensures tilesScanned[g] == g
      ensures forall p :: 0 <= p < tilesScanned.Length ==>
                tilesScanned[p] == old(tilesScanned[p]) || tilesScanned[p] == g
      ensures forall p :: 0 <= p < len && p != g && tilesScanned[p] == g && old(tilesScanned[p]) != g ==>
                content[p] != BOMB && tiles[p] != UNREVEALED
      ensures (forall p :: 0 <= p < len ==> old(tilesScanned[p]) != g) ==>
                Closed(content[..], w, h, tilesScanned[..], g)
    {
      ghost var marks0, tiles0 := tilesScanned[..], tiles[..];
      ScanStart(g);
      var i := ScanDrain(g, marks0, tiles0);
      queue := scanQue[..i];
      FloodEnd(g, marks0, tiles0, i);
    }
  }
}
