/** The number pass (`GenMap`) as a function on the hidden layer: every
    tile that is not a mine and has mines around it gets the number of
    those mines. */
module Numbers {
  import opened Codes
  import opened Board
  import opened Tally

  /** What the number pass leaves at tile `k`. */
  function NumberAt(m: seq<int>, w: int, h: int, k: int): int
    requires IsLayer(m, w, h) && 0 <= k < |m|
  {
    if m[k] == BOMB then BOMB
    else
      var c := BombsAround(m, w, h, k);
      if c == 0 then m[k] else NumTile(c)
  }

  /** The layer after the number pass. */
  function Numbered(m: seq<int>, w: int, h: int): (r: seq<int>)
    requires IsLayer(m, w, h)
    ensures |r| == |m|
  {
    seq(|m|, k requires 0 <= k < |m| => NumberAt(m, w, h, k))
  }

  /** The number pass done for tiles `0..i-1` of `m`, the rest untouched. */
  predicate NumberedPrefix(c: seq<int>, m: seq<int>, w: int, h: int, i: int)
    requires IsLayer(m, w, h)
  {
    |c| == |m| && 0 <= i <= |m| &&
    (forall k :: 0 <= k < i ==> c[k] == NumberAt(m, w, h, k)) &&
    (forall k :: i <= k < |m| ==> c[k] == m[k])
  }

  lemma {:induction false} NumberedPrefixStep(c: seq<int>, m: seq<int>, w: int, h: int, i: int)
    requires IsLayer(m, w, h) && NumberedPrefix(c, m, w, h, i) && i < |m|
    ensures NumberedPrefix(c[i := NumberAt(m, w, h, i)], m, w, h, i + 1)
  {
  }

  /** Part way through, the pass has moved no mine. */
  lemma {:induction false} NumberedPrefixMines(c: seq<int>, m: seq<int>, w: int, h: int, i: int)
    requires IsLayer(m, w, h) && NumberedPrefix(c, m, w, h, i)
    ensures forall k :: 0 <= k < |c| ==> (c[k] == BOMB <==> m[k] == BOMB)
  {
    NumberedKeepsMines(m, w, h);
    forall k | 0 <= k < i
      ensures c[k] == BOMB <==> m[k] == BOMB
    {
      assert Numbered(m, w, h)[k] == NumberAt(m, w, h, k);
    }
  }

  lemma {:induction false} NumberedPrefixDone(c: seq<int>, m: seq<int>, w: int, h: int)
    requires IsLayer(m, w, h) && NumberedPrefix(c, m, w, h, |m|)
    ensures c == Numbered(m, w, h)
  {
  }

  /** The number pass keeps the mines where they are and adds none. */
  lemma {:induction false} NumberedKeepsMines(m: seq<int>, w: int, h: int)
    requires IsLayer(m, w, h)
    ensures forall k :: 0 <= k < |m| ==> (Numbered(m, w, h)[k] == BOMB <==> m[k] == BOMB)
    ensures BombSet(Numbered(m, w, h)) == BombSet(m)
  {
    var r := Numbered(m, w, h);
    forall k | 0 <= k < |m|
      ensures r[k] == BOMB <==> m[k] == BOMB
    {
      if m[k] != BOMB && BombsAround(m, w, h, k) != 0 {
        NumTileDistinct(BombsAround(m, w, h, k));
      }
    }
  }

  /** On a fresh layer, a safe tile shows empty exactly when no mine is
      adjacent, and otherwise the number of adjacent mines, between 1 and
      8; every tile ends with a hidden-layer code. */
  lemma {:induction false} NumberedMeaning(m: seq<int>, w: int, h: int, k: int)
    requires IsLayer(m, w, h) && Unnumbered(m) && 0 <= k < |m|
    ensures IsContentCode(Numbered(m, w, h)[k])
    ensures m[k] == BOMB ==> Numbered(m, w, h)[k] == BOMB
    ensures m[k] != BOMB ==>
              var n := |AdjacentBombs(m, w, k)|;
              1 <= n <= 8 ==> Numbered(m, w, h)[k] == NumTile(n)
    ensures m[k] != BOMB ==>
              (Numbered(m, w, h)[k] == REVEALED <==> |AdjacentBombs(m, w, k)| == 0)
  {
    if m[k] != BOMB {
      AroundSafeTile(m, w, h, k);
      if BombsAround(m, w, h, k) != 0 {
        NumTileDistinct(BombsAround(m, w, h, k));
      }
    }
  }

  /** Running the number pass twice changes nothing: the mines, and with
      them every count, are the same the second time. */
  lemma {:induction false} NumberedIdempotent(m: seq<int>, w: int, h: int)
    requires IsLayer(m, w, h)
    ensures Numbered(Numbered(m, w, h), w, h) == Numbered(m, w, h)
  {
    var r := Numbered(m, w, h);
    NumberedKeepsMines(m, w, h);
    forall k | 0 <= k < |m|
      ensures Numbered(r, w, h)[k] == r[k]
    {
      SameBombsSameCounts(r, m, w, h, k, 0);
      if m[k] != BOMB && BombsAround(m, w, h, k) != 0 {
        NumTileDistinct(BombsAround(m, w, h, k));
      }
    }
  }

  /** The number pass keeps every tile a hidden-layer code. */
  lemma {:induction false} NumberedCodes(m: seq<int>, w: int, h: int)
    requires IsLayer(m, w, h) && ContentLayer(m)
    ensures ContentLayer(Numbered(m, w, h))
  {
    forall k | 0 <= k < |m|
      ensures IsContentCode(Numbered(m, w, h)[k])
    {
      if m[k] != BOMB {
        AroundSafeTile(m, w, h, k);
      }
    }
  }
}
