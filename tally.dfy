/** Counting tiles by code: the bookkeeping behind the engine's revealed
    and flag counters, and the win test. */
module Tally {
  import opened Codes

  /** The number of entries of `s` whose code satisfies `p`. */
  function Count(s: seq<int>, p: int -> bool): (c: nat)
    ensures c <= |s|
    decreases |s|
  {
    if s == [] then 0 else Count(s[..|s| - 1], p) + (if p(s[|s| - 1]) then 1 else 0)
  }

  /** The revealed safe tiles of a visible layer. */
  function ShownCount(s: seq<int>): nat
  {
    Count(s, Shown)
  }

  /** The tiles a visible layer counts as flagged. */
  function FlagCount(s: seq<int>): nat
  {
    Count(s, Flagged)
  }

  /** A tile of the hidden layer that is not a mine. */
  predicate Safe(c: int)
  {
    c != BOMB
  }

  /** One write changes a count by at most one, as the old and the new
      code at that position decide. */
  lemma {:induction false} CountUpdate(s: seq<int>, p: int -> bool, i: int, v: int)
    requires 0 <= i < |s|
    ensures Count(s[i := v], p) == Count(s, p) - (if p(s[i]) then 1 else 0) + (if p(v) then 1 else 0)
    decreases |s|
  {
    var n := |s| - 1;
    var t := s[i := v];
    if i == n {
      assert t[..n] == s[..n];
    } else {
      assert t[..n] == s[..n][i := v];
      CountUpdate(s[..n], p, i, v);
    }
  }

  /** A layer none of whose codes satisfies `p` counts zero. */
  lemma {:induction false} CountNone(s: seq<int>, p: int -> bool)
    requires forall k :: 0 <= k < |s| ==> !p(s[k])
    ensures Count(s, p) == 0
    decreases |s|
  {
    if s != [] {
      CountNone(s[..|s| - 1], p);
    }
  }

  /** If every entry satisfying `p` sits where `m` satisfies `q`, the
      `p`-count is at most the `q`-count, and the two are equal exactly
      when every `q` position of `m` is a `p` position of `s`. */
  lemma {:induction false} CountCovered(s: seq<int>, p: int -> bool, m: seq<int>, q: int -> bool)
    requires |s| == |m|
    requires forall k :: 0 <= k < |s| && p(s[k]) ==> q(m[k])
    ensures Count(s, p) <= Count(m, q)
    ensures Count(s, p) == Count(m, q) <==> forall k :: 0 <= k < |m| && q(m[k]) ==> p(s[k])
    decreases |s|
  {
    if s != [] {
      var n := |s| - 1;
      CountCovered(s[..n], p, m[..n], q);
      if Count(s, p) == Count(m, q) {
        forall k | 0 <= k < |m| && q(m[k])
          ensures p(s[k])
        {
          if k < n {
            assert m[..n][k] == m[k] && s[..n][k] == s[k];
          }
        }
      }
      if forall k :: 0 <= k < |m| && q(m[k]) ==> p(s[k]) {
        assert forall k :: 0 <= k < n && q(m[..n][k]) ==> p(s[..n][k]);
      }
    }
  }

  /** Layers that agree position by position on `p` have equal counts. */
  lemma {:induction false} CountSame(s: seq<int>, s': seq<int>, p: int -> bool)
    requires |s| == |s'| && forall k :: 0 <= k < |s| ==> (p(s[k]) <==> p(s'[k]))
    ensures Count(s, p) == Count(s', p)
    decreases |s|
  {
    if s != [] {
      var n := |s| - 1;
      CountSame(s[..n], s'[..n], p);
    }
  }

  /** A zero count means no entry satisfies `p`. */
  lemma {:induction false} CountZero(s: seq<int>, p: int -> bool)
    requires Count(s, p) == 0
    ensures forall k :: 0 <= k < |s| ==> !p(s[k])
    decreases |s|
  {
    if s != [] {
      var n := |s| - 1;
      CountZero(s[..n], p);
      assert forall k :: 0 <= k < n ==> s[..n][k] == s[k];
    }
  }

  /** The mines and the safe tiles of a layer make up all of it. */
  lemma {:induction false} SafeCountComplement(m: seq<int>)
    ensures Count(m, Safe) + multiset(m)[BOMB] == |m|
    decreases |m|
  {
    if m != [] {
      var n := |m| - 1;
      SafeCountComplement(m[..n]);
      assert m == m[..n] + [m[n]];
      assert multiset(m) == multiset(m[..n]) + multiset{m[n]};
    }
  }

  /** The indices `0 .. n-1`. */
  function RangeSet(n: int): (s: set<int>)
    ensures forall k :: k in s <==> 0 <= k < n
    ensures n >= 0 ==> |s| == n
    decreases n
  {
    if n <= 0 then {} else RangeSet(n - 1) + {n - 1}
  }

  /** A subset is no larger. */
  lemma {:induction false} SubsetSize(a: set<int>, b: set<int>)
    ensures a <= b ==> |a| <= |b|
  {
    if a <= b {
      assert b == a + (b - a);
      assert |b| == |a| + |b - a|;
    }
  }
  /** The flags that sit on mines (`bombsFlagged`'s meaning): positions
      where the visible layer `t` holds `FLAG` and the hidden layer `c` a
      mine. */
  function FlaggedMines(t: seq<int>, c: seq<int>): (n: nat)
    requires |t| <= |c|
    ensures n <= |t|
    decreases |t|
  {
    if t == [] then 0
    else FlaggedMines(t[..|t| - 1], c) + (if t[|t| - 1] == FLAG && c[|t| - 1] == BOMB then 1 else 0)
  }

  /** One write to the visible layer changes the flagged-mine tally as the
      old and new code at that position decide. */
  lemma {:induction false} FlaggedMinesUpdate(t: seq<int>, c: seq<int>, i: int, v: int)
    requires |t| <= |c| && 0 <= i < |t|
    ensures FlaggedMines(t[i := v], c) ==
              FlaggedMines(t, c) - (if t[i] == FLAG && c[i] == BOMB then 1 else 0)
                                 + (if v == FLAG && c[i] == BOMB then 1 else 0)
    decreases |t|
  {
    var n := |t| - 1;
    var u := t[i := v];
    if i == n {
      assert u[..n] == t[..n];
    } else {
      assert u[..n] == t[..n][i := v];
      FlaggedMinesUpdate(t[..n], c, i, v);
    }
  }

  /** A visible layer without flags has no flagged mines. */
  lemma {:induction false} FlaggedMinesNone(t: seq<int>, c: seq<int>)
    requires |t| <= |c| && forall k :: 0 <= k < |t| ==> t[k] != FLAG
    ensures FlaggedMines(t, c) == 0
    decreases |t|
  {
    if t != [] {
      FlaggedMinesNone(t[..|t| - 1], c);
    }
  }

  /** The visible layer went from `t0` to `t` only by uncovering hidden
      mine-free tiles. */
  predicate RevealedOnly(t0: seq<int>, t: seq<int>, c: seq<int>)
  {
    |t| == |t0| && |t| <= |c| &&
    forall p :: 0 <= p < |t| ==> t[p] == t0[p] || (t0[p] == UNREVEALED && c[p] != BOMB && t[p] == c[p])
  }

  /** The number of positions at which two layers differ. */
  function Changed(t0: seq<int>, t: seq<int>): (n: nat)
    requires |t0| == |t|
    ensures n <= |t|
    decreases |t|
  {
    if t == [] then 0
    else Changed(t0[..|t| - 1], t[..|t| - 1]) + (if t0[|t| - 1] != t[|t| - 1] then 1 else 0)
  }

  /** Uncovering tiles of a hidden layer of hidden-layer codes raises the
      revealed count by exactly the number of tiles changed, and leaves the
      flag count and the flagged-mine tally as they were. */
  lemma {:induction false} RevealedOnlyCounts(t0: seq<int>, t: seq<int>, c: seq<int>)
    requires RevealedOnly(t0, t, c) && ContentLayer(c)
    ensures ShownCount(t) == ShownCount(t0) + Changed(t0, t)
    ensures FlagCount(t) == FlagCount(t0)
    ensures FlaggedMines(t, c) == FlaggedMines(t0, c)
    decreases |t|
  {
    if t != [] {
      var n := |t| - 1;
      assert RevealedOnly(t0[..n], t[..n], c);
      RevealedOnlyCounts(t0[..n], t[..n], c);
      assert IsContentCode(c[n]);
    }
  }
}
