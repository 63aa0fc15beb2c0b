/** `shuffleGallery()` of the gallery page (gallery-common.js): a Fisher–Yates
    shuffle of the grid's children, in place, followed by a toast. */
module Shuffle {
  import opened Browser

  const ShuffledToast := "Gallery shuffled!"

  /** The indices `Math.floor(Math.random() * (i + 1))` returns, one per step: the
      step for `i` (the `k`-th step, `i == n - 1 - k` for `n` children) uses
      `picks[k]`, which lies in `[0, i]`. */
  predicate ValidPicks(picks: seq<nat>, n: nat) {
    |picks| + 1 >= n && forall k :: 0 <= k < |picks| && k < n ==> picks[k] + k < n
  }

  /** `[s[i], s[j]] = [s[j], s[i]]`. */
  function Swap<T>(s: seq<T>, i: nat, j: nat): (r: seq<T>)
    requires i < |s| && j < |s|
    ensures |r| == |s| && r[i] == s[j] && r[j] == s[i]
  {
    s[i := s[j]][j := s[i]]
  }

  /** A swap leaves every other place as it was. */
  lemma SwapKeepsOthers<T>(s: seq<T>, i: nat, j: nat)
    requires i < |s| && j < |s|
    ensures forall k :: 0 <= k < |s| && k != i && k != j ==> Swap(s, i, j)[k] == s[k]
  {
  }

  lemma SwapPermutes<T>(s: seq<T>, i: nat, j: nat)
    requires i < |s| && j < |s|
    ensures multiset(Swap(s, i, j)) == multiset(s)
  {
  }

  /** The steps of the loop for `i` from `i` down to 1, the step for `i` using the
      index `picks[|s| - 1 - i]`. */
  function Shuffled<T>(s: seq<T>, picks: seq<nat>, i: nat): (r: seq<T>)
    requires i < |s| && ValidPicks(picks, |s|)
    ensures |r| == |s|
    decreases i
  {
    if i == 0 then s
    else Shuffled(Swap(s, i, picks[|s| - 1 - i]), picks, i - 1)
  }

  /** The shuffle is a permutation: the same children, each as often as before. */
  lemma {:induction false} ShuffledPermutes<T>(s: seq<T>, picks: seq<nat>, i: nat)
    requires i < |s| && ValidPicks(picks, |s|)
    ensures multiset(Shuffled(s, picks, i)) == multiset(s)
    decreases i
  {
    if i > 0 {
      var t := Swap(s, i, picks[|s| - 1 - i]);
      SwapPermutes(s, i, picks[|s| - 1 - i]);
      ShuffledPermutes(t, picks, i - 1);
    }
  }

  /** The first step puts the element of the first pick in the last place, and
      the later steps leave it there. */
  lemma LastPlaceChosenFirst<T>(s: seq<T>, picks: seq<nat>, n: nat)
    requires 0 < n && n + 1 == |s| && ValidPicks(picks, |s|)
    ensures Shuffled(s, picks, n)[n] == s[picks[0]]
  {
    FirstStep(s, picks, n);
    FinalPlaceKept(Swap(s, n, picks[0]), picks, n - 1, n);
  }

  lemma FirstStep<T>(s: seq<T>, picks: seq<nat>, n: nat)
    requires 0 < n && n + 1 == |s| && ValidPicks(picks, |s|)
    ensures Shuffled(s, picks, n) == Shuffled(Swap(s, n, picks[0]), picks, n - 1)
  {
  }

  /** The steps from `i` down never touch the places above `i`. */
  lemma {:induction false} FinalPlaceKept<T>(s: seq<T>, picks: seq<nat>, i: nat, k: nat)
    requires i < k < |s| && ValidPicks(picks, |s|)
    ensures Shuffled(s, picks, i)[k] == s[k]
    decreases i
  {
    if i > 0 {
      var t := Swap(s, i, picks[|s| - 1 - i]);
      FinalPlaceKept(t, picks, i - 1, k);
    }
  }

  /** The destructuring swap of two cells. */
  method SwapCells<T>(a: array<T>, i: nat, j: nat)
    requires i < a.Length && j < a.Length
    modifies a
    ensures a[..] == Swap(old(a[..]), i, j)
  {
    a[i], a[j] := a[j], a[i];
  }

  /** `shuffleGallery()` with the grid's children in `grid` (null when there is no
      grid) and the indices the random draws give, in order, in `picks`. */
  method ShuffleGallery<T>(grid: array?<T>, picks: seq<nat>) returns (effects: seq<Effect>)
    requires grid != null ==> ValidPicks(picks, grid.Length)
    modifies grid
    ensures grid == null ==> effects == []
    ensures grid != null ==> effects == [Toast(ShuffledToast)]
    ensures grid != null ==> multiset(grid[..]) == multiset(old(grid[..]))
    ensures grid != null && grid.Length > 0 ==> grid[..] == Shuffled(old(grid[..]), picks, grid.Length - 1)
  {
    if grid == null {
      return [];
    }
    if grid.Length > 0 {
      ghost var children := grid[..];
      var i: nat := grid.Length - 1;
      while i > 0
        invariant i < grid.Length
        invariant Shuffled(grid[..], picks, i) == Shuffled(children, picks, grid.Length - 1)
      {
        var j := picks[grid.Length - 1 - i];
        ghost var before := grid[..];
        SwapCells(grid, i, j);
        assert Shuffled(before, picks, i) == Shuffled(grid[..], picks, i - 1);
        i := i - 1;
      }
      ShuffledPermutes(children, picks, grid.Length - 1);
    }
    effects := [Toast(ShuffledToast)];
  }
}
