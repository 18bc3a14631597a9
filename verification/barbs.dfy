/** The wind-barb stack: which levels of a profile get a barb. Walking up the
    profile from the surface, a level gets a barb when it is far enough above
    the last level that got one (2000 hPa to begin with), the script's test
    being `log(bot / p) > 0.04`; the walk stops at the first level above
    100 hPa. The spacing test is a parameter `far(bot, p)`. */
module Barbs {

  /** The walk stops at the first pressure below this (hPa). */
  const Top: real := 100.0

  /** The pressure the first barb is measured from (hPa). */
  const Start: real := 2000.0

  /** How many levels the walk visits: the levels before the first pressure
      below `Top`. */
  function Cutoff(pres: seq<real>): (c: nat)
    ensures c <= |pres|
    ensures forall j :: 0 <= j < c ==> pres[j] >= Top
    ensures c < |pres| ==> pres[c] < Top
  {
    if |pres| == 0 then 0
    else if pres[0] < Top then 0
    else 1 + Cutoff(pres[1..])
  }

  predicate Increasing(s: seq<nat>) {
    forall a, b :: 0 <= a < b < |s| ==> s[a] < s[b]
  }

  predicate Within(s: seq<nat>, n: nat) {
    forall k :: 0 <= k < |s| ==> s[k] < n
  }

  /** The pressure selected level `k` is compared against: that of the
      selected level before it, or `Start` for the first. */
  function Prev(pres: seq<real>, s: seq<nat>, k: nat): real
    requires Within(s, |pres|) && k <= |s|
  {
    if k == 0 then Start else pres[s[k - 1]]
  }

  /** The first level that could be selected after `k` selections. */
  function From(s: seq<nat>, k: nat): nat
    requires k <= |s|
  {
    if k == 0 then 0 else s[k - 1] + 1
  }

  /** Selected level `k` is far from the selected level before it (or from
      `Start` for the first). */
  predicate FarAt(pres: seq<real>, far: (real, real) -> bool, s: seq<nat>, k: nat)
    requires Within(s, |pres|) && k < |s|
  {
    far(Prev(pres, s, k), pres[s[k]])
  }

  /** Level `j` is not far from the pressure selection `k` is compared against. */
  predicate NearAt(pres: seq<real>, far: (real, real) -> bool, s: seq<nat>, k: nat, j: nat)
    requires Within(s, |pres|) && k <= |s| && j < |pres|
  {
    !far(Prev(pres, s, k), pres[j])
  }

  /** Each selected level is far from the selected level before it. */
  predicate SelectedFar(pres: seq<real>, far: (real, real) -> bool, s: seq<nat>)
    requires Within(s, |pres|)
  {
    forall k :: 0 <= k < |s| ==> FarAt(pres, far, s, k)
  }

  /** Each level skipped before a selected level is not far from the selected
      level before it. */
  predicate GapsNear(pres: seq<real>, far: (real, real) -> bool, s: seq<nat>)
    requires Within(s, |pres|)
  {
    forall k, j :: 0 <= k < |s| && From(s, k) <= j < s[k] ==> NearAt(pres, far, s, k, j)
  }

  /** Each level after the last selected one, below `n`, is not far from it. */
  predicate TailNear(pres: seq<real>, far: (real, real) -> bool, s: seq<nat>, n: nat)
    requires Within(s, |pres|) && n <= |pres|
  {
    forall j :: From(s, |s|) <= j < n ==> NearAt(pres, far, s, |s|, j)
  }

  /** `s` is the barb selection among the first `n` levels: increasing indices
      below `n`, each selected level far from the one before it, and every
      level skipped, between selections or after the last, not far from the
      selected level before it. */
  predicate Spaced(pres: seq<real>, far: (real, real) -> bool, s: seq<nat>, n: nat) {
    && n <= |pres| && Within(s, n) && Increasing(s)
    && SelectedFar(pres, far, s) && GapsNear(pres, far, s) && TailNear(pres, far, s, n)
  }

  lemma AppendShape(pres: seq<real>, s: seq<nat>, n: nat)
    requires Within(s, n) && Increasing(s) && n < |pres|
    ensures Within(s + [n], n + 1) && Increasing(s + [n])
    ensures forall k :: 0 <= k <= |s| ==>
      Prev(pres, s + [n], k) == Prev(pres, s, k) && From(s + [n], k) == From(s, k)
    ensures From(s + [n], |s| + 1) == n + 1 && Prev(pres, s + [n], |s| + 1) == pres[n]
  {
  }

  lemma TakeSelected(pres: seq<real>, far: (real, real) -> bool, s: seq<nat>, n: nat)
    requires Within(s, n) && Increasing(s) && n < |pres|
    requires SelectedFar(pres, far, s) && far(Prev(pres, s, |s|), pres[n])
    ensures Within(s + [n], |pres|) && SelectedFar(pres, far, s + [n])
  {
    AppendShape(pres, s, n);
    var t := s + [n];
    forall k | 0 <= k < |t|
      ensures FarAt(pres, far, t, k)
    {
      if k < |s| {
        assert FarAt(pres, far, s, k);
      }
    }
  }

  lemma TakeGaps(pres: seq<real>, far: (real, real) -> bool, s: seq<nat>, n: nat)
    requires Within(s, n) && Increasing(s) && n < |pres|
    requires GapsNear(pres, far, s) && TailNear(pres, far, s, n)
    ensures Within(s + [n], |pres|) && GapsNear(pres, far, s + [n])
  {
    AppendShape(pres, s, n);
    var t := s + [n];
    forall k, j | 0 <= k < |t| && From(t, k) <= j < t[k]
      ensures NearAt(pres, far, t, k, j)
    {
      if k < |s| {
        assert NearAt(pres, far, s, k, j);
      } else {
        assert NearAt(pres, far, s, |s|, j);
      }
    }
  }

  /** A level far from the last selected one extends the selection by itself. */
  lemma SpacedTake(pres: seq<real>, far: (real, real) -> bool, s: seq<nat>, n: nat)
    requires Spaced(pres, far, s, n) && n < |pres|
    requires far(Prev(pres, s, |s|), pres[n])
    ensures Spaced(pres, far, s + [n], n + 1)
  {
    AppendShape(pres, s, n);
    TakeSelected(pres, far, s, n);
    TakeGaps(pres, far, s, n);
  }

  /** A level not far from the last selected one leaves the selection alone. */
  lemma SpacedSkip(pres: seq<real>, far: (real, real) -> bool, s: seq<nat>, n: nat)
    requires Spaced(pres, far, s, n) && n < |pres|
    requires !far(Prev(pres, s, |s|), pres[n])
    ensures Spaced(pres, far, s, n + 1)
  {
  }

  /** The selection among the first `n` levels, level by level. */
  function Thin(pres: seq<real>, far: (real, real) -> bool, n: nat): (s: seq<nat>)
    requires n <= |pres|
    ensures Within(s, n)
  {
    if n == 0 then []
    else
      var s := Thin(pres, far, n - 1);
      if far(Prev(pres, s, |s|), pres[n - 1]) then s + [n - 1] else s
  }

  /** The level-by-level selection is the spaced selection. */
  lemma {:induction false} ThinSpaced(pres: seq<real>, far: (real, real) -> bool, n: nat)
    requires n <= |pres|
    ensures Spaced(pres, far, Thin(pres, far, n), n)
  {
    if n > 0 {
      ThinSpaced(pres, far, n - 1);
      ThinExtend(pres, far, n);
    }
  }

  lemma ThinExtend(pres: seq<real>, far: (real, real) -> bool, n: nat)
    requires 0 < n <= |pres| && Spaced(pres, far, Thin(pres, far, n - 1), n - 1)
    ensures Spaced(pres, far, Thin(pres, far, n), n)
  {
    var s := Thin(pres, far, n - 1);
    if far(Prev(pres, s, |s|), pres[n - 1]) {
      SpacedTake(pres, far, s, n - 1);
    } else {
      SpacedSkip(pres, far, s, n - 1);
    }
  }

  /** Where the walk ends (at the cutoff), every selected level has a pressure
      of at least `Top`. */
  lemma SelectedLevels(pres: seq<real>, far: (real, real) -> bool, s: seq<nat>, n: nat)
    requires Spaced(pres, far, s, n) && n <= Cutoff(pres)
    requires n == |pres| || pres[n] < Top
    ensures n == Cutoff(pres)
    ensures forall k :: 0 <= k < |s| ==> s[k] < |pres| && pres[s[k]] >= Top
  {
  }

  /** The barb loop, with `far(bot, p)` for the script's `log(bot / p) > 0.04`. */
  method SpaceBarbs(pres: seq<real>, far: (real, real) -> bool) returns (s: seq<nat>)
    ensures Spaced(pres, far, s, Cutoff(pres))
    ensures s == Thin(pres, far, Cutoff(pres))
    ensures forall k :: 0 <= k < |s| ==> s[k] < |pres| && pres[s[k]] >= Top
  {
    s := [];
    var bot := Start;
    var ind := 0;
    while ind < |pres|
      invariant ind <= Cutoff(pres)
      invariant s == Thin(pres, far, ind)
      invariant bot == Prev(pres, s, |s|)
    {
      var p := pres[ind];
      if p < Top {
        break;
      }
      if far(bot, p) {
        s := s + [ind];
        bot := p;
      }
      ind := ind + 1;
    }
    ThinSpaced(pres, far, ind);
    SelectedLevels(pres, far, s, ind);
  }

  // ---------------------------------------------------------------- the selection is determined

  lemma DropShape(pres: seq<real>, s: seq<nat>)
    requires Within(s, |pres|) && |s| > 0
    ensures Within(s[..|s| - 1], |pres|)
    ensures forall k :: 0 <= k < |s| ==>
      Prev(pres, s[..|s| - 1], k) == Prev(pres, s, k) && From(s[..|s| - 1], k) == From(s, k)
  {
  }

  lemma DropSelected(pres: seq<real>, far: (real, real) -> bool, s: seq<nat>)
    requires Within(s, |pres|) && |s| > 0 && SelectedFar(pres, far, s)
    ensures Within(s[..|s| - 1], |pres|) && SelectedFar(pres, far, s[..|s| - 1])
    ensures far(Prev(pres, s[..|s| - 1], |s| - 1), pres[s[|s| - 1]])
  {
    DropShape(pres, s);
    var t := s[..|s| - 1];
    forall k | 0 <= k < |t|
      ensures FarAt(pres, far, t, k)
    {
      assert FarAt(pres, far, s, k);
    }
    assert FarAt(pres, far, s, |s| - 1);
  }

  lemma DropGaps(pres: seq<real>, far: (real, real) -> bool, s: seq<nat>)
    requires Within(s, |pres|) && |s| > 0 && GapsNear(pres, far, s)
    ensures Within(s[..|s| - 1], |pres|) && GapsNear(pres, far, s[..|s| - 1])
    ensures TailNear(pres, far, s[..|s| - 1], s[|s| - 1])
  {
    DropShape(pres, s);
    var t := s[..|s| - 1];
    forall k, j | 0 <= k < |t| && From(t, k) <= j < t[k]
      ensures NearAt(pres, far, t, k, j)
    {
      assert NearAt(pres, far, s, k, j);
    }
    forall j | From(t, |t|) <= j < s[|s| - 1]
      ensures NearAt(pres, far, t, |t|, j)
    {
      assert From(s, |s| - 1) <= j < s[|s| - 1];
      assert NearAt(pres, far, s, |s| - 1, j);
    }
  }

  /** Dropping a last selection at level `n - 1` gives the selection among the
      first `n - 1` levels, in which level `n - 1` is far from the last. */
  lemma SpacedDropLast(pres: seq<real>, far: (real, real) -> bool, s: seq<nat>, n: nat)
    requires Spaced(pres, far, s, n) && n > 0 && |s| > 0 && s[|s| - 1] == n - 1
    ensures Spaced(pres, far, s[..|s| - 1], n - 1)
    ensures far(Prev(pres, s[..|s| - 1], |s| - 1), pres[n - 1])
  {
    DropSelected(pres, far, s);
    DropGaps(pres, far, s);
    var t := s[..|s| - 1];
    assert Within(t, n - 1);
  }

  /** With no selection at level `n - 1`, the same selection covers the first
      `n - 1` levels, and level `n - 1` is not far from its last level. */
  lemma SpacedDropLevel(pres: seq<real>, far: (real, real) -> bool, s: seq<nat>, n: nat)
    requires Spaced(pres, far, s, n) && n > 0 && (|s| == 0 || s[|s| - 1] != n - 1)
    ensures Spaced(pres, far, s, n - 1)
    ensures !far(Prev(pres, s, |s|), pres[n - 1])
  {
    if |s| > 0 {
      assert s[|s| - 1] < n - 1;
    }
    assert Within(s, n - 1);
    assert From(s, |s|) <= n - 1;
    TailShrink(pres, far, s, n);
    assert SelectedFar(pres, far, s) && GapsNear(pres, far, s) && Increasing(s);
  }

  lemma TailShrink(pres: seq<real>, far: (real, real) -> bool, s: seq<nat>, n: nat)
    requires Within(s, n) && n <= |pres| && n > 0 && TailNear(pres, far, s, n)
    requires From(s, |s|) <= n - 1
    ensures TailNear(pres, far, s, n - 1) && !far(Prev(pres, s, |s|), pres[n - 1])
  {
    assert NearAt(pres, far, s, |s|, n - 1);
  }

  /** The spaced selection is the level-by-level one: at most one sequence of
      indices is spaced for given levels and test. */
  lemma {:induction false} SpacedIsThin(pres: seq<real>, far: (real, real) -> bool, s: seq<nat>, n: nat)
    requires Spaced(pres, far, s, n)
    ensures s == Thin(pres, far, n)
    decreases n
  {
    if n == 0 {
      IncreasingFits(s, 0);
    } else {
      var t := Peel(pres, far, s, n);
      SpacedIsThin(pres, far, t, n - 1);
    }
  }

  /** Increasing indices below `n` number at most `n`. */
  lemma {:induction false} IncreasingFits(s: seq<nat>, n: nat)
    requires Increasing(s) && Within(s, n)
    ensures |s| <= n
  {
    if |s| > 0 {
      var t := s[..|s| - 1];
      assert Increasing(t) && Within(t, s[|s| - 1]);
      IncreasingFits(t, s[|s| - 1]);
    }
  }

  /** One level fewer: the selection among the first `n - 1` levels, which
      extends to `s` the way `Thin` extends it. */
  lemma Peel(pres: seq<real>, far: (real, real) -> bool, s: seq<nat>, n: nat) returns (t: seq<nat>)
    requires Spaced(pres, far, s, n) && n > 0
    ensures Spaced(pres, far, t, n - 1)
    ensures t == Thin(pres, far, n - 1) ==> s == Thin(pres, far, n)
  {
    if |s| > 0 && s[|s| - 1] == n - 1 {
      t := s[..|s| - 1];
      SpacedDropLast(pres, far, s, n);
      if t == Thin(pres, far, n - 1) {
        ThinTake(pres, far, t, n);
        assert s == t + [n - 1];
      }
    } else {
      t := s;
      SpacedDropLevel(pres, far, s, n);
      if t == Thin(pres, far, n - 1) {
        ThinSkip(pres, far, s, n);
      }
    }
  }

  lemma ThinTake(pres: seq<real>, far: (real, real) -> bool, t: seq<nat>, n: nat)
    requires 0 < n <= |pres| && Within(t, |pres|)
    requires t == Thin(pres, far, n - 1)
    requires far(Prev(pres, t, |t|), pres[n - 1])
    ensures t + [n - 1] == Thin(pres, far, n)
  {
    ThinStep(pres, far, n);
  }

  lemma ThinSkip(pres: seq<real>, far: (real, real) -> bool, s: seq<nat>, n: nat)
    requires 0 < n <= |pres| && Within(s, |pres|)
    requires s == Thin(pres, far, n - 1)
    requires !far(Prev(pres, s, |s|), pres[n - 1])
    ensures s == Thin(pres, far, n)
  {
    ThinStep(pres, far, n);
  }

  lemma ThinStep(pres: seq<real>, far: (real, real) -> bool, n: nat)
    requires 0 < n <= |pres|
    ensures var u := Thin(pres, far, n - 1);
      Thin(pres, far, n) == if far(Prev(pres, u, |u|), pres[n - 1]) then u + [n - 1] else u
  {
  }

  /** Two selections spaced over the same levels are the same selection. */
  lemma SpacedUnique(pres: seq<real>, far: (real, real) -> bool, s1: seq<nat>, s2: seq<nat>, n: nat)
    requires Spaced(pres, far, s1, n) && Spaced(pres, far, s2, n)
    ensures s1 == s2
  {
    SpacedIsThin(pres, far, s1, n);
    SpacedIsThin(pres, far, s2, n);
  }

  // ---------------------------------------------------------------- the ratio test

  /** The script's test as a ratio: `log(bot / p) > 0.04` is `bot > p * e^0.04`
      for positive `p`. */
  function RatioTest(ratio: real): (real, real) -> bool {
    (bot: real, p: real) => bot > p * ratio
  }

  lemma RatioStep(bot: real, p: real, ratio: real)
    requires ratio >= 1.0 && p >= Top && bot > p * ratio
    ensures bot > p
  {
    assert p * ratio - p == p * (ratio - 1.0);
    assert p * (ratio - 1.0) >= 0.0;
  }

  /** With a ratio of at least 1, the barbed pressures strictly decrease, from
      below `Start` down to no less than `Top`. */
  lemma {:induction false} RatioDecreasing(pres: seq<real>, ratio: real, s: seq<nat>)
    requires ratio >= 1.0 && Spaced(pres, RatioTest(ratio), s, Cutoff(pres))
    ensures forall k :: 0 <= k < |s| ==> Top <= pres[s[k]] < Prev(pres, s, k)
    ensures forall k :: 0 < k < |s| ==> pres[s[k]] < pres[s[k - 1]]
  {
    var c := Cutoff(pres);
    assert Within(s, c) && Within(s, |pres|);
    RatioLevels(pres, ratio, s, c);
  }

  lemma RatioLevels(pres: seq<real>, ratio: real, s: seq<nat>, c: nat)
    requires ratio >= 1.0 && c <= |pres| && Within(s, c) && Within(s, |pres|)
    requires forall j :: 0 <= j < c ==> pres[j] >= Top
    requires SelectedFar(pres, RatioTest(ratio), s)
    ensures forall k :: 0 <= k < |s| ==> Top <= pres[s[k]] < Prev(pres, s, k)
    ensures forall k :: 0 < k < |s| ==> pres[s[k]] < pres[s[k - 1]]
  {
    forall k | 0 <= k < |s|
      ensures Top <= pres[s[k]] < Prev(pres, s, k)
    {
      assert s[k] < c;
      RatioLevel(pres, ratio, s, k);
    }
  }

  lemma RatioLevel(pres: seq<real>, ratio: real, s: seq<nat>, k: nat)
    requires ratio >= 1.0 && Within(s, |pres|) && k < |s| && pres[s[k]] >= Top
    requires SelectedFar(pres, RatioTest(ratio), s)
    ensures pres[s[k]] < Prev(pres, s, k)
  {
    var bot := Prev(pres, s, k);
    assert FarAt(pres, RatioTest(ratio), s, k);
    assert RatioTest(ratio)(bot, pres[s[k]]);
    RatioStep(bot, pres[s[k]], ratio);
  }
}
