/** The order the soundings are visited in: `sfiles.sort()` on the file names
    (Python's string order), then the first `nplots` of them when `nplots` is
    not negative. */
module Ordering {

  /** Python's `<=` on strings: characters compared left to right by code
      point, a proper prefix before any of its extensions. */
  predicate LessEq(a: string, b: string)
    decreases |a|
  {
    |a| == 0 || (|b| > 0 && (a[0] < b[0] || (a[0] == b[0] && LessEq(a[1..], b[1..]))))
  }

  lemma {:induction false} LessEqReflexive(a: string)
    ensures LessEq(a, a)
    decreases |a|
  {
    if |a| > 0 {
      LessEqReflexive(a[1..]);
    }
  }

  lemma {:induction false} LessEqTotal(a: string, b: string)
    ensures LessEq(a, b) || LessEq(b, a)
    decreases |a|
  {
    if |a| > 0 && |b| > 0 && a[0] == b[0] {
      LessEqTotal(a[1..], b[1..]);
    }
  }

  lemma {:induction false} LessEqAntisymmetric(a: string, b: string)
    requires LessEq(a, b) && LessEq(b, a)
    ensures a == b
    decreases |a|
  {
    if |a| > 0 {
      LessEqAntisymmetric(a[1..], b[1..]);
      assert a == [a[0]] + a[1..] && b == [b[0]] + b[1..];
    }
  }

  lemma {:induction false} LessEqTransitive(a: string, b: string, c: string)
    requires LessEq(a, b) && LessEq(b, c)
    ensures LessEq(a, c)
    decreases |a|
  {
    if |a| > 0 && a[0] == b[0] && b[0] == c[0] {
      LessEqTransitive(a[1..], b[1..], c[1..]);
    }
  }

  predicate Sorted(s: seq<string>) {
    forall i, j :: 0 <= i < j < |s| ==> LessEq(s[i], s[j])
  }

  /** Every element of `s` is at least `x`. */
  predicate AllAbove(x: string, s: seq<string>) {
    forall j :: 0 <= j < |s| ==> LessEq(x, s[j])
  }

  lemma AboveOfMultiset(x: string, s: seq<string>, t: seq<string>)
    requires AllAbove(x, s) && multiset(t) <= multiset(s)
    ensures AllAbove(x, t)
  {
    forall j | 0 <= j < |t|
      ensures LessEq(x, t[j])
    {
      assert t[j] in multiset(t);
    }
  }

  lemma SortedCons(x: string, s: seq<string>)
    requires Sorted(s) && AllAbove(x, s)
    ensures Sorted([x] + s)
  {
    var r := [x] + s;
    forall i, j | 0 <= i < j < |r|
      ensures LessEq(r[i], r[j])
    {
      if i > 0 {
        assert r[i] == s[i - 1] && r[j] == s[j - 1];
      }
    }
  }

  lemma SortedTail(s: seq<string>)
    requires Sorted(s) && |s| > 0
    ensures Sorted(s[1..])
  {
    forall i, j | 0 <= i < j < |s| - 1
      ensures LessEq(s[1..][i], s[1..][j])
    {
      assert s[1..][i] == s[i + 1] && s[1..][j] == s[j + 1];
    }
  }

  /** `x` placed into a sorted sequence before the first element it does not
      exceed. */
  function Insert(x: string, s: seq<string>): (r: seq<string>)
    requires Sorted(s)
    ensures Sorted(r) && multiset(r) == multiset(s) + multiset{x}
  {
    if |s| == 0 then [x]
    else if LessEq(x, s[0]) then
      InsertFront(x, s);
      [x] + s
    else
      SortedTail(s);
      var rest := Insert(x, s[1..]);
      InsertLater(x, s, rest);
      [s[0]] + rest
  }

  /** An element at most the head of a sorted sequence may go in front. */
  lemma InsertFront(x: string, s: seq<string>)
    requires Sorted(s) && |s| > 0 && LessEq(x, s[0])
    ensures Sorted([x] + s)
  {
    forall j | 0 <= j < |s|
      ensures LessEq(x, s[j])
    {
      if j > 0 {
        LessEqTransitive(x, s[0], s[j]);
      }
    }
    SortedCons(x, s);
  }

  /** An element above the head goes into the tail, after the head. */
  lemma InsertLater(x: string, s: seq<string>, rest: seq<string>)
    requires Sorted(s) && |s| > 0 && !LessEq(x, s[0])
    requires Sorted(rest) && multiset(rest) == multiset(s[1..]) + multiset{x}
    ensures Sorted([s[0]] + rest) && multiset([s[0]] + rest) == multiset(s) + multiset{x}
  {
    assert s == [s[0]] + s[1..];
    LessEqTotal(x, s[0]);
    assert AllAbove(s[0], s[1..] + [x]);
    AboveOfMultiset(s[0], s[1..] + [x], rest);
    SortedCons(s[0], rest);
  }

  /** `sfiles.sort()`: the same names, in Python's string order. */
  function Sort(files: seq<string>): (r: seq<string>)
    ensures Sorted(r) && multiset(r) == multiset(files)
  {
    if |files| == 0 then []
    else
      assert files == [files[0]] + files[1..];
      Insert(files[0], Sort(files[1..]))
  }

  /** The first element of a sorted sequence is at most any element. */
  lemma SortedHeadLeast(s: seq<string>, x: string)
    requires Sorted(s) && x in s
    ensures LessEq(s[0], x)
  {
    var j :| 0 <= j < |s| && s[j] == x;
    if j == 0 {
      LessEqReflexive(x);
    }
  }

  /** Two sorted sequences with the same elements start alike. */
  lemma SortedHeads(a: seq<string>, b: seq<string>)
    requires Sorted(a) && Sorted(b) && multiset(a) == multiset(b) && |a| > 0
    ensures |b| > 0 && a[0] == b[0]
  {
    assert a[0] in multiset(b);
    assert b[0] in multiset(a);
    SortedHeadLeast(a, b[0]);
    SortedHeadLeast(b, a[0]);
    LessEqAntisymmetric(a[0], b[0]);
  }

  /** Removing equal heads from sequences with the same elements leaves tails
      with the same elements. */
  lemma TailsAlike(a: seq<string>, b: seq<string>)
    requires multiset(a) == multiset(b) && |a| > 0 && |b| > 0 && a[0] == b[0]
    ensures multiset(a[1..]) == multiset(b[1..])
  {
    assert a == [a[0]] + a[1..];
    assert b == [b[0]] + b[1..];
    assert multiset(a) == multiset{a[0]} + multiset(a[1..]);
    assert multiset(b) == multiset{b[0]} + multiset(b[1..]);
    assert multiset(a[1..]) == multiset(a) - multiset{a[0]};
    assert multiset(b[1..]) == multiset(b) - multiset{b[0]};
  }

  /** Sorting leaves nothing to choose: two sorted sequences with the same
      elements are the same sequence. */
  lemma {:induction false} SortedUnique(a: seq<string>, b: seq<string>)
    requires Sorted(a) && Sorted(b) && multiset(a) == multiset(b)
    ensures a == b
    decreases |a|
  {
    if |a| == 0 {
      assert |b| == |multiset(b)|;
    } else {
      SortedHeads(a, b);
      TailsAlike(a, b);
      SortedTail(a);
      SortedTail(b);
      SortedUnique(a[1..], b[1..]);
      assert a == [a[0]] + a[1..] && b == [b[0]] + b[1..];
    }
  }

  /** `sfiles[0:nplots]` when `nplots > -1`; all of them otherwise. */
  function Limit(files: seq<string>, nplots: int): (r: seq<string>)
    ensures r <= files
    ensures nplots >= 0 ==> |r| == if nplots < |files| then nplots else |files|
    ensures nplots < 0 ==> r == files
  {
    if nplots > -1 then
      if nplots < |files| then files[..nplots] else files
    else files
  }

  /** The soundings a run visits, in order. */
  function Visit(files: seq<string>, nplots: int): seq<string> {
    Limit(Sort(files), nplots)
  }

  /** The visiting order depends only on which files were found, not on the
      order the directory listings gave them in; the visited files are found
      files, in sorted order. */
  lemma VisitOrder(f1: seq<string>, f2: seq<string>, nplots: int)
    requires multiset(f1) == multiset(f2)
    ensures Visit(f1, nplots) == Visit(f2, nplots)
    ensures Sorted(Visit(f1, nplots)) && multiset(Visit(f1, nplots)) <= multiset(f1)
  {
    SortedUnique(Sort(f1), Sort(f2));
    var s := Sort(f1);
    var v := Visit(f1, nplots);
    assert s == v + s[|v|..];
    assert multiset(s) == multiset(v) + multiset(s[|v|..]);
  }
}
