/** What several modules need to know of lists: their grouping, duplicates, and taking elements out. */
module Sequences {
  lemma Regroup<T>(a: seq<T>, b: seq<T>, c: seq<T>)
    ensures (a + b) + c == a + (b + c)
  {
  }

  lemma AppendNothing<T>(s: seq<T>)
    ensures s + [] == s && [] + s == s
  {
  }

  predicate Distinct<T(==)>(s: seq<T>) {
    forall i, j :: 0 <= i < j < |s| ==> Differ(s, i, j)
  }

  predicate Differ<T(==)>(s: seq<T>, i: nat, j: nat)
    requires i < |s| && j < |s|
  {
    s[i] != s[j]
  }

  lemma DistinctIsInjective<T>(s: seq<T>, i: nat, j: nat)
    requires Distinct(s) && i < |s| && j < |s|
    ensures s[i] == s[j] ==> i == j
  {
    if i < j {
      assert Differ(s, i, j);
    } else if j < i {
      assert Differ(s, j, i);
    }
  }

  lemma DistinctTail<T>(s: seq<T>)
    requires Distinct(s) && s != []
    ensures Distinct(s[1..]) && s[0] !in s[1..]
  {
    forall i, j | 0 <= i < j < |s[1..]|
      ensures Differ(s[1..], i, j)
    {
      assert Differ(s, i + 1, j + 1);
    }
    forall j | 0 <= j < |s[1..]|
      ensures s[1..][j] != s[0]
    {
      assert Differ(s, 0, j + 1);
    }
  }

  lemma DistinctPrepend<T>(x: T, s: seq<T>)
    requires Distinct(s) && x !in s
    ensures Distinct([x] + s)
  {
    var all := [x] + s;
    forall i, j | 0 <= i < j < |all|
      ensures Differ(all, i, j)
    {
      if i > 0 {
        assert Differ(s, i - 1, j - 1);
      }
    }
  }

  lemma DistinctAppend<T>(s: seq<T>, x: T)
    requires Distinct(s) && x !in s
    ensures Distinct(s + [x])
  {
    var all := s + [x];
    forall i, j | 0 <= i < j < |all|
      ensures Differ(all, i, j)
    {
      if j < |s| {
        assert Differ(s, i, j);
      }
    }
  }

  lemma DistinctPrefix<T>(s: seq<T>, n: nat)
    requires Distinct(s) && n <= |s|
    ensures Distinct(s[..n]) && (n < |s| ==> s[n] !in s[..n])
  {
    forall i, j | 0 <= i < j < n
      ensures Differ(s[..n], i, j)
    {
      assert Differ(s, i, j);
    }
    if n < |s| {
      forall i | 0 <= i < n
        ensures s[..n][i] != s[n]
      {
        assert Differ(s, i, n);
      }
    }
  }

  /** The elements of `s` that are not among `removed`, in order. */
  function Without<T(==)>(s: seq<T>, removed: seq<T>): seq<T> {
    if s == [] then [] else (if s[0] in removed then [] else [s[0]]) + Without(s[1..], removed)
  }

  function IndexOf<T(==)>(s: seq<T>, x: T): (i: int)
    ensures if x in s then 0 <= i < |s| && s[i] == x && (forall j :: 0 <= j < i ==> s[j] != x) else i == -1
  {
    if s == [] then -1
    else if s[0] == x then 0
    else
      var i := IndexOf(s[1..], x);
      assert s == [s[0]] + s[1..];
      if i < 0 then -1 else i + 1
  }

  /** `s.splice(s.indexOf(x), 1)`: an index of -1 counts from the end. */
  function SpliceOut<T(==)>(s: seq<T>, x: T): seq<T> {
    var i := IndexOf(s, x);
    if i >= 0 then s[..i] + s[i + 1..] else if s == [] then [] else s[..|s| - 1]
  }

  lemma {:induction false} WithoutOthers<T>(s: seq<T>, removed: seq<T>)
    requires forall x :: x in s ==> x !in removed
    ensures Without(s, removed) == s
  {
    if s != [] {
      WithoutOthers(s[1..], removed);
    }
  }

  lemma {:induction false} WithoutConcat<T>(a: seq<T>, b: seq<T>, removed: seq<T>)
    ensures Without(a + b, removed) == Without(a, removed) + Without(b, removed)
  {
    if a == [] {
      assert a + b == b;
    } else {
      assert (a + b)[1..] == a[1..] + b;
      WithoutConcat(a[1..], b, removed);
    }
  }

  lemma {:induction false} WithoutIsFilter<T>(s: seq<T>, removed: seq<T>)
    ensures forall x :: x in Without(s, removed) <==> x in s && x !in removed
  {
    if s != [] {
      WithoutIsFilter(s[1..], removed);
      assert s == [s[0]] + s[1..];
    }
  }

  lemma {:induction false} WithoutTwice<T>(s: seq<T>, a: seq<T>, b: seq<T>)
    ensures Without(Without(s, a), b) == Without(s, a + b)
  {
    if s != [] {
      WithoutTwice(s[1..], a, b);
      WithoutConcat(if s[0] in a then [] else [s[0]], Without(s[1..], a), b);
    }
  }

  lemma {:induction false} SplicePresent<T>(s: seq<T>, x: T)
    requires Distinct(s) && x in s
    ensures SpliceOut(s, x) == Without(s, [x])
  {
    DistinctTail(s);
    if s[0] == x {
      WithoutOthers(s[1..], [x]);
      NothingBefore(s);
    } else {
      IndexAfterFirst(s, x);
      SplicePresent(s[1..], x);
      SpliceAfterFirst(s, IndexOf(s[1..], x));
    }
  }

  lemma IndexAfterFirst<T>(s: seq<T>, x: T)
    requires x in s && s[0] != x
    ensures x in s[1..] && 0 <= IndexOf(s[1..], x) == IndexOf(s, x) - 1 < |s| - 1
  {
    assert s == [s[0]] + s[1..];
  }

  lemma NothingBefore<T>(s: seq<T>)
    requires s != []
    ensures s[..0] + s[1..] == s[1..] && [] + s[1..] == s[1..]
  {
  }

  lemma SpliceAfterFirst<T>(s: seq<T>, i: nat)
    requires s != [] && i < |s| - 1
    ensures s[..i + 1] + s[i + 2..] == [s[0]] + (s[1..][..i] + s[1..][i + 1..])
  {
  }

  /**
   Splicing out the index of an element removes just it exactly when it is there (or nothing is): searched for
   in vain, it makes the last element vanish. (See OverlappingReveals for when that happens.)
   */
  lemma SpliceRemovesJustItIffPresent<T>(s: seq<T>, x: T)
    requires Distinct(s)
    ensures SpliceOut(s, x) == Without(s, [x]) <==> x in s || s == []
  {
    if x in s {
      SplicePresent(s, x);
    } else {
      WithoutOthers(s, [x]);
      assert s != [] ==> |SpliceOut(s, x)| == |s| - 1;
    }
  }

  lemma {:induction false} WithoutKeepsDistinct<T>(s: seq<T>, removed: seq<T>)
    requires Distinct(s)
    ensures Distinct(Without(s, removed))
  {
    if s != [] {
      DistinctTail(s);
      WithoutKeepsDistinct(s[1..], removed);
      WithoutIsFilter(s[1..], removed);
      if s[0] in removed {
        assert Without(s, removed) == Without(s[1..], removed);
      } else {
        DistinctPrepend(s[0], Without(s[1..], removed));
      }
    }
  }
}
