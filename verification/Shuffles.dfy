/** Lists up to their order, and lists split by a test. */
module Shuffles {
  ghost predicate Distinct<T>(s: seq<T>) {
    forall i, j :: 0 <= i < j < |s| ==> s[i] != s[j]
  }

  lemma {:induction false} DistinctOnce<T>(s: seq<T>, x: T)
    requires Distinct(s)
    ensures multiset(s)[x] <= 1
  {
    if s != [] {
      var n := |s| - 1;
      assert s == s[..n] + [s[n]];
      DistinctOnce(s[..n], x);
      if x == s[n] {
        assert x !in s[..n];
      }
    }
  }

  lemma {:induction false} TwiceAtLeast<T>(s: seq<T>, i: nat, j: nat)
    requires i < j < |s| && s[i] == s[j]
    ensures multiset(s)[s[i]] >= 2
  {
    assert s == s[..j] + s[j..];
    assert s[..j][i] == s[i] && s[j..][0] == s[j];
  }

  /** Reordering keeps elements distinct, and keeps the elements. */
  lemma ShuffleKeepsDistinct<T>(s: seq<T>, t: seq<T>)
    requires Distinct(s) && multiset(s) == multiset(t)
    ensures Distinct(t)
    ensures forall x :: x in s <==> x in t
  {
    forall i, j | 0 <= i < j < |t|
      ensures t[i] != t[j]
    {
      if t[i] == t[j] {
        TwiceAtLeast(t, i, j);
        DistinctOnce(s, t[i]);
      }
    }
    forall x
      ensures x in s <==> x in t
    {
      assert x in s <==> x in multiset(s);
      assert x in t <==> x in multiset(t);
    }
  }

  /** The elements that pass the test, in order. */
  function Kept<T>(s: seq<T>, p: T -> bool): seq<T> {
    if s == [] then []
    else Kept(s[..|s| - 1], p) + (if p(s[|s| - 1]) then [s[|s| - 1]] else [])
  }

  /** The elements that do not. */
  function Dropped<T>(s: seq<T>, p: T -> bool): seq<T> {
    if s == [] then []
    else Dropped(s[..|s| - 1], p) + (if p(s[|s| - 1]) then [] else [s[|s| - 1]])
  }

  lemma SplitGrows<T>(s: seq<T>, p: T -> bool, x: T)
    ensures Kept(s + [x], p) == Kept(s, p) + (if p(x) then [x] else [])
    ensures Dropped(s + [x], p) == Dropped(s, p) + (if p(x) then [] else [x])
  {
    assert (s + [x])[..|s|] == s;
  }

  lemma {:induction false} SplitElements<T>(s: seq<T>, p: T -> bool)
    ensures forall x :: x in Kept(s, p) <==> x in s && p(x)
    ensures forall x :: x in Dropped(s, p) <==> x in s && !p(x)
  {
    if s != [] {
      var n := |s| - 1;
      assert s == s[..n] + [s[n]];
      SplitElements(s[..n], p);
    }
  }

  lemma {:induction false} KeptIsDistinct<T>(s: seq<T>, p: T -> bool)
    requires Distinct(s)
    ensures Distinct(Kept(s, p))
  {
    if s != [] {
      var n := |s| - 1;
      KeptIsDistinct(s[..n], p);
      SplitElements(s[..n], p);
      assert s[n] !in s[..n];
    }
  }

  lemma {:induction false} DroppedIsDistinct<T>(s: seq<T>, p: T -> bool)
    requires Distinct(s)
    ensures Distinct(Dropped(s, p))
  {
    if s != [] {
      var n := |s| - 1;
      DroppedIsDistinct(s[..n], p);
      SplitElements(s[..n], p);
      assert s[n] !in s[..n];
    }
  }

  lemma {:induction false} SplitIsShuffle<T>(s: seq<T>, p: T -> bool)
    ensures multiset(Kept(s, p) + Dropped(s, p)) == multiset(s)
  {
    if s != [] {
      var n := |s| - 1;
      assert s == s[..n] + [s[n]];
      SplitIsShuffle(s[..n], p);
    }
  }

  lemma {:induction false} KeptWhole<T>(s: seq<T>, p: T -> bool)
    requires forall x :: x in s ==> p(x)
    ensures Kept(s, p) == s && Dropped(s, p) == []
  {
    if s != [] {
      var n := |s| - 1;
      assert s == s[..n] + [s[n]];
      KeptWhole(s[..n], p);
    }
  }

  lemma {:induction false} KeptOfConcat<T>(a: seq<T>, b: seq<T>, p: T -> bool)
    ensures Kept(a + b, p) == Kept(a, p) + Kept(b, p) && Dropped(a + b, p) == Dropped(a, p) + Dropped(b, p)
  {
    if b == [] {
      assert a + b == a;
    } else {
      var n := |b| - 1;
      assert (a + b)[..|a + b| - 1] == a + b[..n];
      KeptOfConcat(a, b[..n], p);
    }
  }

  lemma {:induction false} DroppedWhole<T>(s: seq<T>, p: T -> bool)
    requires forall x :: x in s ==> !p(x)
    ensures Kept(s, p) == [] && Dropped(s, p) == s
  {
    if s != [] {
      var n := |s| - 1;
      assert s == s[..n] + [s[n]];
      DroppedWhole(s[..n], p);
    }
  }

  lemma {:induction false} KeptCount<T>(s: seq<T>, p: T -> bool, x: T)
    ensures multiset(Kept(s, p))[x] == if p(x) then multiset(s)[x] else 0
    ensures multiset(Dropped(s, p))[x] == if p(x) then 0 else multiset(s)[x]
  {
    if s != [] {
      var n := |s| - 1;
      assert s == s[..n] + [s[n]];
      KeptCount(s[..n], p, x);
    }
  }

  lemma SameCounts<T>(a: multiset<T>, b: multiset<T>)
    requires forall x :: a[x] == b[x]
    ensures a == b
  {
  }

  lemma SplitCounts<T>(s: seq<T>, t: seq<T>, p: T -> bool)
    requires multiset(s) == multiset(t)
    ensures forall x :: multiset(Kept(s, p))[x] == multiset(Kept(t, p))[x]
    ensures forall x :: multiset(Dropped(s, p))[x] == multiset(Dropped(t, p))[x]
  {
    forall x
      ensures multiset(Kept(s, p))[x] == multiset(Kept(t, p))[x]
      ensures multiset(Dropped(s, p))[x] == multiset(Dropped(t, p))[x]
    {
      KeptCount(s, p, x);
      KeptCount(t, p, x);
    }
  }

  /** A reordered list splits into reordered parts. */
  lemma SplitOfShuffle<T>(s: seq<T>, t: seq<T>, p: T -> bool)
    requires multiset(s) == multiset(t)
    ensures multiset(Kept(s, p)) == multiset(Kept(t, p)) && multiset(Dropped(s, p)) == multiset(Dropped(t, p))
  {
    SplitCounts(s, t, p);
    SameCounts(multiset(Kept(s, p)), multiset(Kept(t, p)));
    SameCounts(multiset(Dropped(s, p)), multiset(Dropped(t, p)));
  }
}
