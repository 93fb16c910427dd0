/** Facts about permutations and sorted sequences. */
module Sequences {

  ghost predicate Permutation<T>(a: seq<T>, b: seq<T>) {
    multiset(a) == multiset(b)
  }

  predicate Sorted(s: seq<int>) {
    forall i, j :: 0 <= i < j < |s| ==> s[i] <= s[j]
  }

  function WithoutAt<T>(s: seq<T>, i: nat): seq<T>
    requires i < |s|
  {
    s[..i] + s[i + 1..]
  }

  lemma SplitAt<T>(s: seq<T>, i: nat)
    requires i < |s|
    ensures s == s[..i] + [s[i]] + s[i + 1..]
  {
  }

  lemma WithoutAtMultiset<T>(s: seq<T>, i: nat)
    requires i < |s|
    ensures multiset(s) == multiset(WithoutAt(s, i)) + multiset{s[i]}
  {
    assert s == s[..i] + [s[i]] + s[i + 1..];
  }

  lemma SplitLast<T>(s: seq<T>)
    requires s != []
    ensures s == s[..|s| - 1] + [s[|s| - 1]]
    ensures multiset(s) == multiset(s[..|s| - 1]) + multiset{s[|s| - 1]}
  {
    assert s == s[..|s| - 1] + [s[|s| - 1]];
  }

  lemma PermutationLength<T>(a: seq<T>, b: seq<T>)
    requires Permutation(a, b)
    ensures |a| == |b|
  {
    assert |multiset(a)| == |a| && |multiset(b)| == |b|;
  }

  /** Finds the last element of `a` in a permutation of it; the rests are permutations again. */
  lemma LastIn<T>(a: seq<T>, b: seq<T>) returns (i: nat)
    requires Permutation(a, b) && a != []
    ensures i < |b| && b[i] == a[|a| - 1]
    ensures Permutation(a[..|a| - 1], WithoutAt(b, i))
    ensures |b| == |a|
  {
    SplitLast(a);
    PermutationLength(a, b);
    assert a[|a| - 1] in multiset(b);
    i :| 0 <= i < |b| && b[i] == a[|a| - 1];
    WithoutAtMultiset(b, i);
    assert multiset(a[..|a| - 1]) == multiset(a) - multiset{a[|a| - 1]};
  }

  // ---------------------------------------------------------------- sorting

  function Insert(s: seq<int>, x: int): seq<int> {
    if s == [] || s[|s| - 1] <= x then s + [x]
    else Insert(s[..|s| - 1], x) + [s[|s| - 1]]
  }

  function Ordered(s: seq<int>): seq<int> {
    if s == [] then [] else Insert(Ordered(s[..|s| - 1]), s[|s| - 1])
  }

  lemma {:induction false} InsertBounded(s: seq<int>, x: int, bound: int)
    requires x <= bound && forall i :: 0 <= i < |s| ==> s[i] <= bound
    ensures forall i :: 0 <= i < |Insert(s, x)| ==> Insert(s, x)[i] <= bound
  {
    if s != [] && s[|s| - 1] > x {
      InsertBounded(s[..|s| - 1], x, bound);
    }
  }

  lemma SortedSnoc(s: seq<int>, x: int)
    requires Sorted(s) && forall i :: 0 <= i < |s| ==> s[i] <= x
    ensures Sorted(s + [x])
  {
  }

  lemma {:induction false} InsertSorts(s: seq<int>, x: int)
    requires Sorted(s)
    ensures Sorted(Insert(s, x)) && multiset(Insert(s, x)) == multiset(s) + multiset{x}
  {
    if s == [] || s[|s| - 1] <= x {
      SortedSnoc(s, x);
    } else {
      SplitLast(s);
      InsertSorts(s[..|s| - 1], x);
      InsertBounded(s[..|s| - 1], x, s[|s| - 1]);
      SortedSnoc(Insert(s[..|s| - 1], x), s[|s| - 1]);
    }
  }

  /** Sorting a list gives a sorted permutation of it. */
  lemma {:induction false} OrderedSorts(s: seq<int>)
    ensures Sorted(Ordered(s)) && Permutation(Ordered(s), s)
  {
    if s != [] {
      SplitLast(s);
      OrderedSorts(s[..|s| - 1]);
      InsertSorts(Ordered(s[..|s| - 1]), s[|s| - 1]);
    }
  }

  lemma LastIsGreatest(s: seq<int>, x: int)
    requires Sorted(s) && x in multiset(s)
    ensures s != [] && x <= s[|s| - 1]
  {
    var i :| 0 <= i < |s| && s[i] == x;
  }

  /** There is only one sorted permutation, so percentiles do not depend on how the ring is turned. */
  lemma {:induction false} SortedIsUnique(a: seq<int>, b: seq<int>)
    requires Sorted(a) && Sorted(b) && Permutation(a, b)
    ensures a == b
  {
    PermutationLength(a, b);
    if a != [] {
      SameLast(a, b);
      SortedIsUnique(a[..|a| - 1], b[..|b| - 1]);
      SplitLast(a);
      SplitLast(b);
    }
  }

  lemma SameLast(a: seq<int>, b: seq<int>)
    requires Sorted(a) && Sorted(b) && Permutation(a, b) && a != [] && b != []
    ensures a[|a| - 1] == b[|b| - 1] && Permutation(a[..|a| - 1], b[..|b| - 1])
  {
    SplitLast(a);
    SplitLast(b);
    LastIsGreatest(b, a[|a| - 1]);
    LastIsGreatest(a, b[|b| - 1]);
    SameRest(a[..|a| - 1], b[..|b| - 1], a[|a| - 1], multiset(a));
  }

  lemma SameRest(a: seq<int>, b: seq<int>, x: int, all: multiset<int>)
    requires all == multiset(a) + multiset{x} == multiset(b) + multiset{x}
    ensures Permutation(a, b)
  {
    assert multiset(a) == all - multiset{x} == multiset(b);
  }

  // ---------------------------------------------------------------- ranks

  /** How many entries are smaller than `x`. */
  function Below(s: seq<int>, x: int): nat {
    if s == [] then 0 else Below(s[..|s| - 1], x) + (if s[|s| - 1] < x then 1 else 0)
  }

  /** How many entries are at most `x`. */
  function AtMost(s: seq<int>, x: int): nat {
    if s == [] then 0 else AtMost(s[..|s| - 1], x) + (if s[|s| - 1] <= x then 1 else 0)
  }

  function PlacesBelow(s: seq<int>, x: int): set<int> {
    set i | 0 <= i < |s| && s[i] < x
  }

  function PlacesAtMost(s: seq<int>, x: int): set<int> {
    set i | 0 <= i < |s| && s[i] <= x
  }

  lemma PlacesSnoc(s: seq<int>, v: int, x: int)
    ensures PlacesBelow(s + [v], x) == if v < x then PlacesBelow(s, x) + {|s|} else PlacesBelow(s, x)
    ensures PlacesAtMost(s + [v], x) == if v <= x then PlacesAtMost(s, x) + {|s|} else PlacesAtMost(s, x)
  {
  }

  /** Both are the sizes of what they count. */
  lemma {:induction false} RanksAreSizes(s: seq<int>, x: int)
    ensures Below(s, x) == |PlacesBelow(s, x)|
    ensures AtMost(s, x) == |PlacesAtMost(s, x)|
  {
    if s != [] {
      RanksAreSizes(s[..|s| - 1], x);
      PlacesSnoc(s[..|s| - 1], s[|s| - 1], x);
      assert s == s[..|s| - 1] + [s[|s| - 1]];
    }
  }

  lemma {:induction false} RanksAppend(a: seq<int>, b: seq<int>, x: int)
    ensures Below(a + b, x) == Below(a, x) + Below(b, x)
    ensures AtMost(a + b, x) == AtMost(a, x) + AtMost(b, x)
  {
    if b == [] {
      assert a + b == a;
    } else {
      assert (a + b)[..|a + b| - 1] == a + b[..|b| - 1];
      RanksAppend(a, b[..|b| - 1], x);
    }
  }

  lemma RanksWithout(s: seq<int>, i: nat, x: int)
    requires i < |s|
    ensures Below(s, x) == Below(WithoutAt(s, i), x) + (if s[i] < x then 1 else 0)
    ensures AtMost(s, x) == AtMost(WithoutAt(s, i), x) + (if s[i] <= x then 1 else 0)
  {
    SplitAt(s, i);
    RanksAppend(s[..i] + [s[i]], s[i + 1..], x);
    RanksAppend(s[..i], [s[i]], x);
    RanksAppend(s[..i], s[i + 1..], x);
    assert [s[i]][..0] == [];
  }

  lemma {:induction false} RanksPermutation(a: seq<int>, b: seq<int>, x: int)
    requires Permutation(a, b)
    ensures Below(a, x) == Below(b, x) && AtMost(a, x) == AtMost(b, x)
  {
    PermutationLength(a, b);
    if a != [] {
      var i := LastIn(a, b);
      RanksPermutation(a[..|a| - 1], WithoutAt(b, i), x);
      RanksWithout(b, i, x);
    }
  }

  lemma {:induction false} RanksBounded(s: seq<int>, x: int)
    ensures Below(s, x) <= AtMost(s, x) <= |s|
    ensures (forall i :: 0 <= i < |s| ==> s[i] <= x) ==> AtMost(s, x) == |s|
    ensures (forall i :: 0 <= i < |s| ==> s[i] >= x) ==> Below(s, x) == 0
    ensures (forall i :: 0 <= i < |s| ==> s[i] < x) ==> Below(s, x) == |s|
    ensures (forall i :: 0 <= i < |s| ==> s[i] > x) ==> AtMost(s, x) == 0
  {
    if s != [] {
      RanksBounded(s[..|s| - 1], x);
    }
  }

  lemma RanksSplit(s: seq<int>, k: nat, x: int)
    requires k <= |s|
    ensures Below(s, x) == Below(s[..k], x) + Below(s[k..], x)
    ensures AtMost(s, x) == AtMost(s[..k], x) + AtMost(s[k..], x)
  {
    RanksAppend(s[..k], s[k..], x);
    assert s[..k] + s[k..] == s;
  }

  lemma SmallerRank(s: seq<int>, k: nat, x: int)
    requires Sorted(s) && k < |s|
    ensures s[k] <= x ==> AtMost(s, x) > k
    ensures s[k] < x ==> Below(s, x) > k
  {
    var front := s[..k + 1];
    assert forall i :: 0 <= i < |front| ==> front[i] <= s[k];
    RanksSplit(s, k + 1, x);
    RanksBounded(front, x);
  }

  lemma GreaterRank(s: seq<int>, k: nat, x: int)
    requires Sorted(s) && k < |s|
    ensures s[k] >= x ==> Below(s, x) <= k
    ensures s[k] > x ==> AtMost(s, x) <= k
  {
    RanksSplit(s, k, x);
    RanksBounded(s[..k], x);
    RanksBounded(s[k..], x);
  }

  // ---------------------------------------------------------------- filtering

  /** `idx` lists in order exactly the positions whose element is kept. */
  ghost predicate Picks<T(!new)>(s: seq<T>, keep: T -> bool, idx: seq<nat>) {
    && (forall j, k :: 0 <= j < k < |idx| ==> idx[j] < idx[k])
    && (forall j :: 0 <= j < |idx| ==> idx[j] < |s|)
    && (forall i: nat :: i < |s| ==> (i in idx <==> keep(s[i])))
  }

  lemma PicksSnoc<T(!new)>(s: seq<T>, keep: T -> bool, idx: seq<nat>, x: T)
    requires Picks(s, keep, idx)
    ensures Picks(s + [x], keep, if keep(x) then idx + [|s|] else idx)
  {
    var t, more := s + [x], if keep(x) then idx + [|s|] else idx;
    forall i: nat | i < |t|
      ensures i in more <==> keep(t[i])
    {
      if i == |s| {
        assert keep(x) ==> more[|idx|] == i;
      } else {
        assert t[i] == s[i];
        assert i in more <==> i in idx;
      }
    }
  }

  /** `r` holds the elements at these positions. */
  ghost predicate TakenAt<T>(s: seq<T>, idx: seq<nat>, r: seq<T>) {
    |idx| == |r| && forall j :: 0 <= j < |r| ==> idx[j] < |s| && r[j] == s[idx[j]]
  }

  /** The kept elements in order, each as often as it occurs. */
  ghost predicate Filtered<T(!new)>(s: seq<T>, keep: T -> bool, r: seq<T>) {
    exists idx :: Picks(s, keep, idx) && TakenAt(s, idx, r)
  }

  lemma FilteredNone<T(!new)>(keep: T -> bool)
    ensures Filtered([], keep, [])
  {
    assert Picks([], keep, []) && TakenAt<T>([], [], []);
  }

  lemma FilteredSnoc<T(!new)>(s: seq<T>, keep: T -> bool, r: seq<T>, x: T)
    requires Filtered(s, keep, r)
    ensures Filtered(s + [x], keep, if keep(x) then r + [x] else r)
  {
    var idx :| Picks(s, keep, idx) && TakenAt(s, idx, r);
    PicksSnoc(s, keep, idx, x);
    TakenSnoc(s, idx, r, x);
  }

  lemma TakenSnoc<T>(s: seq<T>, idx: seq<nat>, r: seq<T>, x: T)
    requires TakenAt(s, idx, r)
    ensures TakenAt(s + [x], idx, r) && TakenAt(s + [x], idx + [|s|], r + [x])
  {
  }

  lemma FilteredNext<T(!new)>(s: seq<T>, i: nat, keep: T -> bool, r: seq<T>)
    requires i < |s| && Filtered(s[..i], keep, r)
    ensures Filtered(s[..i + 1], keep, if keep(s[i]) then r + [s[i]] else r)
  {
    assert s[..i + 1] == s[..i] + [s[i]];
    FilteredSnoc(s[..i], keep, r, s[i]);
  }

  lemma FilteredLast<T(!new)>(s: seq<T>, keep: T -> bool, r: seq<T>, r': seq<T>)
    requires s != [] && Filtered(s[..|s| - 1], keep, r)
    requires r' == if keep(s[|s| - 1]) then r + [s[|s| - 1]] else r
    ensures Filtered(s, keep, r')
  {
    FilteredNext(s, |s| - 1, keep, r);
    assert s[..|s|] == s;
  }

  /** One position less: the last one is picked exactly if its element is kept. */
  lemma PicksInit<T(!new)>(s: seq<T>, keep: T -> bool, idx: seq<nat>) returns (init: seq<nat>)
    requires s != [] && Picks(s, keep, idx)
    ensures Picks(s[..|s| - 1], keep, init)
    ensures idx == if keep(s[|s| - 1]) then init + [|s| - 1] else init
  {
    var n := |s| - 1;
    if keep(s[n]) {
      assert n in idx;
      init := idx[..|idx| - 1];
      var j :| 0 <= j < |idx| && idx[j] == n;
      assert idx[|idx| - 1] < |s|;
      assert j == |idx| - 1;
      assert forall i: nat :: i < n ==> (i in idx <==> i in init);
    } else {
      assert n !in idx;
      init := idx;
    }
  }

  lemma TakenInit<T>(s: seq<T>, init: seq<nat>, r: seq<T>, n: nat)
    requires |s| == n + 1 && forall j :: 0 <= j < |init| ==> init[j] < n
    ensures TakenAt(s, init, r) ==> TakenAt(s[..n], init, r)
    ensures TakenAt(s, init + [n], r) ==> r != [] && TakenAt(s[..n], init, r[..|r| - 1]) && r[|r| - 1] == s[n]
  {
    if TakenAt(s, init + [n], r) {
      assert (init + [n])[|init|] == n;
      assert forall j :: 0 <= j < |init| ==> (init + [n])[j] == init[j];
    }
  }

  lemma {:induction false} PickedCounts<T(!new)>(s: seq<T>, keep: T -> bool, idx: seq<nat>, r: seq<T>, x: T)
    requires Picks(s, keep, idx) && TakenAt(s, idx, r)
    ensures multiset(r)[x] == if keep(x) then multiset(s)[x] else 0
  {
    if s == [] {
      assert r == [];
    } else {
      var n := |s| - 1;
      var init := PicksInit(s, keep, idx);
      TakenInit(s, init, r, n);
      SplitLast(s);
      if keep(s[n]) {
        SplitLast(r);
        PickedCounts(s[..n], keep, init, r[..|r| - 1], x);
      } else {
        PickedCounts(s[..n], keep, init, r, x);
      }
    }
  }

  /** Each kept element occurs as often as before, and no other at all. */
  lemma FilteredCounts<T(!new)>(s: seq<T>, keep: T -> bool, r: seq<T>)
    requires Filtered(s, keep, r)
    ensures forall x :: multiset(r)[x] == if keep(x) then multiset(s)[x] else 0
  {
    var idx :| Picks(s, keep, idx) && TakenAt(s, idx, r);
    forall x
      ensures multiset(r)[x] == if keep(x) then multiset(s)[x] else 0
    {
      PickedCounts(s, keep, idx, r, x);
    }
  }
}
