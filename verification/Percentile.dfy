/** Ties the percentile read off the bins to the order statistics of the values behind them. */
module Percentile {
  import opened Histogram
  import opened HistogramTheory
  import opened Sequences

  // ---------------------------------------------------------------- counting

  /** How many of the values fall into bin `b`. */
  function NumInBin(ms: seq<int>, b: nat): (n: nat)
    ensures n <= |ms|
  {
    if ms == [] then 0
    else NumInBin(ms[..|ms| - 1], b) + (if BinFor(ms[|ms| - 1]) == b then 1 else 0)
  }

  /** How many of the values fall into a bin before `c`. */
  function NumBefore(ms: seq<int>, c: nat): (n: nat)
    ensures n <= |ms|
  {
    if ms == [] then 0
    else NumBefore(ms[..|ms| - 1], c) + (if BinFor(ms[|ms| - 1]) < c then 1 else 0)
  }

  /** No bin reaches 2^32 values, so no counter wraps around. */
  predicate Fits(ms: seq<int>) {
    FitsBefore(ms, NUM_BINS)
  }

  predicate FitsBefore(ms: seq<int>, n: nat) {
    forall b :: 0 <= b < n ==> NumInBin(ms, b) < WORD
  }

  lemma {:induction false} BinsModulo(ms: seq<int>, b: nat)
    requires b < NUM_BINS
    ensures HistOf(ms)[b] == NumInBin(ms, b) % WORD
  {
    if ms != [] {
      var init := ms[..|ms| - 1];
      BinsModulo(init, b);
      ModSum(0, NumInBin(init, b), 1);
      assert HistOf(ms)[b] == if BinFor(ms[|ms| - 1]) == b then (HistOf(init)[b] + 1) % WORD else HistOf(init)[b];
    }
  }

  lemma {:induction false} NumBeforeStep(ms: seq<int>, c: nat)
    ensures NumBefore(ms, c + 1) == NumBefore(ms, c) + NumInBin(ms, c)
  {
    if ms != [] {
      NumBeforeStep(ms[..|ms| - 1], c);
    }
  }

  lemma {:induction false} NumBeforeEnds(ms: seq<int>)
    ensures NumBefore(ms, 0) == 0 && NumBefore(ms, NUM_BINS) == |ms|
  {
    if ms != [] {
      NumBeforeEnds(ms[..|ms| - 1]);
    }
  }

  /** The counters of `h` are those of the values, up to wrap-around. */
  predicate Counts(h: Hist, ms: seq<int>) {
    forall b :: 0 <= b < NUM_BINS ==> h[b] == NumInBin(ms, b) % WORD
  }

  lemma HistCounts(ms: seq<int>)
    ensures Counts(HistOf(ms), ms)
  {
    forall b | 0 <= b < NUM_BINS
      ensures HistOf(ms)[b] == NumInBin(ms, b) % WORD
    {
      BinsModulo(ms, b);
    }
  }

  /** Summing counters that wrap around, against summing the numbers they stand for. */
  lemma {:induction false} CumulativeWrapped(h: seq<nat>, counts: seq<nat>, n: nat)
    requires n <= |h| == |counts|
    requires forall b :: 0 <= b < n ==> h[b] == counts[b] % WORD
    ensures CumTo(h, n) <= CumTo(counts, n)
    ensures CumTo(h, n) == CumTo(counts, n) <==> forall b :: 0 <= b < n ==> counts[b] < WORD
  {
    if n > 0 {
      CumulativeWrapped(h, counts, n - 1);
      WrappedAtMost(counts[n - 1]);
    }
  }

  function BinCounts(ms: seq<int>): seq<nat> {
    seq(NUM_BINS, b requires 0 <= b < NUM_BINS => NumInBin(ms, b))
  }

  lemma {:induction false} NumBeforeIsCumulative(ms: seq<int>, n: nat)
    requires n <= NUM_BINS
    ensures NumBefore(ms, n) == CumTo(BinCounts(ms), n)
  {
    if n == 0 {
      NumBeforeEnds(ms);
    } else {
      NumBeforeIsCumulative(ms, n - 1);
      NumBeforeStep(ms, n - 1);
    }
  }

  lemma CumulativeBound(h: Hist, ms: seq<int>, n: nat)
    requires n <= NUM_BINS && Counts(h, ms)
    ensures CumTo(h, n) <= NumBefore(ms, n)
    ensures CumTo(h, n) == NumBefore(ms, n) <==> FitsBefore(ms, n)
  {
    var counts := BinCounts(ms);
    CumulativeWrapped(h, counts, n);
    NumBeforeIsCumulative(ms, n);
    assert forall b :: 0 <= b < n ==> counts[b] == NumInBin(ms, b);
  }

  lemma WrappedAtMost(x: nat)
    ensures x % WORD <= x
    ensures x % WORD == x <==> x < WORD
  {
  }

  /** The stored count is the number of values exactly while no counter has wrapped. */
  lemma CountIsExactIffFits(ms: seq<int>)
    ensures CountOf(HistOf(ms)) <= |ms|
    ensures CountOf(HistOf(ms)) == |ms| <==> Fits(ms)
  {
    HistCounts(ms);
    CumulativeBound(HistOf(ms), ms, NUM_BINS);
    NumBeforeEnds(ms);
  }

  // ---------------------------------------------------------------- appending and permuting

  lemma MergedLaws(a: Hist, b: Hist, c: Hist)
    ensures Merged(a, b) == Merged(b, a)
    ensures Merged(Merged(a, b), c) == Merged(a, Merged(b, c))
    ensures Merged(Empty(), a) == a
  {
    assert Merged(a, b) == Merged(b, a);
    forall i | 0 <= i < NUM_BINS
      ensures Merged(Merged(a, b), c)[i] == Merged(a, Merged(b, c))[i]
    {
      ModSum(a[i], b[i], c[i]);
    }
    assert Merged(Empty(), a) == a;
  }

  lemma ModDrop(r: nat, q: nat)
    ensures (r + q * WORD) % WORD == r % WORD
  {
  }

  lemma ModSum(x: nat, y: nat, z: nat)
    ensures ((x + y) % WORD + z) % WORD == (x + y + z) % WORD
    ensures (x + (y + z) % WORD) % WORD == (x + y + z) % WORD
  {
    ModDrop((x + y) % WORD + z, (x + y) / WORD);
    ModDrop(x + (y + z) % WORD, (y + z) / WORD);
  }

  lemma BumpMerged(a: Hist, b: Hist, bin: nat)
    requires bin < NUM_BINS
    ensures Merged(Bump(a, bin), b) == Bump(Merged(a, b), bin)
  {
    ModSum(a[bin], 1, b[bin]);
    ModSum(a[bin], b[bin], 1);
    assert Merged(Bump(a, bin), b) == Bump(Merged(a, b), bin);
  }

  lemma BumpRight(a: Hist, b: Hist, bin: nat)
    requires bin < NUM_BINS
    ensures Merged(a, Bump(b, bin)) == Bump(Merged(a, b), bin)
  {
    MergedLaws(a, Bump(b, bin), a);
    MergedLaws(a, b, a);
    BumpMerged(b, a, bin);
  }

  lemma HistOfSnoc(x: seq<int>, v: int)
    ensures HistOf(x + [v]) == Bump(HistOf(x), BinFor(v))
  {
    assert (x + [v])[..|x + [v]| - 1] == x;
  }

  lemma {:induction false} HistOfAppend(a: seq<int>, b: seq<int>)
    ensures HistOf(a + b) == Merged(HistOf(a), HistOf(b))
  {
    if b == [] {
      assert a + b == a;
      MergedLaws(HistOf(a), Empty(), Empty());
    } else {
      var init, v := b[..|b| - 1], b[|b| - 1];
      SplitLast(b);
      HistOfAppend(a, init);
      SnocAppend(a, init, v, b);
    }
  }

  lemma SnocAppend(a: seq<int>, init: seq<int>, v: int, b: seq<int>)
    requires b == init + [v] && HistOf(a + init) == Merged(HistOf(a), HistOf(init))
    ensures HistOf(a + b) == Merged(HistOf(a), HistOf(b))
  {
    assert a + b == (a + init) + [v];
    HistOfSnoc(a + init, v);
    HistOfSnoc(init, v);
    BumpRight(HistOf(a), HistOf(init), BinFor(v));
  }

  lemma {:induction false} HistOfPermutation(a: seq<int>, b: seq<int>)
    requires Permutation(a, b)
    ensures HistOf(a) == HistOf(b)
  {
    if a == [] {
      PermutationLength(a, b);
    } else {
      var i := LastIn(a, b);
      HistOfPermutation(a[..|a| - 1], WithoutAt(b, i));
      HistOfInsert(b, i);
    }
  }

  lemma HistOfInsert(b: seq<int>, i: nat)
    requires i < |b|
    ensures HistOf(b) == Bump(HistOf(WithoutAt(b, i)), BinFor(b[i]))
  {
    SplitAt(b, i);
    HistOfMiddle(b, b[..i], b[i], b[i + 1..], WithoutAt(b, i));
  }

  lemma HistOfMiddle(all: seq<int>, x: seq<int>, v: int, y: seq<int>, rest: seq<int>)
    requires all == x + [v] + y && rest == x + y
    ensures HistOf(all) == Bump(HistOf(rest), BinFor(v))
  {
    HistOfAppend(x + [v], y);
    HistOfSnoc(x, v);
    BumpMerged(HistOf(x), HistOf(y), BinFor(v));
    HistOfAppend(x, y);
  }

  lemma {:induction false} NumInBinPermutation(a: seq<int>, b: seq<int>, bin: nat)
    requires Permutation(a, b)
    ensures NumInBin(a, bin) == NumInBin(b, bin)
  {
    if a == [] {
      PermutationLength(a, b);
    } else {
      var i := LastIn(a, b);
      NumInBinPermutation(a[..|a| - 1], WithoutAt(b, i), bin);
      NumInBinAppend(b[..i], b[i..], bin);
      assert b == b[..i] + b[i..];
      assert b[i..] == [b[i]] + b[i + 1..];
      NumInBinAppend([b[i]], b[i + 1..], bin);
      NumInBinAppend(b[..i], b[i + 1..], bin);
    }
  }

  lemma {:induction false} NumInBinAppend(a: seq<int>, b: seq<int>, bin: nat)
    ensures NumInBin(a + b, bin) == NumInBin(a, bin) + NumInBin(b, bin)
  {
    if b == [] {
      assert a + b == a;
    } else {
      assert (a + b)[..|a + b| - 1] == a + b[..|b| - 1];
      NumInBinAppend(a, b[..|b| - 1], bin);
    }
  }

  // ---------------------------------------------------------------- the order statistic

  /** Once a sorted list has reached a value before bin `c`, all earlier ones are before it too. */
  lemma AllBefore(init: seq<int>, x: int, c: nat)
    requires BinFor(x) < c && forall i :: 0 <= i < |init| ==> init[i] <= x
    requires forall i :: 0 <= i < |init| ==> (i < NumBefore(init, c) <==> BinFor(init[i]) < c)
    ensures NumBefore(init, c) == |init|
  {
    if |init| > 0 {
      BinMonotone(init[|init| - 1], x);
    }
  }

  /** In a sorted list the values of the bins before `c` come first. */
  lemma {:induction false} SortedSplits(s: seq<int>, c: nat)
    requires Sorted(s)
    ensures forall i :: 0 <= i < |s| ==> (i < NumBefore(s, c) <==> BinFor(s[i]) < c)
  {
    if s != [] {
      var init, x := s[..|s| - 1], s[|s| - 1];
      SortedSplits(init, c);
      if BinFor(x) < c {
        AllBefore(init, x, c);
      }
    }
  }

  /** The 75th percentile by the nearest-rank rule: element ceil(3n/4) of the sorted values. */
  function NearestRank75(s: seq<int>): int
    requires s != []
  {
    s[(3 * |s| + 3) / 4 - 1]
  }

  /** Three quarters are reached from the bin of the nearest-rank percentile on. */
  lemma ReachedAtRank(h: Hist, s: seq<int>, b: nat)
    requires Sorted(s) && s != [] && Fits(s) && Counts(h, s) && b < NUM_BINS
    ensures Reached(h, b) <==> BinFor(NearestRank75(s)) <= b
  {
    CumulativeBound(h, s, b + 1);
    CumulativeBound(h, s, NUM_BINS);
    NumBeforeEnds(s);
    SortedSplits(s, b + 1);
    var k := (3 * |s| + 3) / 4;
    assert k - 1 < NumBefore(s, b + 1) <==> BinFor(s[k - 1]) < b + 1;
  }

  lemma FitsPermutation(ms: seq<int>, s: seq<int>)
    requires Permutation(ms, s) && Fits(ms)
    ensures Fits(s)
  {
    forall b | 0 <= b < NUM_BINS
      ensures NumInBin(s, b) < WORD
    {
      NumInBinPermutation(ms, s, b);
    }
  }

  /** The bin the read-off stops at is the bin of the nearest-rank percentile. */
  lemma RankBinIsBinOfRank(ms: seq<int>, s: seq<int>)
    requires Permutation(ms, s) && Sorted(s) && s != [] && Fits(ms)
    ensures RankBin(HistOf(ms), 0) == BinFor(NearestRank75(s))
  {
    HistOfPermutation(ms, s);
    FitsPermutation(ms, s);
    HistCounts(s);
    var h := HistOf(s);
    forall b | 0 <= b < NUM_BINS
      ensures Reached(h, b) <==> BinFor(NearestRank75(s)) <= b
    {
      ReachedAtRank(h, s, b);
    }
    FirstReached(h, BinFor(NearestRank75(s)));
  }

  lemma StoredP75(ms: seq<int>, s: seq<int>)
    requires Permutation(ms, s) && Sorted(s) && s != [] && Fits(ms)
    ensures P75(HistOf(ms)) == UpperMs(BinFor(NearestRank75(s)))
  {
    RankBinIsBinOfRank(ms, s);
    PermutationLength(ms, s);
    CountIsExactIffFits(ms);
  }

  /** `q` is the nearest-rank 75th percentile: the value at which three quarters of the list are reached. */
  predicate IsP75(ms: seq<int>, q: int) {
    q in ms && 4 * Below(ms, q) < 3 * |ms| <= 4 * AtMost(ms, q)
  }

  /** There is exactly one, element ceil(3 n / 4) of the sorted list. */
  lemma NearestRankMeaning(ms: seq<int>, s: seq<int>, q: int)
    requires Permutation(ms, s) && Sorted(s) && s != []
    ensures IsP75(ms, q) <==> q == NearestRank75(s)
  {
    var k := (3 * |s| + 3) / 4 - 1;
    PermutationLength(ms, s);
    RanksPermutation(ms, s, q);
    SmallerRank(s, k, q);
    GreaterRank(s, k, q);
    assert s[k] in multiset(ms);
    assert s[k] in ms;
  }

  /** How a reported percentile `u` brackets a true one `q`, and exactly where each side holds. */
  ghost predicate Brackets(u: nat, q: nat) {
    && (q <= u <==> q <= MAX_MS)
    && (WithinOneBin(u, q) <==> q >= MIN_MS)
  }

  /** `s` is the sorted list of `ms`, which is not empty, not negative at its percentile, and wraps no counter. */
  ghost predicate SortedForm(ms: seq<int>, s: seq<int>) {
    Permutation(ms, s) && Sorted(s) && s != [] && Fits(ms) && NearestRank75(s) >= 0
  }

  /** End to end: the percentile read off the bins against the true order statistic of the values. */
  lemma P75Brackets(ms: seq<int>, s: seq<int>)
    requires SortedForm(ms, s)
    ensures Brackets(P75(HistOf(ms)), NearestRank75(s))
  {
    StoredP75(ms, s);
    UpperCoversIff(NearestRank75(s));
    UpperWithinOneBinIff(NearestRank75(s));
  }

  /** The read-off of one value is the upper edge of its bin. */
  lemma SingleP75(q: nat)
    ensures P75(HistOf([q])) == UpperMs(BinFor(q))
  {
    NumBeforeEnds([q]);
    StoredP75([q], [q]);
  }

  /** Both sides of the bracket do fail: a value above the range is understated, one below it overstated. */
  lemma BracketEnds()
    ensures P75(HistOf([30001])) == 30000
    ensures P75(HistOf([0])) >= 53 && !WithinOneBin(P75(HistOf([0])), 0)
  {
    SingleP75(30001);
    TopUpper(30001);
    SingleP75(0);
    UpperIsNearest(BinFor(0));
    FirstUpper(UpperMs(BinFor(0)), BinFor(0));
    UpperWithinOneBinIff(0);
  }

  // ---------------------------------------------------------------- merging

  function PairTotal(a: Hist, b: Hist, i: nat): nat
    requires i < NUM_BINS
  {
    a[i] as nat + b[i] as nat
  }

  predicate NoWrapBefore(a: Hist, b: Hist, n: nat)
    requires n <= NUM_BINS
  {
    forall i :: 0 <= i < n ==> PairTotal(a, b, i) < WORD
  }

  /** No counter wraps around when the two histograms are merged. */
  predicate NoWrap(a: Hist, b: Hist) {
    NoWrapBefore(a, b, NUM_BINS)
  }

  lemma {:induction false} CumulativeMerged(a: Hist, b: Hist, n: nat)
    requires NoWrap(a, b) && n <= NUM_BINS
    ensures CumTo(Merged(a, b), n) == CumTo(a, n) + CumTo(b, n)
  {
    if n > 0 {
      CumulativeMerged(a, b, n - 1);
      assert PairTotal(a, b, n - 1) < WORD;
    }
  }

  lemma {:induction false} CumulativeMonotone(h: Hist, m: nat, n: nat)
    requires m <= n <= NUM_BINS
    ensures CumTo(h, m) <= CumTo(h, n)
  {
    if m < n {
      CumulativeMonotone(h, m, n - 1);
    }
  }

  /** A bin is at or after the read-off bin exactly when three quarters are reached there. */
  lemma ReachedIff(h: Hist, b: nat)
    requires b < NUM_BINS
    ensures Reached(h, b) <==> RankBin(h, 0) <= b
  {
    var r := RankBin(h, 0);
    if r <= b {
      assert Reached(h, r) by {
        if r == NUM_BINS - 1 {
          assert CumTo(h, r + 1) == CountOf(h);
        }
      }
      CumulativeMonotone(h, r + 1, b + 1);
    }
  }

  lemma MergedRankBetween(a: Hist, b: Hist)
    requires NoWrap(a, b) && RankBin(a, 0) <= RankBin(b, 0)
    ensures RankBin(a, 0) <= RankBin(Merged(a, b), 0) <= RankBin(b, 0)
  {
    var m, lo, hi := Merged(a, b), RankBin(a, 0), RankBin(b, 0);
    CumulativeMerged(a, b, NUM_BINS);
    ReachedIff(a, hi);
    ReachedIff(b, hi);
    CumulativeMerged(a, b, hi + 1);
    ReachedIff(m, hi);
    if lo > 0 {
      ReachedIff(a, lo - 1);
      ReachedIff(b, lo - 1);
      CumulativeMerged(a, b, lo);
      ReachedIff(m, lo - 1);
    }
  }

  /** The percentile of a merge lies between the percentiles of its parts. */
  lemma MergedP75Between(a: Hist, b: Hist)
    requires CountOf(a) > 0 && CountOf(b) > 0 && NoWrap(a, b)
    ensures CountOf(Merged(a, b)) > 0
    ensures P75(a) <= P75(Merged(a, b)) <= P75(b) || P75(b) <= P75(Merged(a, b)) <= P75(a)
  {
    CumulativeMerged(a, b, NUM_BINS);
    if RankBin(a, 0) <= RankBin(b, 0) {
      OrderedMergeBetween(a, b);
    } else {
      MergedLaws(a, b, a);
      assert forall i :: 0 <= i < NUM_BINS ==> PairTotal(b, a, i) == PairTotal(a, b, i);
      OrderedMergeBetween(b, a);
    }
  }

  lemma OrderedMergeBetween(a: Hist, b: Hist)
    requires CountOf(a) > 0 && CountOf(b) > 0 && CountOf(Merged(a, b)) > 0 && NoWrap(a, b)
    requires RankBin(a, 0) <= RankBin(b, 0)
    ensures P75(a) <= P75(Merged(a, b)) <= P75(b)
  {
    MergedRankBetween(a, b);
    UpperMonotone(RankBin(a, 0), RankBin(Merged(a, b), 0));
    UpperMonotone(RankBin(Merged(a, b), 0), RankBin(b, 0));
  }
}
