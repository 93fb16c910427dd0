/** Sums and histogram merges over all entries of a map, in any order. */
module MapFolds {
  import opened Histogram
  import opened Percentile

  /** The merge of all histograms of the map; the order of merging does not matter (MergeAllWith). */
  ghost function MergeAll<K>(m: map<K, Hist>): Hist
    decreases |m|
  {
    if m == map[] then Empty()
    else
      var k :| k in m;
      Merged(m[k], MergeAll(m - {k}))
  }

  ghost function SumAll<K>(m: map<K, nat>): nat
    decreases |m|
  {
    if m == map[] then 0
    else
      var k :| k in m;
      m[k] + SumAll(m - {k})
  }

  lemma SameMap<K, V>(a: map<K, V>, b: map<K, V>)
    requires a.Keys == b.Keys && forall k :: k in a ==> a[k] == b[k]
    ensures a == b
  {
  }

  lemma {:induction false} MergeAllWith<K>(m: map<K, Hist>, k: K)
    requires k in m
    ensures MergeAll(m) == Merged(m[k], MergeAll(m - {k}))
    decreases |m|
  {
    var j :| j in m && MergeAll(m) == Merged(m[j], MergeAll(m - {j}));
    if j != k {
      MergeAllWith(m - {j}, k);
      MergeAllWith(m - {k}, j);
      assert m - {j} - {k} == m - {k} - {j};
      var rest := MergeAll(m - {j} - {k});
      MergedLaws(m[j], m[k], rest);
      MergedLaws(m[k], m[j], rest);
    }
  }

  lemma {:induction false} SumAllWith<K>(m: map<K, nat>, k: K)
    requires k in m
    ensures SumAll(m) == m[k] + SumAll(m - {k})
    decreases |m|
  {
    var j :| j in m && SumAll(m) == m[j] + SumAll(m - {j});
    if j != k {
      SumAllWith(m - {j}, k);
      SumAllWith(m - {k}, j);
      assert m - {j} - {k} == m - {k} - {j};
    }
  }

  lemma MergeAllAdd<K>(m: map<K, Hist>, k: K, h: Hist)
    requires k !in m
    ensures MergeAll(m[k := h]) == Merged(h, MergeAll(m))
  {
    MergeAllWith(m[k := h], k);
    assert m[k := h] - {k} == m;
  }

  /** One more value in one of the merged histograms is one more value in the merge. */
  lemma MergeAllBump<K>(m: map<K, Hist>, n: map<K, Hist>, k: K, bin: nat)
    requires k in m && bin < NUM_BINS && n.Keys == m.Keys
    requires n[k] == Bump(m[k], bin) && forall j :: j in m && j != k ==> n[j] == m[j]
    ensures MergeAll(n) == Bump(MergeAll(m), bin)
  {
    MergeAllWith(m, k);
    MergeAllWith(n, k);
    assert n - {k} == m - {k};
    BumpMerged(m[k], MergeAll(m - {k}), bin);
  }

  lemma SumAllBump<K>(m: map<K, nat>, n: map<K, nat>, k: K)
    requires k in m && n.Keys == m.Keys
    requires n[k] == m[k] + 1 && forall j :: j in m && j != k ==> n[j] == m[j]
    ensures SumAll(n) == SumAll(m) + 1
  {
    SumAllWith(m, k);
    SumAllWith(n, k);
    assert n - {k} == m - {k};
  }

  // ---------------------------------------------------------------- overflow and brackets

  /** Merging `b` into `a`: the count falls short exactly when some bin wraps around. */
  lemma CountMergedIff(a: Hist, b: Hist)
    ensures CountOf(Merged(a, b)) <= CountOf(a) + CountOf(b)
    ensures CountOf(Merged(a, b)) == CountOf(a) + CountOf(b) <==> NoWrap(a, b)
  {
    CumMergedIff(a, b, NUM_BINS);
  }

  lemma {:induction false} CumMergedIff(a: Hist, b: Hist, n: nat)
    requires n <= NUM_BINS
    ensures CumTo(Merged(a, b), n) <= CumTo(a, n) + CumTo(b, n)
    ensures CumTo(Merged(a, b), n) == CumTo(a, n) + CumTo(b, n) <==> NoWrapBefore(a, b, n)
  {
    if n > 0 {
      CumMergedIff(a, b, n - 1);
      WrappedAtMost(PairTotal(a, b, n - 1));
      assert NoWrapBefore(a, b, n) <==> NoWrapBefore(a, b, n - 1) && PairTotal(a, b, n - 1) < WORD;
    }
  }

  /** The counts of the histograms in a map, entry by entry. */
  function Counted<K>(m: map<K, Hist>): map<K, nat> {
    map k | k in m :: CountOf(m[k])
  }

  function Column<K>(m: map<K, Hist>, bin: nat): map<K, nat>
    requires bin < NUM_BINS
  {
    map k | k in m :: m[k][bin]
  }

  /** The total of one bin over all histograms of the map. */
  ghost function BinTotal<K>(m: map<K, Hist>, bin: nat): nat
    requires bin < NUM_BINS
  {
    SumAll(Column(m, bin))
  }

  ghost predicate AllBinsFit<K>(m: map<K, Hist>) {
    forall bin :: 0 <= bin < NUM_BINS ==> BinTotal(m, bin) < WORD
  }

  lemma BinTotalWith<K>(m: map<K, Hist>, k: K, bin: nat)
    requires k in m && bin < NUM_BINS
    ensures BinTotal(m, bin) == m[k][bin] + BinTotal(m - {k}, bin)
  {
    SumAllWith(Column(m, bin), k);
    assert Column(m, bin) - {k} == Column(m - {k}, bin);
  }

  /** Each bin of a merge is the total of that bin, up to wrap-around. */
  lemma {:induction false} MergeAllBin<K>(m: map<K, Hist>, bin: nat)
    requires bin < NUM_BINS
    ensures MergeAll(m)[bin] == BinTotal(m, bin) % WORD
    decreases |m|
  {
    if m == map[] {
      assert Column(m, bin) == map[];
    } else {
      var k :| k in m;
      MergeAllBin(m - {k}, bin);
      MergeAllBinStep(m, k, m - {k}, bin);
    }
  }

  lemma MergeAllBinStep<K>(m: map<K, Hist>, k: K, rest: map<K, Hist>, bin: nat)
    requires k in m && rest == m - {k} && bin < NUM_BINS
    requires MergeAll(rest)[bin] == BinTotal(rest, bin) % WORD
    ensures MergeAll(m)[bin] == BinTotal(m, bin) % WORD
  {
    BinTotalWith(m, k, bin);
    MergeAllWith(m, k);
    MergedBin(m[k], MergeAll(rest), bin, BinTotal(rest, bin));
  }

  lemma MergedBin(a: Hist, b: Hist, bin: nat, t: nat)
    requires bin < NUM_BINS && b[bin] == t % WORD
    ensures Merged(a, b)[bin] == (a[bin] + t) % WORD
  {
    ModSum(a[bin], t, 0);
  }

  lemma AllBinsFitWith<K>(m: map<K, Hist>, k: K)
    requires k in m
    ensures AllBinsFit(m) <==> AllBinsFit(m - {k}) && NoWrap(m[k], MergeAll(m - {k}))
  {
    var rest := m - {k};
    forall bin | 0 <= bin < NUM_BINS
      ensures BinTotal(m, bin) == m[k][bin] + BinTotal(rest, bin)
      ensures MergeAll(rest)[bin] == BinTotal(rest, bin) % WORD
    {
      BinTotalWith(m, k, bin);
      MergeAllBin(rest, bin);
    }
    if AllBinsFit(m) {
      forall bin | 0 <= bin < NUM_BINS
        ensures BinTotal(rest, bin) < WORD && PairTotal(m[k], MergeAll(rest), bin) < WORD
      {
        assert BinTotal(m, bin) < WORD;
      }
    }
    if AllBinsFit(rest) && NoWrap(m[k], MergeAll(rest)) {
      forall bin | 0 <= bin < NUM_BINS
        ensures BinTotal(m, bin) < WORD
      {
        assert BinTotal(rest, bin) < WORD && PairTotal(m[k], MergeAll(rest), bin) < WORD;
      }
    }
  }

  /** A merge of many counts their sum exactly when, in every bin, the parts together stay below 2^32. */
  lemma {:induction false} CountMergeAllIff<K>(m: map<K, Hist>)
    ensures CountOf(MergeAll(m)) <= SumAll(Counted(m))
    ensures CountOf(MergeAll(m)) == SumAll(Counted(m)) <==> AllBinsFit(m)
    decreases |m|
  {
    if m == map[] {
      assert Counted(m) == map[];
      CountOfEmpty(NUM_BINS);
      forall bin | 0 <= bin < NUM_BINS
        ensures BinTotal(m, bin) < WORD
      {
        assert Column(m, bin) == map[];
      }
    } else {
      var k :| k in m;
      CountMergeAllIff(m - {k});
      MergeAllWith(m, k);
      SumAllWith(Counted(m), k);
      assert Counted(m) - {k} == Counted(m - {k});
      CountMergedIff(m[k], MergeAll(m - {k}));
      AllBinsFitWith(m, k);
    }
  }

  lemma {:induction false} CountOfEmpty(n: nat)
    requires n <= NUM_BINS
    ensures CumTo(Empty(), n) == 0
  {
    if n > 0 {
      CountOfEmpty(n - 1);
    }
  }

  /** The percentile of a merge of many lies between the least and the greatest of their percentiles. */
  lemma {:induction false} MergeAllP75Between<K>(m: map<K, Hist>) returns (lo: K, hi: K)
    requires m != map[] && AllBinsFit(m)
    requires forall k :: k in m ==> CountOf(m[k]) > 0
    ensures lo in m && hi in m && CountOf(MergeAll(m)) > 0
    ensures P75(m[lo]) <= P75(MergeAll(m)) <= P75(m[hi])
    decreases |m|
  {
    var k :| k in m;
    var rest := m - {k};
    MergeAllWith(m, k);
    AllBinsFitWith(m, k);
    if rest == map[] {
      MergedLaws(m[k], Empty(), Empty());
      return k, k;
    }
    lo, hi := MergeAllP75Between(rest);
    MergedP75Between(m[k], MergeAll(rest));
    if P75(m[k]) <= P75(MergeAll(m)) <= P75(MergeAll(rest)) {
      lo := k;
    } else {
      hi := k;
    }
  }
}
