/**
 * What the three derived tables say, for any tables that agree with a log of folded samples,
 * and how the tables agree with each other.
 */
module Tables {
  import opened Common
  import opened Histogram
  import opened Percentile
  import opened MapFolds
  import opened Sequences
  import opened Aggregate
  import opened Rebuild
  import opened Folding

  // ---------------------------------------------------------------- one row

  /** A stored row describes the values of its group. */
  ghost predicate Describes(row: Bucket, ms: seq<int>) {
    && Decoded(row.hist).Some?
    && Counts(Decoded(row.hist).value, ms)
    && row.count == CountOf(Decoded(row.hist).value)
    && row.p75 == P75(Decoded(row.hist).value)
    && row.count <= |ms|
    && (row.count == |ms| <==> Fits(ms))
  }

  lemma RowDescribes(log: seq<Stamped>, q: Query)
    ensures Describes(RowFor(log, q), Select(log, q))
  {
    var ms := Select(log, q);
    DecodeAfterEncode(HistOf(ms));
    HistCounts(ms);
    CountIsExactIffFits(ms);
  }

  /** page_minute has a row exactly for the buckets some folded sample fell into, and it describes them. */
  lemma PageMinuteMeaning(agg: Agg, log: seq<Stamped>, r: PageMinute)
    requires IsRebuildOf(agg, log)
    ensures r in agg.pageMinute <==> exists x :: x in log && Matches(x, OfBucket(r.key, r.minute))
    ensures r in agg.pageMinute ==> Describes(agg.pageMinute[r], Select(log, OfBucket(r.key, r.minute)))
    ensures r in agg.pageMinute ==> agg.pageMinute[r].lastSeen == LastSeen(log, OfBucket(r.key, r.minute))
  {
    AllAgree(agg, log);
    NotInBuckets(log, r.key, r.minute);
    SelectEmptyIff(log, OfBucket(r.key, r.minute));
    RowDescribes(log, OfBucket(r.key, r.minute));
  }

  /** The percentile of a row against the true order statistic of the samples behind it. */
  lemma RowPercentile(agg: Agg, log: seq<Stamped>, r: PageMinute, s: seq<int>)
    requires IsRebuildOf(agg, log) && r in agg.pageMinute
    requires SortedForm(Select(log, OfBucket(r.key, r.minute)), s)
    ensures Brackets(agg.pageMinute[r].p75, NearestRank75(s))
  {
    AllAgree(agg, log);
    P75Brackets(Select(log, OfBucket(r.key, r.minute)), s);
  }

  lemma SitePercentile(agg: Agg, log: seq<Stamped>, r: SiteMinute, s: seq<int>)
    requires IsRebuildOf(agg, log) && r in agg.siteMinute
    requires SortedForm(Select(log, OfSite(r.site, r.minute)), s)
    ensures Brackets(agg.siteMinute[r].p75, NearestRank75(s))
  {
    AllAgree(agg, log);
    P75Brackets(Select(log, OfSite(r.site, r.minute)), s);
  }

  /** The group behind the running percentile: the page's samples in the 60 minutes up to its last one. */
  function RunningGroup(row: Current, k: PageKey): Query {
    OfWindow(k, MinuteOf(row.lastSeen) - TRAILING_MINUTES)
  }

  lemma CurrentRow(agg: Agg, log: seq<Stamped>, k: PageKey)
    requires agg.pageCurrent == PageCurrentOf(log) && k in agg.pageCurrent
    ensures k in PagesIn(log) && agg.pageCurrent[k] == CurrentFor(log, k)
    ensures agg.pageCurrent[k].p75 == P75(HistOf(Select(log, RunningGroup(agg.pageCurrent[k], k))))
  {
    assert agg.pageCurrent[k] == CurrentFor(log, k);
    RunningP75(log, k, CurrentFor(log, k));
  }

  lemma RunningP75(log: seq<Stamped>, k: PageKey, row: Current)
    requires row == CurrentFor(log, k)
    ensures row.p75 == P75(HistOf(Select(log, RunningGroup(row, k))))
  {
    assert WindowHist(log, k, row.lastSeen) == HistOf(Select(log, RunningGroup(row, k)));
  }

  lemma CurrentPercentile(agg: Agg, log: seq<Stamped>, k: PageKey, s: seq<int>)
    requires IsRebuildOf(agg, log) && k in agg.pageCurrent
    requires SortedForm(Select(log, RunningGroup(agg.pageCurrent[k], k)), s)
    ensures Brackets(agg.pageCurrent[k].p75, NearestRank75(s))
  {
    AllAgree(agg, log);
    CurrentRow(agg, log, k);
    P75Brackets(Select(log, RunningGroup(agg.pageCurrent[k], k)), s);
  }

  // ---------------------------------------------------------------- parts that fit

  lemma {:induction false} SubgroupBins(log: seq<Stamped>, part: Query, whole: Query, bin: nat)
    requires forall x :: x in log && Matches(x, part) ==> Matches(x, whole)
    ensures NumInBin(Select(log, part), bin) <= NumInBin(Select(log, whole), bin)
  {
    if log != [] {
      SplitLast(log);
      SubgroupBins(log[..|log| - 1], part, whole, bin);
      SubgroupStep(log, log[..|log| - 1], log[|log| - 1], part, whole, bin);
    }
  }

  lemma SubgroupStep(log: seq<Stamped>, init: seq<Stamped>, x: Stamped, part: Query, whole: Query, bin: nat)
    requires log == init + [x] && (Matches(x, part) ==> Matches(x, whole))
    requires NumInBin(Select(init, part), bin) <= NumInBin(Select(init, whole), bin)
    ensures NumInBin(Select(log, part), bin) <= NumInBin(Select(log, whole), bin)
  {
    SelectSnoc(init, x, part);
    SelectSnoc(init, x, whole);
    NumInBinAppend(Select(init, part), [x.sample.ms], bin);
    NumInBinAppend(Select(init, whole), [x.sample.ms], bin);
  }

  lemma SubgroupFits(log: seq<Stamped>, part: Query, whole: Query)
    requires forall x :: x in log && Matches(x, part) ==> Matches(x, whole)
    requires Fits(Select(log, whole))
    ensures Fits(Select(log, part))
  {
    forall bin | 0 <= bin < NUM_BINS
      ensures NumInBin(Select(log, part), bin) < WORD
    {
      SubgroupBins(log, part, whole, bin);
    }
  }

  lemma {:induction false} SumCompare<K>(m: map<K, nat>, n: map<K, nat>)
    requires m.Keys == n.Keys && forall k :: k in m ==> m[k] <= n[k]
    ensures SumAll(m) <= SumAll(n)
    ensures SumAll(m) == SumAll(n) <==> m == n
    decreases |m|
  {
    if m == map[] {
      assert n == map[];
    } else {
      var k :| k in m;
      assert |m - {k}| < |m|;
      SumCompare(m - {k}, n - {k});
      SumAllWith(m, k);
      SumAllWith(n, k);
      assert m == (m - {k})[k := m[k]] && n == (n - {k})[k := n[k]];
    }
  }

  lemma PartFits(log: seq<Stamped>, part: Query, whole: Query)
    requires forall x :: x in log && Matches(x, part) ==> Matches(x, whole)
    requires Fits(Select(log, whole))
    ensures CountOf(HistOf(Select(log, part))) == |Select(log, part)|
  {
    SubgroupFits(log, part, whole);
    CountIsExactIffFits(Select(log, part));
  }

  lemma CountsAreSizes<K>(log: seq<Stamped>, parts: map<K, Query>, whole: Query)
    requires forall x, k :: x in log && k in parts && Matches(x, parts[k]) ==> Matches(x, whole)
    requires Fits(Select(log, whole))
    ensures Counted(PartHists(log, parts)) == PartSizes(log, parts)
  {
    forall k | k in parts
      ensures CountOf(HistOf(Select(log, parts[k]))) == |Select(log, parts[k])|
    {
      PartFits(log, parts[k], whole);
    }
    SameMap(Counted(PartHists(log, parts)), PartSizes(log, parts));
  }

  /** Counts that add up to the count of the merge leave no bin too full. */
  lemma NothingLost<K>(hists: map<K, Hist>, sizes: map<K, nat>, ms: seq<int>)
    requires Counted(hists) == sizes && SumAll(sizes) == |ms|
    requires MergeAll(hists) == HistOf(ms) && CountOf(HistOf(ms)) == |ms|
    ensures AllBinsFit(hists)
  {
    CountMergeAllIff(hists);
  }

  lemma PartInWhole<K>(log: seq<Stamped>, parts: map<K, Query>, whole: Query, key: Stamped -> K)
    requires Partitions(parts, whole, log, key)
    ensures forall x, k :: x in log && k in parts && Matches(x, parts[k]) ==> Matches(x, whole)
  {
  }

  lemma BinsFit<K>(log: seq<Stamped>, parts: map<K, Query>, whole: Query, key: Stamped -> K)
    requires Partitions(parts, whole, log, key) && Fits(Select(log, whole))
    requires Counted(PartHists(log, parts)) == PartSizes(log, parts)
    ensures AllBinsFit(PartHists(log, parts))
  {
    PartsMakeWhole(log, parts, whole, key);
    CountIsExactIffFits(Select(log, whole));
    NothingLost(PartHists(log, parts), PartSizes(log, parts), Select(log, whole));
  }

  /** When the whole fits, the parts' counts are their sizes and merging them loses nothing. */
  lemma PartsFit<K>(log: seq<Stamped>, parts: map<K, Query>, whole: Query, key: Stamped -> K)
    requires Partitions(parts, whole, log, key) && Fits(Select(log, whole))
    ensures Counted(PartHists(log, parts)) == PartSizes(log, parts)
    ensures AllBinsFit(PartHists(log, parts))
  {
    PartInWhole(log, parts, whole, key);
    CountsAreSizes(log, parts, whole);
    BinsFit(log, parts, whole, key);
  }

  // ---------------------------------------------------------------- page_current from page_minute

  function PageParts(log: seq<Stamped>, k: PageKey): map<PageMinute, Query> {
    map r | r in BucketsIn(log) && r.key == k :: OfBucket(r.key, r.minute)
  }

  /** The stored counts of one page's buckets. */
  function BucketCounts(table: map<PageMinute, Bucket>, k: PageKey): map<PageMinute, nat> {
    map r | r in table && r.key == k :: table[r].count
  }

  lemma PagePartition(log: seq<Stamped>, k: PageKey)
    ensures Partitions(PageParts(log, k), OfPage(k), log, BucketKey)
  {
  }

  /** The buckets' counts add up to the running count exactly while no bucket's bin has wrapped around. */
  lemma CurrentCount(agg: Agg, log: seq<Stamped>, k: PageKey)
    requires IsRebuildOf(agg, log) && k in agg.pageCurrent
    ensures agg.pageCurrent[k].count == |Select(log, OfPage(k))|
    ensures SumAll(BucketCounts(agg.pageMinute, k)) <= agg.pageCurrent[k].count
    ensures SumAll(BucketCounts(agg.pageMinute, k)) == agg.pageCurrent[k].count <==>
            forall m :: PageMinute(k, m) in agg.pageMinute ==> Fits(Select(log, OfBucket(k, m)))
  {
    AllAgree(agg, log);
    var parts := PageParts(log, k);
    var counts, sizes := BucketCounts(agg.pageMinute, k), PartSizes(log, parts);
    CurrentRow(agg, log, k);
    PagePartition(log, k);
    PartsMakeWhole(log, parts, OfPage(k), BucketKey);
    CountsAgainstSizes(log, k);
    SumCompare(counts, sizes);
    SameCountsIff(counts, sizes, agg, log, k);
  }

  lemma CountsAgainstSizes(log: seq<Stamped>, k: PageKey)
    ensures var counts, sizes := BucketCounts(PageMinuteOf(log), k), PartSizes(log, PageParts(log, k));
            && counts.Keys == sizes.Keys
            && forall r :: r in counts ==>
              counts[r] <= sizes[r] && (counts[r] == sizes[r] <==> Fits(Select(log, OfBucket(k, r.minute))))
  {
    var counts := BucketCounts(PageMinuteOf(log), k);
    forall r | r in counts
      ensures counts[r] <= |Select(log, OfBucket(k, r.minute))|
      ensures counts[r] == |Select(log, OfBucket(k, r.minute))| <==> Fits(Select(log, OfBucket(k, r.minute)))
    {
      RowDescribes(log, OfBucket(k, r.minute));
    }
  }

  lemma SameCountsIff(counts: map<PageMinute, nat>, sizes: map<PageMinute, nat>, agg: Agg, log: seq<Stamped>,
                      k: PageKey)
    requires counts.Keys == sizes.Keys
    requires forall r :: r in counts <==> r in agg.pageMinute && r.key == k
    requires forall r :: r in counts ==> (counts[r] == sizes[r] <==> Fits(Select(log, OfBucket(k, r.minute))))
    ensures counts == sizes <==> forall m :: PageMinute(k, m) in agg.pageMinute ==> Fits(Select(log, OfBucket(k, m)))
  {
    if counts == sizes {
      forall m | PageMinute(k, m) in agg.pageMinute
        ensures Fits(Select(log, OfBucket(k, m)))
      {
        assert PageMinute(k, m) in counts;
      }
    }
    if forall m :: PageMinute(k, m) in agg.pageMinute ==> Fits(Select(log, OfBucket(k, m))) {
      forall r | r in counts
        ensures counts[r] == sizes[r]
      {
        assert r == PageMinute(k, r.minute);
      }
      SameMap(counts, sizes);
    }
  }

  /** A page has a running row exactly if it has a bucket, and its percentile is that of the merged window. */
  lemma CurrentFromBuckets(agg: Agg, log: seq<Stamped>, k: PageKey)
    requires IsRebuildOf(agg, log)
    ensures k in agg.pageCurrent <==> exists m :: PageMinute(k, m) in agg.pageMinute
    ensures k in agg.pageCurrent ==>
      agg.pageCurrent[k].p75 ==
      P75(Trailing(agg.pageMinute, k, MinuteOf(agg.pageCurrent[k].lastSeen) - TRAILING_MINUTES))
  {
    AllAgree(agg, log);
    PagesHaveBuckets(log, k);
    if k in agg.pageCurrent {
      CurrentRow(agg, log, k);
      TrailingIsWindow(log, k, MinuteOf(agg.pageCurrent[k].lastSeen) - TRAILING_MINUTES);
    }
  }

  lemma PagesHaveBuckets(log: seq<Stamped>, k: PageKey)
    ensures k in PagesIn(log) <==> exists m :: PageMinute(k, m) in BucketsIn(log)
  {
    if k in PagesIn(log) {
      var x :| x in log && PageOf(x.sample) == k;
      assert PageMinute(k, MinuteOf(x.now)) in BucketsIn(log);
    }
  }

  /** Minute m holds the seconds from 60 m on, mirrored below zero, where both halves of minute 0 meet. */
  lemma MinuteMeaning(now: int)
    ensures now >= 0 ==> 60 * MinuteOf(now) <= now < 60 * MinuteOf(now) + 60
    ensures now < 0 ==> 60 * MinuteOf(now) - 60 < now <= 60 * MinuteOf(now)
  {
  }

  // ---------------------------------------------------------------- totals

  function Everyone(log: seq<Stamped>): map<PageKey, Query> {
    map k | k in PagesIn(log) :: OfPage(k)
  }

  function RunningCounts(table: map<PageKey, Current>): map<PageKey, nat> {
    map k | k in table :: table[k].count
  }

  lemma {:induction false} SelectEverything(log: seq<Stamped>)
    ensures |Select(log, Everything)| == |log|
  {
    if log != [] {
      SelectEverything(log[..|log| - 1]);
    }
  }

  lemma EveryonePartition(log: seq<Stamped>)
    ensures Partitions(Everyone(log), Everything, log, PageOfStamped)
  {
  }

  /** The running counts of all pages add up to the number of samples folded, wrapped bins or not. */
  lemma RunningTotal(agg: Agg, log: seq<Stamped>)
    requires IsRebuildOf(agg, log)
    ensures SumAll(RunningCounts(agg.pageCurrent)) == |log|
  {
    AllAgree(agg, log);
    var parts := Everyone(log);
    EveryonePartition(log);
    PartsMakeWhole(log, parts, Everything, PageOfStamped);
    SelectEverything(log);
    SameMap(RunningCounts(agg.pageCurrent), PartSizes(log, parts));
  }

  // ---------------------------------------------------------------- site_minute from page_minute

  function SiteParts(log: seq<Stamped>, site: string, minute: int): map<PageMinute, Query> {
    map r | r in BucketsIn(log) && r.key.site == site && r.minute == minute :: OfBucket(r.key, r.minute)
  }

  /** The page histograms of one site and minute. */
  function SitePages(table: map<PageMinute, Bucket>, site: string, minute: int): map<PageMinute, Hist> {
    map r | r in table && r.key.site == site && r.minute == minute :: Stored(table[r].hist)
  }

  lemma SitePartition(log: seq<Stamped>, site: string, minute: int)
    ensures Partitions(SiteParts(log, site, minute), OfSite(site, minute), log, BucketKey)
  {
  }

  lemma SiteHists(log: seq<Stamped>, site: string, minute: int)
    ensures PartHists(log, SiteParts(log, site, minute)) == SitePages(PageMinuteOf(log), site, minute)
  {
    var parts := SiteParts(log, site, minute);
    forall r | r in parts
      ensures Stored(PageMinuteOf(log)[r].hist) == HistOf(Select(log, parts[r]))
    {
      StoredPageRow(log, r);
    }
    SameMap(PartHists(log, parts), SitePages(PageMinuteOf(log), site, minute));
  }

  /**
   * A site's bucket is the merge of its pages' buckets of that minute, nothing counted twice. Its count
   * is the sum of theirs exactly if, bin by bin, the stored page counters together stay below 2^32.
   */
  lemma SiteFromPages(agg: Agg, log: seq<Stamped>, site: string, minute: int)
    requires IsRebuildOf(agg, log)
    ensures var pages, r := SitePages(agg.pageMinute, site, minute), SiteMinute(site, minute);
            && (r in agg.siteMinute <==> pages != map[])
            && (r in agg.siteMinute ==>
              && Decoded(agg.siteMinute[r].hist) == Some(MergeAll(pages))
              && agg.siteMinute[r].p75 == P75(MergeAll(pages))
              && agg.siteMinute[r].count <= SumAll(Counted(pages))
              && (agg.siteMinute[r].count == SumAll(Counted(pages)) <==> AllBinsFit(pages)))
  {
    AllAgree(agg, log);
    var r := SiteMinute(site, minute);
    var ms := Select(log, OfSite(site, minute));
    SitePartition(log, site, minute);
    SiteHists(log, site, minute);
    PartsMakeWhole(log, SiteParts(log, site, minute), OfSite(site, minute), BucketKey);
    CountMergeAllIff(SitePages(agg.pageMinute, site, minute));
    DecodeAfterEncode(HistOf(ms));
    SiteRowsExist(log, site, minute);
  }

  lemma SiteRowsExist(log: seq<Stamped>, site: string, minute: int)
    ensures SiteMinute(site, minute) in SiteBucketsIn(log) <==> SitePages(PageMinuteOf(log), site, minute) != map[]
  {
    var pages := SitePages(PageMinuteOf(log), site, minute);
    if SiteMinute(site, minute) in SiteBucketsIn(log) {
      var x :| x in log && x.sample.site == site && MinuteOf(x.now) == minute;
      assert PageMinute(PageOf(x.sample), minute) in pages;
    }
    if pages != map[] {
      var r :| r in pages;
      var x :| x in log && PageMinute(PageOf(x.sample), MinuteOf(x.now)) == r;
    }
  }

  /** While no bin of the site's minute wraps around, its percentile lies between those of its pages. */
  lemma SiteP75Between(agg: Agg, log: seq<Stamped>, site: string, minute: int) returns (lo: PageMinute, hi: PageMinute)
    requires IsRebuildOf(agg, log) && SiteMinute(site, minute) in agg.siteMinute
    requires Fits(Select(log, OfSite(site, minute)))
    ensures lo in agg.pageMinute && lo.key.site == site && lo.minute == minute
    ensures hi in agg.pageMinute && hi.key.site == site && hi.minute == minute
    ensures agg.pageMinute[lo].p75 <= agg.siteMinute[SiteMinute(site, minute)].p75 <= agg.pageMinute[hi].p75
  {
    AllAgree(agg, log);
    SiteFromPages(agg, log, site, minute);
    SitePartition(log, site, minute);
    SiteHists(log, site, minute);
    lo, hi := PartsBetween(log, SiteParts(log, site, minute), OfSite(site, minute));
  }

  /** Likewise the running percentile lies between those of the page's buckets in its window. */
  lemma CurrentP75Between(agg: Agg, log: seq<Stamped>, k: PageKey, since: int)
      returns (lo: PageMinute, hi: PageMinute)
    requires IsRebuildOf(agg, log) && k in agg.pageCurrent
    requires since == MinuteOf(agg.pageCurrent[k].lastSeen) - TRAILING_MINUTES
    requires Fits(Select(log, OfWindow(k, since)))
    ensures lo in agg.pageMinute && lo.key == k && lo.minute > since
    ensures hi in agg.pageMinute && hi.key == k && hi.minute > since
    ensures agg.pageMinute[lo].p75 <= agg.pageCurrent[k].p75 <= agg.pageMinute[hi].p75
  {
    AllAgree(agg, log);
    CurrentRow(agg, log, k);
    WindowNotEmpty(log, k, since);
    lo, hi := WindowBetween(log, k, since);
  }

  lemma WindowBetween(log: seq<Stamped>, k: PageKey, since: int) returns (lo: PageMinute, hi: PageMinute)
    requires WindowParts(log, k, since) != map[] && Fits(Select(log, OfWindow(k, since)))
    ensures lo in BucketsIn(log) && lo.key == k && lo.minute > since
    ensures hi in BucketsIn(log) && hi.key == k && hi.minute > since
    ensures RowFor(log, OfBucket(lo.key, lo.minute)).p75 <= P75(HistOf(Select(log, OfWindow(k, since))))
    ensures P75(HistOf(Select(log, OfWindow(k, since)))) <= RowFor(log, OfBucket(hi.key, hi.minute)).p75
  {
    WindowPartition(log, k, since);
    PartsMakeWhole(log, WindowParts(log, k, since), OfWindow(k, since), BucketKey);
    lo, hi := PartsBetween(log, WindowParts(log, k, since), OfWindow(k, since));
  }

  lemma WindowNotEmpty(log: seq<Stamped>, k: PageKey, since: int)
    requires k in PagesIn(log) && since == MinuteOf(LastSeen(log, OfPage(k))) - TRAILING_MINUTES
    ensures WindowParts(log, k, since) != map[]
  {
    NotInPages(log, k);
    var i := LastSeenIsSeen(log, OfPage(k));
    assert log[i] in log;
    assert PageMinute(k, MinuteOf(log[i].now)) in WindowParts(log, k, since);
  }

  lemma PartsBetween(log: seq<Stamped>, parts: map<PageMinute, Query>, whole: Query)
      returns (lo: PageMinute, hi: PageMinute)
    requires Partitions(parts, whole, log, BucketKey) && Fits(Select(log, whole)) && parts != map[]
    requires forall r :: r in parts ==> parts[r] == OfBucket(r.key, r.minute) && r in BucketsIn(log)
    ensures lo in parts && hi in parts
    ensures P75(HistOf(Select(log, parts[lo]))) <= P75(MergeAll(PartHists(log, parts)))
    ensures P75(MergeAll(PartHists(log, parts))) <= P75(HistOf(Select(log, parts[hi])))
  {
    PartsFit(log, parts, whole, BucketKey);
    var hists := PartHists(log, parts);
    forall r | r in hists
      ensures CountOf(hists[r]) > 0
    {
      NotInBuckets(log, r.key, r.minute);
      assert Counted(hists)[r] == PartSizes(log, parts)[r];
    }
    var r :| r in parts;
    assert r in hists;
    lo, hi := MergeAllP75Between(hists);
  }
}
