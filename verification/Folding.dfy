/** Folding a batch into the tables of a log gives the tables of the longer log. */
module Folding {
  import opened Histogram
  import opened Percentile
  import opened MapFolds
  import opened Sequences
  import opened Aggregate
  import opened Rebuild

  // ---------------------------------------------------------------- rows

  lemma StoredEncoded(h: Hist)
    ensures Stored(Encoded(h)) == h
  {
    DecodeAfterEncode(h);
  }

  lemma NotInBuckets(log: seq<Stamped>, k: PageKey, m: int)
    ensures PageMinute(k, m) in BucketsIn(log) <==> Select(log, OfBucket(k, m)) != []
  {
    SelectEmptyIff(log, OfBucket(k, m));
  }

  lemma NotInSiteBuckets(log: seq<Stamped>, s: string, m: int)
    ensures SiteMinute(s, m) in SiteBucketsIn(log) <==> Select(log, OfSite(s, m)) != []
  {
    SelectEmptyIff(log, OfSite(s, m));
  }

  lemma NotInPages(log: seq<Stamped>, k: PageKey)
    ensures k in PagesIn(log) <==> Select(log, OfPage(k)) != []
  {
    SelectEmptyIff(log, OfPage(k));
  }

  lemma StoredPageRow(log: seq<Stamped>, r: PageMinute)
    ensures StoredIn(PageMinuteOf(log), r) == HistOf(Select(log, OfBucket(r.key, r.minute)))
  {
    NotInBuckets(log, r.key, r.minute);
    StoredEncoded(HistOf(Select(log, OfBucket(r.key, r.minute))));
  }

  lemma StoredSiteRow(log: seq<Stamped>, r: SiteMinute)
    ensures StoredIn(SiteMinuteOf(log), r) == HistOf(Select(log, OfSite(r.site, r.minute)))
  {
    NotInSiteBuckets(log, r.site, r.minute);
    StoredEncoded(HistOf(Select(log, OfSite(r.site, r.minute))));
  }

  /** A row after its group grew by the batch's share of it. */
  lemma RowExtends(log: seq<Stamped>, samples: seq<Sample>, now: int, q: Query)
    ensures var batch := Stamp(samples, now);
            RowFor(log + batch, q) ==
            if Select(batch, q) == [] then RowFor(log, q)
            else Extended(Select(batch, q), HistOf(Select(log, q)), now)
  {
    var batch := Stamp(samples, now);
    SelectAppend(log, batch, q);
    LastSeenAppend(log, batch, q);
    StampedMatch(samples, now, q);
    if Select(batch, q) == [] {
      assert Select(log, q) + [] == Select(log, q);
    } else {
      HistOfAppend(Select(log, q), Select(batch, q));
      MergedLaws(HistOf(Select(log, q)), HistOf(Select(batch, q)), Empty());
    }
  }

  /** What a batch contributes to a bucket: its samples of that page, in its own minute only. */
  lemma BatchShare(samples: seq<Sample>, now: int, k: PageKey, m: int)
    ensures Select(Stamp(samples, now), OfBucket(k, m)) == if m == MinuteOf(now) then OnPage(samples, k) else []
  {
    SelectStamped(samples, now, k, k.site);
    if m != MinuteOf(now) {
      StampedMatch(samples, now, OfBucket(k, m));
      SelectEmptyIff(Stamp(samples, now), OfBucket(k, m));
    }
  }

  lemma SiteShare(samples: seq<Sample>, now: int, s: string, m: int)
    ensures Select(Stamp(samples, now), OfSite(s, m)) == if m == MinuteOf(now) then OnSite(samples, s) else []
  {
    SelectStamped(samples, now, PageKey(s, s), s);
    if m != MinuteOf(now) {
      StampedMatch(samples, now, OfSite(s, m));
      SelectEmptyIff(Stamp(samples, now), OfSite(s, m));
    }
  }

  // ---------------------------------------------------------------- page_minute and site_minute

  lemma KeysAppend(a: seq<Stamped>, b: seq<Stamped>)
    ensures BucketsIn(a + b) == BucketsIn(a) + BucketsIn(b)
    ensures SiteBucketsIn(a + b) == SiteBucketsIn(a) + SiteBucketsIn(b)
    ensures PagesIn(a + b) == PagesIn(a) + PagesIn(b)
  {
    assert forall x :: x in a + b <==> x in a || x in b;
  }

  lemma FoldPagesExtends(log: seq<Stamped>, samples: seq<Sample>, now: int)
    ensures FoldPages(PageMinuteOf(log), samples, now, Pages(samples)) == PageMinuteOf(log + Stamp(samples, now))
  {
    var batch := Stamp(samples, now);
    var folded, rebuilt := FoldPages(PageMinuteOf(log), samples, now, Pages(samples)), PageMinuteOf(log + batch);
    KeysAppend(log, batch);
    StampPages(samples, now);
    forall r | r in rebuilt
      ensures folded[r] == rebuilt[r]
    {
      PageRowExtends(log, samples, now, r);
    }
    SameMap(folded, rebuilt);
  }

  lemma PageRowExtends(log: seq<Stamped>, samples: seq<Sample>, now: int, r: PageMinute)
    ensures RowFor(log + Stamp(samples, now), OfBucket(r.key, r.minute)) ==
            if r.minute == MinuteOf(now) && r.key in Pages(samples)
            then Extended(OnPage(samples, r.key), StoredIn(PageMinuteOf(log), r), now)
            else RowFor(log, OfBucket(r.key, r.minute))
  {
    StampPages(samples, now);
    RowExtends(log, samples, now, OfBucket(r.key, r.minute));
    BatchShare(samples, now, r.key, r.minute);
    StoredPageRow(log, r);
  }

  lemma FoldSitesExtends(log: seq<Stamped>, samples: seq<Sample>, now: int)
    ensures FoldSites(SiteMinuteOf(log), samples, now, Sites(samples)) == SiteMinuteOf(log + Stamp(samples, now))
  {
    var batch := Stamp(samples, now);
    var folded, rebuilt := FoldSites(SiteMinuteOf(log), samples, now, Sites(samples)), SiteMinuteOf(log + batch);
    KeysAppend(log, batch);
    StampPages(samples, now);
    forall r | r in rebuilt
      ensures folded[r] == rebuilt[r]
    {
      SiteRowExtends(log, samples, now, r);
    }
    SameMap(folded, rebuilt);
  }

  lemma SiteRowExtends(log: seq<Stamped>, samples: seq<Sample>, now: int, r: SiteMinute)
    ensures RowFor(log + Stamp(samples, now), OfSite(r.site, r.minute)) ==
            if r.minute == MinuteOf(now) && r.site in Sites(samples)
            then Extended(OnSite(samples, r.site), StoredIn(SiteMinuteOf(log), r), now)
            else RowFor(log, OfSite(r.site, r.minute))
  {
    StampPages(samples, now);
    RowExtends(log, samples, now, OfSite(r.site, r.minute));
    SiteShare(samples, now, r.site, r.minute);
    StoredSiteRow(log, r);
  }

  // ---------------------------------------------------------------- page_current

  function WindowParts(log: seq<Stamped>, k: PageKey, since: int): map<PageMinute, Query> {
    map r | r in BucketsIn(log) && r.key == k && r.minute > since :: OfBucket(r.key, r.minute)
  }

  lemma WindowPartition(log: seq<Stamped>, k: PageKey, since: int)
    ensures Partitions(WindowParts(log, k, since), OfWindow(k, since), log, BucketKey)
  {
  }

  lemma WindowHists(log: seq<Stamped>, k: PageKey, since: int)
    ensures PartHists(log, WindowParts(log, k, since)) == Window(PageMinuteOf(log), k, since)
  {
    var parts := WindowParts(log, k, since);
    forall r | r in parts
      ensures Stored(PageMinuteOf(log)[r].hist) == HistOf(Select(log, parts[r]))
    {
      StoredPageRow(log, r);
    }
    SameMap(PartHists(log, parts), Window(PageMinuteOf(log), k, since));
  }

  /** Merging a page's buckets in the window gives the histogram of its samples in the window. */
  lemma TrailingIsWindow(log: seq<Stamped>, k: PageKey, since: int)
    ensures Trailing(PageMinuteOf(log), k, since) == HistOf(Select(log, OfWindow(k, since)))
  {
    WindowPartition(log, k, since);
    WindowHists(log, k, since);
    PartsMakeWhole(log, WindowParts(log, k, since), OfWindow(k, since), BucketKey);
  }

  lemma PageGrows(log: seq<Stamped>, samples: seq<Sample>, now: int, k: PageKey)
    requires k in Pages(samples)
    ensures |Select(log + Stamp(samples, now), OfPage(k))| == |Select(log, OfPage(k))| + |OnPage(samples, k)|
    ensures LastSeen(log + Stamp(samples, now), OfPage(k)) == now
  {
    var batch := Stamp(samples, now);
    SelectStamped(samples, now, k, k.site);
    StampPages(samples, now);
    StampedMatch(samples, now, OfPage(k));
    SelectAppend(log, batch, OfPage(k));
    LastSeenAppend(log, batch, OfPage(k));
  }

  lemma CurrentTouched(log: seq<Stamped>, log': seq<Stamped>, samples: seq<Sample>, now: int, k: PageKey)
    requires k in Pages(samples) && log' == log + Stamp(samples, now)
    ensures CurrentFor(log', k) == Current(|Select(log, OfPage(k))| + |OnPage(samples, k)|,
              P75(Trailing(PageMinuteOf(log'), k, MinuteOf(now) - TRAILING_MINUTES)), now)
  {
    PageGrows(log, samples, now, k);
    TrailingIsWindow(log', k, MinuteOf(now) - TRAILING_MINUTES);
  }

  lemma CurrentUntouched(log: seq<Stamped>, samples: seq<Sample>, now: int, k: PageKey)
    requires k !in Pages(samples)
    ensures CurrentFor(log + Stamp(samples, now), k) == CurrentFor(log, k)
  {
    var batch := Stamp(samples, now);
    StampPages(samples, now);
    NotInPages(batch, k);
    var since := MinuteOf(LastSeen(log, OfPage(k))) - TRAILING_MINUTES;
    SelectEmptyIff(batch, OfPage(k));
    SelectEmptyIff(batch, OfWindow(k, since));
    SelectAppend(log, batch, OfPage(k));
    LastSeenAppend(log, batch, OfPage(k));
    SelectAppend(log, batch, OfWindow(k, since));
    assert Select(log, OfPage(k)) + [] == Select(log, OfPage(k));
    assert Select(log, OfWindow(k, since)) + [] == Select(log, OfWindow(k, since));
  }

  lemma FoldedKeys(log: seq<Stamped>, log': seq<Stamped>, samples: seq<Sample>, now: int)
    requires log' == log + Stamp(samples, now)
    ensures PagesIn(log') == PagesIn(log) + Pages(samples)
  {
    KeysAppend(log, Stamp(samples, now));
    StampPages(samples, now);
  }

  lemma FoldedRow(current: map<PageKey, Current>, buckets: map<PageMinute, Bucket>, samples: seq<Sample>, now: int,
                  k: PageKey)
    requires k in current || k in Pages(samples)
    ensures var after := FoldCurrent(current, buckets, samples, now, Pages(samples));
            k in after && (k !in Pages(samples) ==> after[k] == current[k])
  {
  }

  lemma CurrentRowExtends(log: seq<Stamped>, log': seq<Stamped>, samples: seq<Sample>, now: int, k: PageKey)
    requires log' == log + Stamp(samples, now) && k in PagesIn(log')
    ensures var after := FoldCurrent(PageCurrentOf(log), PageMinuteOf(log'), samples, now, Pages(samples));
            k in after && after[k] == CurrentFor(log', k)
  {
    FoldedKeys(log, log', samples, now);
    FoldedRow(PageCurrentOf(log), PageMinuteOf(log'), samples, now, k);
    if k in Pages(samples) {
      CurrentTouched(log, log', samples, now, k);
      NotInPages(log, k);
    } else {
      CurrentUntouched(log, samples, now, k);
    }
  }

  lemma CurrentRowsExtend(log: seq<Stamped>, log': seq<Stamped>, samples: seq<Sample>, now: int,
                          folded: map<PageKey, Current>, rebuilt: map<PageKey, Current>)
    requires log' == log + Stamp(samples, now) && rebuilt == PageCurrentOf(log') && folded.Keys == rebuilt.Keys
    requires folded == FoldCurrent(PageCurrentOf(log), PageMinuteOf(log'), samples, now, Pages(samples))
    ensures forall k :: k in folded ==> folded[k] == rebuilt[k]
  {
    forall k | k in folded
      ensures folded[k] == rebuilt[k]
    {
      CurrentRowExtends(log, log', samples, now, k);
    }
  }

  lemma CurrentKeysExtend(log: seq<Stamped>, log': seq<Stamped>, samples: seq<Sample>, now: int)
    requires log' == log + Stamp(samples, now)
    ensures FoldCurrent(PageCurrentOf(log), PageMinuteOf(log'), samples, now, Pages(samples)).Keys
            == PageCurrentOf(log').Keys
  {
    FoldedKeys(log, log', samples, now);
  }

  lemma FoldCurrentExtends(log: seq<Stamped>, samples: seq<Sample>, now: int)
    ensures var log' := log + Stamp(samples, now);
            FoldCurrent(PageCurrentOf(log), PageMinuteOf(log'), samples, now, Pages(samples)) == PageCurrentOf(log')
  {
    var log' := log + Stamp(samples, now);
    var folded := FoldCurrent(PageCurrentOf(log), PageMinuteOf(log'), samples, now, Pages(samples));
    CurrentKeysExtend(log, log', samples, now);
    CurrentRowsExtend(log, log', samples, now, folded, PageCurrentOf(log'));
    SameMap(folded, PageCurrentOf(log'));
  }

  // ---------------------------------------------------------------- the transaction

  /** On tables that agree with a log, Apply always reads its blobs, and its result agrees with the longer log. */
  lemma ApplyExtendsLog(agg: Agg, log: seq<Stamped>, batch: int, samples: seq<Sample>, now: int)
    requires IsRebuildOf(agg, log)
    ensures Readable(agg, samples, now)
    ensures batch !in agg.applied ==> ApplyTx(agg, batch, samples, now).Success?
    ensures IsRebuildOf(FoldBatch(agg, batch, samples, now), log + Stamp(samples, now))
    ensures FoldBatch(agg, batch, samples, now).applied == Mark(agg.applied, batch, now)
  {
    AllAgree(agg, log);
    FoldPagesExtends(log, samples, now);
    FoldSitesExtends(log, samples, now);
    FoldCurrentExtends(log, samples, now);
  }

  // ---------------------------------------------------------------- order of samples

  lemma {:induction false} OnPagePermutation(a: seq<Sample>, b: seq<Sample>, k: PageKey)
    requires Permutation(a, b)
    ensures Permutation(OnPage(a, k), OnPage(b, k))
  {
    if a == [] {
      PermutationLength(a, b);
    } else {
      var i := LastIn(a, b);
      SplitAt(b, i);
      OnPagePermutation(a[..|a| - 1], WithoutAt(b, i), k);
      OnPageMiddle(b, b[..i], b[i], b[i + 1..], k);
    }
  }

  lemma {:induction false} OnPageAppend(a: seq<Sample>, b: seq<Sample>, k: PageKey)
    ensures OnPage(a + b, k) == OnPage(a, k) + OnPage(b, k)
  {
    if b == [] {
      assert a + b == a;
    } else {
      assert (a + b)[..|a + b| - 1] == a + b[..|b| - 1];
      OnPageAppend(a, b[..|b| - 1], k);
    }
  }

  lemma OnPageMiddle(all: seq<Sample>, x: seq<Sample>, v: Sample, y: seq<Sample>, k: PageKey)
    requires all == x + [v] + y
    ensures multiset(OnPage(all, k)) ==
            multiset(OnPage(x + y, k)) + multiset(if PageOf(v) == k then [v.ms] else [])
  {
    OnPageAppend(x + [v], y, k);
    OnPageAppend(x, [v], k);
    OnPageAppend(x, y, k);
    assert [v][..0] == [];
    assert OnPage([v], k) == if PageOf(v) == k then [v.ms] else [];
  }

  lemma {:induction false} OnSitePermutation(a: seq<Sample>, b: seq<Sample>, s: string)
    requires Permutation(a, b)
    ensures Permutation(OnSite(a, s), OnSite(b, s))
  {
    if a == [] {
      PermutationLength(a, b);
    } else {
      var i := LastIn(a, b);
      SplitAt(b, i);
      OnSitePermutation(a[..|a| - 1], WithoutAt(b, i), s);
      OnSiteMiddle(b, b[..i], b[i], b[i + 1..], s);
    }
  }

  lemma {:induction false} OnSiteAppend(a: seq<Sample>, b: seq<Sample>, s: string)
    ensures OnSite(a + b, s) == OnSite(a, s) + OnSite(b, s)
  {
    if b == [] {
      assert a + b == a;
    } else {
      assert (a + b)[..|a + b| - 1] == a + b[..|b| - 1];
      OnSiteAppend(a, b[..|b| - 1], s);
    }
  }

  lemma OnSiteMiddle(all: seq<Sample>, x: seq<Sample>, v: Sample, y: seq<Sample>, s: string)
    requires all == x + [v] + y
    ensures multiset(OnSite(all, s)) == multiset(OnSite(x + y, s)) + multiset(if v.site == s then [v.ms] else [])
  {
    OnSiteAppend(x + [v], y, s);
    OnSiteAppend(x, [v], s);
    OnSiteAppend(x, y, s);
    assert [v][..0] == [];
    assert OnSite([v], s) == if v.site == s then [v.ms] else [];
  }

  lemma SameShares(a: seq<Sample>, b: seq<Sample>, k: PageKey, s: string)
    requires Permutation(a, b)
    ensures HistOf(OnPage(a, k)) == HistOf(OnPage(b, k)) && |OnPage(a, k)| == |OnPage(b, k)|
    ensures HistOf(OnSite(a, s)) == HistOf(OnSite(b, s))
  {
    OnPagePermutation(a, b, k);
    HistOfPermutation(OnPage(a, k), OnPage(b, k));
    PermutationLength(OnPage(a, k), OnPage(b, k));
    OnSitePermutation(a, b, s);
    HistOfPermutation(OnSite(a, s), OnSite(b, s));
  }

  lemma SameKeys(a: seq<Sample>, b: seq<Sample>)
    requires Permutation(a, b)
    ensures Pages(a) == Pages(b) && Sites(a) == Sites(b)
  {
    assert forall x :: x in a <==> x in multiset(a);
    assert forall x :: x in b <==> x in multiset(b);
  }

  lemma FoldBucketsOrder(agg: Agg, a: seq<Sample>, b: seq<Sample>, now: int)
    requires Permutation(a, b)
    ensures FoldPages(agg.pageMinute, a, now, Pages(a)) == FoldPages(agg.pageMinute, b, now, Pages(b))
    ensures FoldSites(agg.siteMinute, a, now, Sites(a)) == FoldSites(agg.siteMinute, b, now, Sites(b))
  {
    SameKeys(a, b);
    var p, q := FoldPages(agg.pageMinute, a, now, Pages(a)), FoldPages(agg.pageMinute, b, now, Pages(b));
    forall r | r in p
      ensures p[r] == q[r]
    {
      SameShares(a, b, r.key, r.key.site);
    }
    SameMap(p, q);
    var s, t := FoldSites(agg.siteMinute, a, now, Sites(a)), FoldSites(agg.siteMinute, b, now, Sites(b));
    forall r | r in s
      ensures s[r] == t[r]
    {
      SameShares(a, b, PageKey(r.site, r.site), r.site);
    }
    SameMap(s, t);
  }

  lemma FoldCurrentOrder(agg: Agg, buckets: map<PageMinute, Bucket>, a: seq<Sample>, b: seq<Sample>, now: int)
    requires Permutation(a, b)
    ensures FoldCurrent(agg.pageCurrent, buckets, a, now, Pages(a)) ==
            FoldCurrent(agg.pageCurrent, buckets, b, now, Pages(b))
  {
    SameKeys(a, b);
    var p := FoldCurrent(agg.pageCurrent, buckets, a, now, Pages(a));
    var q := FoldCurrent(agg.pageCurrent, buckets, b, now, Pages(b));
    forall k | k in p
      ensures p[k] == q[k]
    {
      SameShares(a, b, k, k.site);
    }
    SameMap(p, q);
  }

  /** Apply does not depend on the order in which the batch's samples arrive. */
  lemma ApplyOrderIrrelevant(agg: Agg, batch: int, a: seq<Sample>, b: seq<Sample>, now: int)
    requires Permutation(a, b)
    ensures ApplyTx(agg, batch, a, now) == ApplyTx(agg, batch, b, now)
  {
    SameKeys(a, b);
    FoldBucketsOrder(agg, a, b, now);
    FoldCurrentOrder(agg, FoldPages(agg.pageMinute, a, now, Pages(a)), a, b, now);
  }
}
