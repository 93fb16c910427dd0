/**
 * The aggregate tables as a function of the log of folded samples, written without regard to
 * batches, and the proof that folding a batch extends exactly that log.
 */
module Rebuild {
  import opened Histogram
  import opened Percentile
  import opened MapFolds
  import opened Aggregate
  import opened Sequences

  /** A sample with the arrival time its batch was folded under. */
  datatype Stamped = Stamped(sample: Sample, now: int)

  /** The groups of samples that table rows stand for. */
  datatype Query =
    | Everything
    | OfPage(key: PageKey)
    | OfBucket(key: PageKey, minute: int)
    | OfWindow(key: PageKey, since: int)
    | OfSite(site: string, minute: int)

  predicate Matches(x: Stamped, q: Query) {
    match q
    case Everything => true
    case OfPage(k) => PageOf(x.sample) == k
    case OfBucket(k, m) => PageOf(x.sample) == k && MinuteOf(x.now) == m
    case OfWindow(k, since) => PageOf(x.sample) == k && MinuteOf(x.now) > since
    case OfSite(s, m) => x.sample.site == s && MinuteOf(x.now) == m
  }

  /** The millisecond values of a group, in log order. */
  function Select(log: seq<Stamped>, q: Query): seq<int> {
    if log == [] then []
    else
      var x := log[|log| - 1];
      Select(log[..|log| - 1], q) + (if Matches(x, q) then [x.sample.ms] else [])
  }

  /** The arrival time of the group's last sample. */
  function LastSeen(log: seq<Stamped>, q: Query): int {
    if log == [] then 0
    else if Matches(log[|log| - 1], q) then log[|log| - 1].now
    else LastSeen(log[..|log| - 1], q)
  }

  function Stamp(samples: seq<Sample>, now: int): seq<Stamped> {
    seq(|samples|, i requires 0 <= i < |samples| => Stamped(samples[i], now))
  }

  // ---------------------------------------------------------------- the tables of a log

  function BucketsIn(log: seq<Stamped>): set<PageMinute> {
    set x | x in log :: PageMinute(PageOf(x.sample), MinuteOf(x.now))
  }

  function SiteBucketsIn(log: seq<Stamped>): set<SiteMinute> {
    set x | x in log :: SiteMinute(x.sample.site, MinuteOf(x.now))
  }

  function PagesIn(log: seq<Stamped>): set<PageKey> {
    set x | x in log :: PageOf(x.sample)
  }

  function RowFor(log: seq<Stamped>, q: Query): Bucket {
    BucketOf(HistOf(Select(log, q)), LastSeen(log, q))
  }

  function PageMinuteOf(log: seq<Stamped>): map<PageMinute, Bucket> {
    map r | r in BucketsIn(log) :: RowFor(log, OfBucket(r.key, r.minute))
  }

  function SiteMinuteOf(log: seq<Stamped>): map<SiteMinute, Bucket> {
    map r | r in SiteBucketsIn(log) :: RowFor(log, OfSite(r.site, r.minute))
  }

  /** A page's samples in the trailing window that ends at arrival time `seen`. */
  function WindowHist(log: seq<Stamped>, k: PageKey, seen: int): Hist {
    HistOf(Select(log, OfWindow(k, MinuteOf(seen) - TRAILING_MINUTES)))
  }

  function CurrentFor(log: seq<Stamped>, k: PageKey): Current {
    var seen := LastSeen(log, OfPage(k));
    Current(|Select(log, OfPage(k))|, P75(WindowHist(log, k, seen)), seen)
  }

  function PageCurrentOf(log: seq<Stamped>): map<PageKey, Current> {
    map k | k in PagesIn(log) :: CurrentFor(log, k)
  }

  datatype Table = PageMinutes | PageCurrents | SiteMinutes

  predicate Agrees(agg: Agg, log: seq<Stamped>, table: Table) {
    match table
    case PageMinutes => agg.pageMinute == PageMinuteOf(log)
    case PageCurrents => agg.pageCurrent == PageCurrentOf(log)
    case SiteMinutes => agg.siteMinute == SiteMinuteOf(log)
  }

  /** The tables hold exactly what the log says; the markers are not derived from the log. */
  ghost predicate IsRebuildOf(agg: Agg, log: seq<Stamped>) {
    forall table :: Agrees(agg, log, table)
  }

  lemma AllAgree(agg: Agg, log: seq<Stamped>)
    requires IsRebuildOf(agg, log)
    ensures agg.pageMinute == PageMinuteOf(log)
    ensures agg.pageCurrent == PageCurrentOf(log)
    ensures agg.siteMinute == SiteMinuteOf(log)
  {
    assert Agrees(agg, log, PageMinutes) && Agrees(agg, log, PageCurrents) && Agrees(agg, log, SiteMinutes);
  }

  // ---------------------------------------------------------------- selecting

  lemma {:induction false} SelectAppend(a: seq<Stamped>, b: seq<Stamped>, q: Query)
    ensures Select(a + b, q) == Select(a, q) + Select(b, q)
  {
    if b == [] {
      assert a + b == a;
    } else {
      assert (a + b)[..|a + b| - 1] == a + b[..|b| - 1];
      SelectAppend(a, b[..|b| - 1], q);
    }
  }

  lemma {:induction false} LastSeenAppend(a: seq<Stamped>, b: seq<Stamped>, q: Query)
    ensures LastSeen(a + b, q) == if Select(b, q) == [] then LastSeen(a, q) else LastSeen(b, q)
  {
    if b == [] {
      assert a + b == a;
    } else {
      assert (a + b)[..|a + b| - 1] == a + b[..|b| - 1];
      LastSeenAppend(a, b[..|b| - 1], q);
    }
  }

  lemma {:induction false} SelectEmptyIff(log: seq<Stamped>, q: Query)
    ensures Select(log, q) == [] <==> forall x :: x in log ==> !Matches(x, q)
  {
    if log != [] {
      var init, x := log[..|log| - 1], log[|log| - 1];
      SelectEmptyIff(init, q);
      assert forall y :: y in log <==> y in init || y == x;
    }
  }

  lemma {:induction false} LastSeenIsSeen(log: seq<Stamped>, q: Query) returns (i: nat)
    requires Select(log, q) != []
    ensures i < |log| && Matches(log[i], q) && log[i].now == LastSeen(log, q)
    ensures forall j :: i < j < |log| ==> !Matches(log[j], q)
  {
    if Matches(log[|log| - 1], q) {
      i := |log| - 1;
    } else {
      i := LastSeenIsSeen(log[..|log| - 1], q);
    }
  }

  lemma {:induction false} SelectStamped(samples: seq<Sample>, now: int, k: PageKey, site: string)
    ensures Select(Stamp(samples, now), OfPage(k)) == OnPage(samples, k)
    ensures Select(Stamp(samples, now), OfBucket(k, MinuteOf(now))) == OnPage(samples, k)
    ensures Select(Stamp(samples, now), OfSite(site, MinuteOf(now))) == OnSite(samples, site)
  {
    if samples != [] {
      var init := samples[..|samples| - 1];
      SelectStamped(init, now, k, site);
      assert Stamp(samples, now)[..|samples| - 1] == Stamp(init, now);
    }
  }

  lemma StampedMatch(samples: seq<Sample>, now: int, q: Query)
    ensures forall x :: x in Stamp(samples, now) ==> x.now == now && x.sample in samples
    ensures Select(Stamp(samples, now), q) != [] ==> LastSeen(Stamp(samples, now), q) == now
  {
    if Select(Stamp(samples, now), q) != [] {
      var i := LastSeenIsSeen(Stamp(samples, now), q);
    }
  }

  lemma StampPages(samples: seq<Sample>, now: int)
    ensures PagesIn(Stamp(samples, now)) == Pages(samples)
    ensures forall k :: k in Pages(samples) <==> OnPage(samples, k) != []
    ensures forall s :: s in Sites(samples) <==> OnSite(samples, s) != []
    ensures BucketsIn(Stamp(samples, now)) == set k | k in Pages(samples) :: PageMinute(k, MinuteOf(now))
    ensures SiteBucketsIn(Stamp(samples, now)) == set s | s in Sites(samples) :: SiteMinute(s, MinuteOf(now))
  {
    var log := Stamp(samples, now);
    assert forall x :: x in samples ==> Stamped(x, now) in log by {
      forall x | x in samples
        ensures Stamped(x, now) in log
      {
        var i :| 0 <= i < |samples| && samples[i] == x;
        assert log[i] == Stamped(x, now);
      }
    }
    assert forall x :: x in log ==> x.now == now && x.sample in samples;
    forall k: PageKey
      ensures k in Pages(samples) <==> OnPage(samples, k) != []
    {
      SelectStamped(samples, now, k, k.site);
      SelectEmptyIff(log, OfPage(k));
    }
    forall s: string
      ensures s in Sites(samples) <==> OnSite(samples, s) != []
    {
      SelectStamped(samples, now, PageKey(s, s), s);
      SelectEmptyIff(log, OfSite(s, MinuteOf(now)));
    }
  }

  // ---------------------------------------------------------------- partitions

  /** `key` names the one part that each sample of the whole falls into; the parts hold nothing else. */
  ghost predicate Partitions<K>(parts: map<K, Query>, whole: Query, log: seq<Stamped>, key: Stamped -> K) {
    && (forall x :: x in log && Matches(x, whole) ==> key(x) in parts)
    && (forall x, k | x in log && k in parts :: Matches(x, parts[k]) <==> Matches(x, whole) && k == key(x))
  }

  function BucketKey(x: Stamped): PageMinute {
    PageMinute(PageOf(x.sample), MinuteOf(x.now))
  }

  function PageOfStamped(x: Stamped): PageKey {
    PageOf(x.sample)
  }

  function PartHists<K>(log: seq<Stamped>, parts: map<K, Query>): map<K, Hist> {
    map k | k in parts :: HistOf(Select(log, parts[k]))
  }

  function PartSizes<K>(log: seq<Stamped>, parts: map<K, Query>): map<K, nat> {
    map k | k in parts :: |Select(log, parts[k])|
  }

  lemma {:induction false} MergeAllEmpties<K>(m: map<K, Hist>, n: map<K, nat>)
    requires forall k :: k in m ==> m[k] == Empty()
    requires forall k :: k in n ==> n[k] == 0
    ensures MergeAll(m) == Empty() && SumAll(n) == 0
    decreases |m| + |n|
  {
    if m != map[] {
      var k :| k in m;
      MergeAllEmpties(m - {k}, n);
      MergeAllWith(m, k);
      MergedLaws(Empty(), Empty(), Empty());
    } else if n != map[] {
      var k :| k in n;
      MergeAllEmpties(m, n - {k});
      SumAllWith(n, k);
    }
  }

  lemma SelectSnoc(init: seq<Stamped>, x: Stamped, q: Query)
    ensures Select(init + [x], q) == if Matches(x, q) then Select(init, q) + [x.sample.ms] else Select(init, q)
  {
    assert (init + [x])[..|init + [x]| - 1] == init;
  }

  lemma GroupSnoc(log: seq<Stamped>, init: seq<Stamped>, x: Stamped, q: Query)
    requires log == init + [x]
    ensures var h := HistOf(Select(init, q));
            HistOf(Select(log, q)) == if Matches(x, q) then Bump(h, BinFor(x.sample.ms)) else h
    ensures |Select(log, q)| == |Select(init, q)| + if Matches(x, q) then 1 else 0
  {
    SelectSnoc(init, x, q);
    HistOfSnoc(Select(init, q), x.sample.ms);
  }

  lemma PartStep<K>(log: seq<Stamped>, init: seq<Stamped>, x: Stamped, parts: map<K, Query>, k: K)
    requires log == init + [x]
    requires k in parts && Matches(x, parts[k])
    requires forall j :: j in parts && j != k ==> !Matches(x, parts[j])
    ensures MergeAll(PartHists(log, parts)) == Bump(MergeAll(PartHists(init, parts)), BinFor(x.sample.ms))
    ensures SumAll(PartSizes(log, parts)) == SumAll(PartSizes(init, parts)) + 1
  {
    var bin := BinFor(x.sample.ms);
    var h, n := PartHists(init, parts), PartSizes(init, parts);
    forall j | j in parts
      ensures PartHists(log, parts)[j] == if j == k then Bump(h[j], bin) else h[j]
      ensures PartSizes(log, parts)[j] == if j == k then n[j] + 1 else n[j]
    {
      GroupSnoc(log, init, x, parts[j]);
    }
    MergeAllBump(h, PartHists(log, parts), k, bin);
    SumAllBump(n, PartSizes(log, parts), k);
  }

  lemma PartSkip<K>(log: seq<Stamped>, init: seq<Stamped>, x: Stamped, parts: map<K, Query>)
    requires log == init + [x]
    requires forall j :: j in parts ==> !Matches(x, parts[j])
    ensures PartHists(log, parts) == PartHists(init, parts)
    ensures PartSizes(log, parts) == PartSizes(init, parts)
  {
    forall j | j in parts
      ensures Select(log, parts[j]) == Select(init, parts[j])
    {
      SelectSnoc(init, x, parts[j]);
    }
  }

  /** Merging the histograms of the parts gives the histogram of the whole, and sizes add up. */
  lemma {:induction false} PartsMakeWhole<K>(log: seq<Stamped>, parts: map<K, Query>, whole: Query, key: Stamped -> K)
    requires Partitions(parts, whole, log, key)
    ensures MergeAll(PartHists(log, parts)) == HistOf(Select(log, whole))
    ensures SumAll(PartSizes(log, parts)) == |Select(log, whole)|
  {
    if log == [] {
      MergeAllEmpties(PartHists(log, parts), PartSizes(log, parts));
    } else {
      SplitLast(log);
      PartitionsShrink(parts, whole, log, log[..|log| - 1], key);
      PartsMakeWhole(log[..|log| - 1], parts, whole, key);
      WholeStep(log, log[..|log| - 1], log[|log| - 1], parts, whole, key);
    }
  }

  lemma PartitionsShrink<K>(parts: map<K, Query>, whole: Query, log: seq<Stamped>, init: seq<Stamped>,
                            key: Stamped -> K)
    requires Partitions(parts, whole, log, key) && init <= log
    ensures Partitions(parts, whole, init, key)
  {
    assert forall y :: y in init ==> y in log;
  }

  lemma WholeStep<K>(log: seq<Stamped>, init: seq<Stamped>, x: Stamped, parts: map<K, Query>, whole: Query,
                     key: Stamped -> K)
    requires log == init + [x] && Partitions(parts, whole, log, key)
    requires MergeAll(PartHists(init, parts)) == HistOf(Select(init, whole))
    requires SumAll(PartSizes(init, parts)) == |Select(init, whole)|
    ensures MergeAll(PartHists(log, parts)) == HistOf(Select(log, whole))
    ensures SumAll(PartSizes(log, parts)) == |Select(log, whole)|
  {
    OnePart(log, x, parts, whole, key);
    GroupSnoc(log, init, x, whole);
    if Matches(x, whole) {
      PartStep(log, init, x, parts, key(x));
    } else {
      PartSkip(log, init, x, parts);
    }
  }

  lemma OnePart<K>(log: seq<Stamped>, x: Stamped, parts: map<K, Query>, whole: Query, key: Stamped -> K)
    requires Partitions(parts, whole, log, key) && x in log
    ensures Matches(x, whole) ==> key(x) in parts && Matches(x, parts[key(x)])
    ensures forall j :: j in parts && (Matches(x, whole) ==> j != key(x)) ==> !Matches(x, parts[j])
  {
  }
}
