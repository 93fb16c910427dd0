/**
 * What the stored figures say about the accepted events themselves: which events are behind a row,
 * how their LCP values were read, and what its count, its percentile and its time are of those values.
 */
module Meaning {
  import opened Powers
  import opened Sequences
  import opened Histogram
  import opened HistogramTheory
  import opened Percentile
  import opened Aggregate
  import opened Rebuild
  import opened Folding
  import opened Tables
  import opened Protocol
  import opened Invariant
  import Theorems

  // ---------------------------------------------------------------- the events behind a row

  /** Events of one page; of one page and minute; of one page after a minute; of one site and minute. */
  predicate OnThePage(f: Fold, site: string, page: string) {
    f.event.siteId == site && f.event.pageUrl == page
  }

  predicate InTheBucket(f: Fold, site: string, page: string, minute: int) {
    f.event.siteId == site && f.event.pageUrl == page && MinuteOf(f.now) == minute
  }

  predicate InTheWindow(f: Fold, site: string, page: string, seen: int) {
    f.event.siteId == site && f.event.pageUrl == page && MinuteOf(f.now) > MinuteOf(seen) - 60
  }

  predicate OnTheSite(f: Fold, site: string, minute: int) {
    f.event.siteId == site && MinuteOf(f.now) == minute
  }

  /** `values` are the LCP values of the events at these positions, to the nearest millisecond. */
  ghost predicate Rounded(log: seq<Fold>, idx: seq<nat>, values: seq<int>) {
    |idx| == |values|
    && forall j :: 0 <= j < |idx| ==> idx[j] < |log| && Nearest(values[j], log[idx[j]].event.lcpMs)
  }

  /** The last of the positions carries this arrival time. */
  predicate LastAt(log: seq<Fold>, idx: seq<nat>, seen: int) {
    idx != [] && idx[|idx| - 1] < |log| && log[idx[|idx| - 1]].now == seen
  }

  /** `values` are those of exactly the events of the group, in order, the last of which arrived at `seen`. */
  ghost predicate ValuesOf(log: seq<Fold>, group: Fold -> bool, values: seq<int>, seen: int) {
    exists idx :: Picks(log, group, idx) && Rounded(log, idx, values) && LastAt(log, idx, seen)
  }

  /** The groups of the tables, said of events. */
  ghost predicate SameGroup(group: Fold -> bool, q: Query) {
    forall f :: group(f) <==> Matches(Stamped(SampleOf(f.event), f.now), q)
  }

  lemma LogSnoc(log: seq<Fold>)
    requires log != []
    ensures Log(log) != [] && Log(log)[..|log| - 1] == Log(log[..|log| - 1])
    ensures Log(log)[|log| - 1] == Stamped(SampleOf(log[|log| - 1].event), log[|log| - 1].now)
  {
  }

  /** One more event: selected or not. */
  lemma SelectStep(log: seq<Fold>, init: seq<Fold>, f: Fold, q: Query)
    requires log == init + [f]
    ensures var x := Stamped(SampleOf(f.event), f.now);
            && Select(Log(log), q) == Select(Log(init), q) + (if Matches(x, q) then [x.sample.ms] else [])
            && LastSeen(Log(log), q) == if Matches(x, q) then f.now else LastSeen(Log(init), q)
  {
    assert log[..|log| - 1] == init;
    LogSnoc(log);
  }

  lemma RoundedSnoc(log: seq<Fold>, idx: seq<nat>, values: seq<int>, f: Fold)
    requires Rounded(log, idx, values)
    ensures Rounded(log + [f], idx, values + [])
    ensures Rounded(log + [f], idx + [|log|], values + [SampleOf(f.event).ms])
  {
    SampleMeaning(f.event);
    assert values + [] == values;
  }

  lemma LastSnoc(log: seq<Fold>, idx: seq<nat>, f: Fold, seen: int)
    ensures LastAt(log, idx, seen) ==> LastAt(log + [f], idx, seen)
    ensures LastAt(log + [f], idx + [|log|], f.now)
  {
  }

  /** These positions and values are those of the group, and the last position is the last seen. */
  ghost predicate Selected(log: seq<Fold>, group: Fold -> bool, q: Query, idx: seq<nat>) {
    && Picks(log, group, idx) && Rounded(log, idx, Select(Log(log), q))
    && (Select(Log(log), q) != [] ==> LastAt(log, idx, LastSeen(Log(log), q)))
  }

  lemma SelectedSnoc(init: seq<Fold>, f: Fold, group: Fold -> bool, q: Query, idx: seq<nat>)
    requires Selected(init, group, q, idx) && (group(f) <==> Matches(Stamped(SampleOf(f.event), f.now), q))
    ensures Selected(init + [f], group, q, if group(f) then idx + [|init|] else idx)
  {
    SelectStep(init + [f], init, f, q);
    PicksSnoc(init, group, idx, f);
    RoundedSnoc(init, idx, Select(Log(init), q), f);
    LastSnoc(init, idx, f, LastSeen(Log(init), q));
  }

  lemma {:induction false} SelectedValues(log: seq<Fold>, group: Fold -> bool, q: Query) returns (idx: seq<nat>)
    requires SameGroup(group, q)
    ensures Selected(log, group, q, idx)
  {
    if log == [] {
      idx := [];
    } else {
      var init, f := log[..|log| - 1], log[|log| - 1];
      idx := SelectedValues(init, group, q);
      assert log == init + [f];
      SelectedSnoc(init, f, group, q, idx);
      idx := if group(f) then idx + [|init|] else idx;
    }
  }

  lemma ValuesAre(log: seq<Fold>, group: Fold -> bool, q: Query)
    requires SameGroup(group, q) && Select(Log(log), q) != []
    ensures ValuesOf(log, group, Select(Log(log), q), LastSeen(Log(log), q))
  {
    var idx := SelectedValues(log, group, q);
  }

  // ---------------------------------------------------------------- what a percentile says

  /** No histogram bin receives 2^32 of the values. */
  predicate NoneWraps(values: seq<int>) {
    forall b :: 0 <= b < 128 ==> NumInBin(values, b) < 4294967296
  }

  /**
   * `u` is the rounded upper edge of the bin of q. It is at least q exactly up to 30000, and u - 1/2 is at most
   * q * 600^(1/128) exactly from 50 on.
   */
  ghost predicate ReportsP75(u: nat, q: nat) {
    && (exists b :: InBin(q, b) && RoundsUpper(u, b))
    && (q <= u <==> q <= 30000)
    && (u > 0 && Pow(2 * u - 1, 128) <= 600 * Pow(2 * q, 128) <==> q >= 50)
  }

  /** `u` brackets the 75th percentile of the values, if it is not negative and no bin wraps. */
  ghost predicate BracketsP75(u: nat, values: seq<int>) {
    forall q: nat :: NoneWraps(values) && IsP75(values, q) ==> ReportsP75(u, q)
  }

  lemma FitsIsNoneWraps(values: seq<int>)
    ensures Fits(values) <==> NoneWraps(values)
  {
  }

  lemma BracketsLiterally(u: nat, q: nat, b: nat)
    requires Brackets(u, q) && InBin(q, b) && RoundsUpper(u, b)
    ensures ReportsP75(u, q)
  {
  }

  lemma EdgeOfBin(values: seq<int>, s: seq<int>, q: nat)
    requires Permutation(values, s) && Sorted(s) && s != [] && Fits(values) && q == NearestRank75(s)
    ensures InBin(q, BinFor(q)) && RoundsUpper(P75(HistOf(values)), BinFor(q))
  {
    StoredP75(values, s);
    BinLiterally(q);
    UpperLiterally(BinFor(q));
  }

  lemma P75OfValue(values: seq<int>, q: nat)
    requires NoneWraps(values) && IsP75(values, q)
    ensures ReportsP75(P75(HistOf(values)), q)
  {
    var s := Ordered(values);
    OrderedSorts(values);
    PermutationLength(s, values);
    FitsIsNoneWraps(values);
    NearestRankMeaning(values, s, q);
    P75Brackets(values, s);
    EdgeOfBin(values, s, q);
    BracketsLiterally(P75(HistOf(values)), q, BinFor(q));
  }

  lemma P75OfValues(values: seq<int>)
    ensures BracketsP75(P75(HistOf(values)), values)
  {
    forall q: nat | NoneWraps(values) && IsP75(values, q)
      ensures ReportsP75(P75(HistOf(values)), q)
    {
      P75OfValue(values, q);
    }
  }

  // ---------------------------------------------------------------- the tables

  /** Each bin's number of values modulo 2^32, as four bytes, the least significant first. */
  ghost predicate BlobSays(blob: seq<byte>, values: seq<int>) {
    && |blob| == 512
    && forall b :: 0 <= b < 128 ==>
      NumInBin(values, b) % 4294967296 == blob[4 * b] as int + 256 * (blob[4 * b + 1] as int)
                                          + 65536 * (blob[4 * b + 2] as int) + 16777216 * (blob[4 * b + 3] as int)
  }

  lemma BlobOfValues(values: seq<int>)
    ensures BlobSays(Encoded(HistOf(values)), values)
  {
    forall b | 0 <= b < 128
      ensures HistOf(values)[b] == NumInBin(values, b) % 4294967296
    {
      BinsModulo(values, b);
    }
    forall b | 0 <= b < 128 {
      LittleEndian(HistOf(values), b);
    }
  }

  /** A row of this count, percentile and time, of the events of a group. */
  ghost predicate RowSays(log: seq<Fold>, group: Fold -> bool, row: Bucket) {
    exists values ::
      && ValuesOf(log, group, values, row.lastSeen)
      && BlobSays(row.hist, values)
      && row.count <= |values| && (row.count == |values| <==> NoneWraps(values))
      && BracketsP75(row.p75, values)
  }

  ghost predicate CountSays(log: seq<Fold>, group: Fold -> bool, count: nat, seen: int) {
    exists values :: ValuesOf(log, group, values, seen) && count == |values|
  }

  ghost predicate P75Says(log: seq<Fold>, group: Fold -> bool, p75: nat, seen: int) {
    exists values :: ValuesOf(log, group, values, seen) && BracketsP75(p75, values)
  }

  /** A running row: count and time of all events of the page, percentile of those of the last 60 minutes. */
  ghost predicate RunningSays(log: seq<Fold>, all: Fold -> bool, window: Fold -> bool, row: Current) {
    CountSays(log, all, row.count, row.lastSeen) && P75Says(log, window, row.p75, row.lastSeen)
  }

  lemma BucketSays(log: seq<Fold>, group: Fold -> bool, q: Query)
    requires SameGroup(group, q) && Select(Log(log), q) != []
    ensures RowSays(log, group, RowFor(Log(log), q))
  {
    var values := Select(Log(log), q);
    ValuesAre(log, group, q);
    RowDescribes(Log(log), q);
    FitsIsNoneWraps(values);
    P75OfValues(values);
    DecodeAfterEncode(HistOf(values));
    BlobOfValues(values);
  }

  /** The last event of a page is in its own window. */
  lemma WindowEndsWithPage(log: seq<Stamped>, k: PageKey, seen: int)
    requires Select(log, OfPage(k)) != [] && seen == LastSeen(log, OfPage(k))
    ensures var q := OfWindow(k, MinuteOf(seen) - 60); Select(log, q) != [] && LastSeen(log, q) == seen
  {
    var q := OfWindow(k, MinuteOf(seen) - 60);
    var i := LastSeenIsSeen(log, OfPage(k));
    assert log[i] in log && Matches(log[i], q);
    SelectEmptyIff(log, q);
    var j := LastSeenIsSeen(log, q);
    assert i == j;
  }

  /** The group behind a running percentile. */
  function LastHour(k: PageKey, seen: int): Query {
    OfWindow(k, MinuteOf(seen) - 60)
  }

  lemma LastHourIs(row: Current, k: PageKey)
    ensures RunningGroup(row, k) == LastHour(k, row.lastSeen)
  {
  }

  lemma CurrentParts(log: seq<Stamped>, k: PageKey, row: Current, q: Query)
    requires row == CurrentFor(log, k) && q == LastHour(k, row.lastSeen)
    ensures row.count == |Select(log, OfPage(k))| && row.lastSeen == LastSeen(log, OfPage(k))
    ensures row.p75 == P75(HistOf(Select(log, q)))
  {
    LastHourIs(row, k);
    RunningP75(log, k, row);
  }

  lemma CurrentSays(log: seq<Fold>, k: PageKey, row: Current, all: Fold -> bool, window: Fold -> bool, q: Query)
    requires Select(Log(log), OfPage(k)) != [] && row == CurrentFor(Log(log), k) && q == LastHour(k, row.lastSeen)
    requires SameGroup(all, OfPage(k)) && SameGroup(window, q)
    ensures CountSays(log, all, row.count, row.lastSeen)
    ensures P75Says(log, window, row.p75, row.lastSeen)
  {
    CurrentParts(Log(log), k, row, q);
    WindowEndsWithPage(Log(log), k, row.lastSeen);
    CountIs(log, all, OfPage(k), row.count, row.lastSeen);
    P75Is(log, window, q, row.p75, row.lastSeen);
  }

  lemma CountIs(log: seq<Fold>, group: Fold -> bool, q: Query, count: nat, seen: int)
    requires SameGroup(group, q) && Select(Log(log), q) != [] && LastSeen(Log(log), q) == seen
    requires count == |Select(Log(log), q)|
    ensures CountSays(log, group, count, seen)
  {
    ValuesAre(log, group, q);
  }

  lemma P75Is(log: seq<Fold>, group: Fold -> bool, q: Query, p75: nat, seen: int)
    requires SameGroup(group, q) && Select(Log(log), q) != [] && LastSeen(Log(log), q) == seen
    requires p75 == P75(HistOf(Select(Log(log), q)))
    ensures P75Says(log, group, p75, seen)
  {
    ValuesAre(log, group, q);
    P75OfValues(Select(Log(log), q));
  }

  /** Some event of the log is in the group. */
  ghost predicate SomeIn(log: seq<Fold>, group: Fold -> bool) {
    exists f :: f in log && group(f)
  }

  lemma SomeInIff(log: seq<Fold>, group: Fold -> bool, q: Query)
    requires SameGroup(group, q)
    ensures SomeIn(log, group) <==> Select(Log(log), q) != []
  {
    SelectEmptyIff(Log(log), q);
    forall f | f in log
      ensures Stamped(SampleOf(f.event), f.now) in Log(log)
    {
      var i :| 0 <= i < |log| && log[i] == f;
      assert Log(log)[i] == Stamped(SampleOf(f.event), f.now);
    }
    forall x | x in Log(log)
      ensures exists f :: f in log && x == Stamped(SampleOf(f.event), f.now)
    {
      var i :| 0 <= i < |log| && Log(log)[i] == x;
      assert log[i] in log;
    }
  }

  /** The three tables, said of the events of the log. */
  ghost predicate PagesSay(agg: Agg, log: seq<Fold>) {
    forall site, page, minute ::
      var r, group := PageMinute(PageKey(site, page), minute), f => InTheBucket(f, site, page, minute);
      (r in agg.pageMinute <==> SomeIn(log, group)) && (r in agg.pageMinute ==> RowSays(log, group, agg.pageMinute[r]))
  }

  ghost predicate SitesSay(agg: Agg, log: seq<Fold>) {
    forall site, minute ::
      var r, group := SiteMinute(site, minute), f => OnTheSite(f, site, minute);
      (r in agg.siteMinute <==> SomeIn(log, group)) && (r in agg.siteMinute ==> RowSays(log, group, agg.siteMinute[r]))
  }

  ghost predicate RunningRowsSay(agg: Agg, log: seq<Fold>) {
    forall site, page ::
      var k, group := PageKey(site, page), f => OnThePage(f, site, page);
      && (k in agg.pageCurrent <==> SomeIn(log, group))
      && (k in agg.pageCurrent ==>
        var row := agg.pageCurrent[k];
        RunningSays(log, group, f => InTheWindow(f, site, page, row.lastSeen), row))
  }

  lemma PagesOfLog(agg: Agg, log: seq<Fold>)
    requires IsRebuildOf(agg, Log(log))
    ensures PagesSay(agg, log)
  {
    AllAgree(agg, Log(log));
    forall site, page, minute
      ensures var r, group := PageMinute(PageKey(site, page), minute), f => InTheBucket(f, site, page, minute);
              (r in agg.pageMinute <==> SomeIn(log, group))
              && (r in agg.pageMinute ==> RowSays(log, group, agg.pageMinute[r]))
    {
      var k, group := PageKey(site, page), f => InTheBucket(f, site, page, minute);
      SomeInIff(log, group, OfBucket(k, minute));
      NotInBuckets(Log(log), k, minute);
      if SomeIn(log, group) {
        BucketSays(log, group, OfBucket(k, minute));
      }
    }
  }

  lemma SitesOfLog(agg: Agg, log: seq<Fold>)
    requires IsRebuildOf(agg, Log(log))
    ensures SitesSay(agg, log)
  {
    AllAgree(agg, Log(log));
    forall site, minute
      ensures var r, group := SiteMinute(site, minute), f => OnTheSite(f, site, minute);
              (r in agg.siteMinute <==> SomeIn(log, group))
              && (r in agg.siteMinute ==> RowSays(log, group, agg.siteMinute[r]))
    {
      var group := f => OnTheSite(f, site, minute);
      SomeInIff(log, group, OfSite(site, minute));
      NotInSiteBuckets(Log(log), site, minute);
      if SomeIn(log, group) {
        BucketSays(log, group, OfSite(site, minute));
      }
    }
  }

  lemma RunningRowsOfLog(agg: Agg, log: seq<Fold>)
    requires IsRebuildOf(agg, Log(log))
    ensures RunningRowsSay(agg, log)
  {
    AllAgree(agg, Log(log));
    forall site, page
      ensures var k, group := PageKey(site, page), f => OnThePage(f, site, page);
              && (k in agg.pageCurrent <==> SomeIn(log, group))
              && (k in agg.pageCurrent ==>
                var row := agg.pageCurrent[k];
                RunningSays(log, group, f => InTheWindow(f, site, page, row.lastSeen), row))
    {
      var k, group := PageKey(site, page), f => OnThePage(f, site, page);
      SomeInIff(log, group, OfPage(k));
      NotInPages(Log(log), k);
      if SomeIn(log, group) {
        var row := agg.pageCurrent[k];
        CurrentSays(log, k, row, group, f => InTheWindow(f, site, page, row.lastSeen), LastHour(k, row.lastSeen));
      }
    }
  }

  /**
   * After any run there is a log of exactly the folded events, a prefix of the accepted ones in arrival order,
   * with the times they were folded at, such that every row of the three tables exists exactly if some event of
   * that log belongs to it, and its count, its last_seen and its percentile are those of the LCP values, to the
   * nearest millisecond, of exactly the events that do.
   */
  lemma FiguresOfRun(steps: seq<Step>) returns (log: seq<Fold>)
    ensures var s := Run(Init(), steps);
            && |s.folded| <= |s.accepted|
            && FoldedEvents(log) == s.accepted[..|s.folded|]
            && Permutation(s.folded, log) && SameTimes(s.folded, log)
            && PagesSay(s.agg, log) && SitesSay(s.agg, log) && RunningRowsSay(s.agg, log)
  {
    log := Theorems.OneLogOneCursor(steps);
    var agg := Run(Init(), steps).agg;
    PagesOfLog(agg, log);
    SitesOfLog(agg, log);
    RunningRowsOfLog(agg, log);
  }
}
