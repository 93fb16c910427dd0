/** When a running row can be rebuilt from its page's buckets, whatever the clock does. */
module Running {
  import opened Histogram
  import opened MapFolds
  import opened Aggregate
  import opened Rebuild
  import opened Folding
  import opened Percentile
  import opened Tables

  lemma MinuteMonotone(a: int, b: int)
    requires a <= b
    ensures MinuteOf(a) <= MinuteOf(b)
  {
  }

  /** The running row's last_seen is at least that of each of the page's buckets. */
  ghost predicate Newest(agg: Agg, k: PageKey)
    requires k in agg.pageCurrent
  {
    forall m :: PageMinute(k, m) in agg.pageMinute ==>
      agg.pageMinute[PageMinute(k, m)].lastSeen <= agg.pageCurrent[k].lastSeen
  }

  ghost predicate NoBucketAfter(table: map<PageMinute, Bucket>, k: PageKey, minute: int) {
    forall m :: PageMinute(k, m) in table ==> m <= minute
  }

  /** A bucket was last touched in its own minute. */
  lemma SeenInMinute(agg: Agg, log: seq<Stamped>, r: PageMinute)
    requires IsRebuildOf(agg, log) && r in agg.pageMinute
    ensures MinuteOf(agg.pageMinute[r].lastSeen) == r.minute
  {
    AllAgree(agg, log);
    NotInBuckets(log, r.key, r.minute);
    var i := LastSeenIsSeen(log, OfBucket(r.key, r.minute));
  }

  /** The bucket of the minute a page was last seen in was last touched with the running row. */
  lemma TopBucket(agg: Agg, log: seq<Stamped>, k: PageKey)
    requires IsRebuildOf(agg, log) && k in agg.pageCurrent
    ensures var seen := agg.pageCurrent[k].lastSeen;
            var top := PageMinute(k, MinuteOf(seen));
            top in agg.pageMinute && agg.pageMinute[top].lastSeen == seen
  {
    AllAgree(agg, log);
    NotInPages(log, k);
    var i := LastSeenIsSeen(log, OfPage(k));
    var minute := MinuteOf(log[i].now);
    assert log[i] in log;
    NotInBuckets(log, k, minute);
    var j := LastSeenIsSeen(log, OfBucket(k, minute));
    assert i == j;
  }

  /** last_seen of a running row is the newest of its page exactly if no bucket lies after its minute. */
  lemma CurrentIsNewestIff(agg: Agg, log: seq<Stamped>, k: PageKey)
    requires IsRebuildOf(agg, log) && k in agg.pageCurrent
    ensures Newest(agg, k) <==> NoBucketAfter(agg.pageMinute, k, MinuteOf(agg.pageCurrent[k].lastSeen))
  {
    AllAgree(agg, log);
    var seen := agg.pageCurrent[k].lastSeen;
    TopBucket(agg, log, k);
    forall m | PageMinute(k, m) in agg.pageMinute
      ensures agg.pageMinute[PageMinute(k, m)].lastSeen <= seen <==> m <= MinuteOf(seen)
    {
      var last := agg.pageMinute[PageMinute(k, m)].lastSeen;
      SeenInMinute(agg, log, PageMinute(k, m));
      if last <= seen {
        MinuteMonotone(last, seen);
      } else {
        MinuteMonotone(seen, last);
      }
    }
  }

  // ---------------------------------------------------------------- the whole row from the buckets

  function SeenTimes(table: map<PageMinute, Bucket>, k: PageKey): set<int> {
    set r | r in table && r.key == k :: table[r].lastSeen
  }

  /** The newest last_seen of a page's buckets, 0 if there are none. */
  ghost function NewestSeen(table: map<PageMinute, Bucket>, k: PageKey): int {
    var times := SeenTimes(table, k);
    if times == {} then 0
    else
      MaxExists(times);
      var m :| m in times && forall t :: t in times ==> t <= m;
      m
  }

  /** The running row of a page last seen at `seen`, as its buckets say it. */
  ghost function RowAt(table: map<PageMinute, Bucket>, k: PageKey, seen: int): Current {
    Current(SumAll(BucketCounts(table, k)), P75(Trailing(table, k, MinuteOf(seen) - TRAILING_MINUTES)), seen)
  }

  /** A running row computed from page_minute alone. */
  ghost function RebuiltRow(table: map<PageMinute, Bucket>, k: PageKey): Current {
    RowAt(table, k, NewestSeen(table, k))
  }

  lemma NewestSeenIff(agg: Agg, log: seq<Stamped>, k: PageKey)
    requires IsRebuildOf(agg, log) && k in agg.pageCurrent
    ensures NewestSeen(agg.pageMinute, k) == agg.pageCurrent[k].lastSeen <==> Newest(agg, k)
  {
    AllAgree(agg, log);
    var seen, times := agg.pageCurrent[k].lastSeen, SeenTimes(agg.pageMinute, k);
    TopBucket(agg, log, k);
    assert seen in times;
    assert times != {};
    forall m | PageMinute(k, m) in agg.pageMinute
      ensures agg.pageMinute[PageMinute(k, m)].lastSeen in times
    {
    }
    if Newest(agg, k) {
      forall t | t in times
        ensures t <= seen
      {
        var r :| r in agg.pageMinute && r.key == k && agg.pageMinute[r].lastSeen == t;
        assert r == PageMinute(k, r.minute);
      }
    }
  }

  /** No bucket of the page has a counter that wrapped around. */
  ghost predicate BucketsFit(agg: Agg, log: seq<Stamped>, k: PageKey) {
    forall m :: PageMinute(k, m) in agg.pageMinute ==> Fits(Select(log, OfBucket(k, m)))
  }

  lemma SeenAt(table: map<PageMinute, Bucket>, k: PageKey, seen: int)
    ensures RowAt(table, k, seen).lastSeen == seen
  {
  }

  lemma CountAt(agg: Agg, log: seq<Stamped>, k: PageKey, seen: int)
    requires IsRebuildOf(agg, log) && k in agg.pageCurrent
    ensures agg.pageCurrent[k].count == RowAt(agg.pageMinute, k, seen).count <==> BucketsFit(agg, log, k)
  {
    AllAgree(agg, log);
    CurrentCount(agg, log, k);
  }

  lemma P75At(table: map<PageMinute, Bucket>, k: PageKey, seen: int)
    ensures RowAt(table, k, seen).p75 == P75(Trailing(table, k, MinuteOf(seen) - TRAILING_MINUTES))
  {
  }

  lemma SameP75(agg: Agg, log: seq<Stamped>, k: PageKey)
    requires IsRebuildOf(agg, log) && k in agg.pageCurrent
    ensures agg.pageCurrent[k].p75 == RowAt(agg.pageMinute, k, agg.pageCurrent[k].lastSeen).p75
  {
    AllAgree(agg, log);
    CurrentFromBuckets(agg, log, k);
    P75At(agg.pageMinute, k, agg.pageCurrent[k].lastSeen);
  }

  lemma SameRowIff(row: Current, other: Current, fits: bool)
    requires row.p75 == other.p75 && row.lastSeen == other.lastSeen && (row.count == other.count <==> fits)
    ensures row == other <==> fits
  {
  }

  /** At the right time, the buckets give the right row exactly if no counter of theirs wrapped around. */
  lemma RowAtIff(agg: Agg, log: seq<Stamped>, k: PageKey, row: Current)
    requires IsRebuildOf(agg, log) && k in agg.pageCurrent && row == agg.pageCurrent[k]
    ensures row == RowAt(agg.pageMinute, k, row.lastSeen) <==> BucketsFit(agg, log, k)
  {
    AllAgree(agg, log);
    CountAt(agg, log, k, row.lastSeen);
    SeenAt(agg.pageMinute, k, row.lastSeen);
    SameP75(agg, log, k);
    SameRowIff(row, RowAt(agg.pageMinute, k, row.lastSeen), BucketsFit(agg, log, k));
  }

  /**
   * page_current is derived from page_minute: a running row is what its buckets say exactly if none of them
   * lies after the minute it was last seen in and none of their counters wrapped around.
   */
  lemma CurrentRebuildIff(agg: Agg, log: seq<Stamped>, k: PageKey)
    requires IsRebuildOf(agg, log) && k in agg.pageCurrent
    ensures agg.pageCurrent[k] == RebuiltRow(agg.pageMinute, k) <==>
            NoBucketAfter(agg.pageMinute, k, MinuteOf(agg.pageCurrent[k].lastSeen)) && BucketsFit(agg, log, k)
  {
    AllAgree(agg, log);
    CurrentIsNewestIff(agg, log, k);
    NewestSeenIff(agg, log, k);
    RowAtIff(agg, log, k, agg.pageCurrent[k]);
    SeenAt(agg.pageMinute, k, NewestSeen(agg.pageMinute, k));
  }

  // ---------------------------------------------------------------- before the call

  lemma TouchedRow(table: map<PageKey, Current>, buckets: map<PageMinute, Bucket>, samples: seq<Sample>, now: int,
                   k: PageKey)
    ensures var after := FoldCurrent(table, buckets, samples, now, Pages(samples));
            && (k in after <==> k in table || k in Pages(samples))
            && (k in Pages(samples) ==> after[k].lastSeen == now)
            && (k in table && k !in Pages(samples) ==> after[k] == table[k])
  {
  }

  lemma TouchedBuckets(table: map<PageMinute, Bucket>, samples: seq<Sample>, now: int, k: PageKey)
    ensures var after := FoldPages(table, samples, now, Pages(samples));
            && (k in Pages(samples) ==>
              (NoBucketAfter(after, k, MinuteOf(now)) <==> NoBucketAfter(table, k, MinuteOf(now))))
            && (k !in Pages(samples) ==> forall m ::
              && (PageMinute(k, m) in after <==> PageMinute(k, m) in table)
              && (PageMinute(k, m) in table ==> after[PageMinute(k, m)] == table[PageMinute(k, m)]))
  {
    var after := FoldPages(table, samples, now, Pages(samples));
    forall m
      ensures PageMinute(k, m) in after <==>
              PageMinute(k, m) in table || (k in Pages(samples) && m == MinuteOf(now))
    {
    }
  }

  /**
   * Applying a batch at `now` leaves the running row of a page it touches the newest exactly if the page
   * had no bucket after the minute of `now`. For pages it does not touch nothing changes.
   */
  lemma ApplyLeavesNewestIff(agg: Agg, log: seq<Stamped>, batch: int, samples: seq<Sample>, now: int, k: PageKey,
                             after: Agg)
    requires IsRebuildOf(agg, log) && after == FoldBatch(agg, batch, samples, now)
    ensures k in Pages(samples) ==>
      && k in after.pageCurrent && after.pageCurrent[k].lastSeen == now
      && (Newest(after, k) <==> NoBucketAfter(agg.pageMinute, k, MinuteOf(now)))
    ensures k in agg.pageCurrent && k !in Pages(samples) ==>
      k in after.pageCurrent && (Newest(after, k) <==> Newest(agg, k))
  {
    AllAgree(agg, log);
    TouchedRow(agg.pageCurrent, after.pageMinute, samples, now, k);
    TouchedBuckets(agg.pageMinute, samples, now, k);
    if k in Pages(samples) {
      ApplyExtendsLog(agg, log, batch, samples, now);
      CurrentIsNewestIff(after, log + Stamp(samples, now), k);
    }
  }

  /** The tables after two batches of one sample each. */
  ghost function TwoBatches(x: Sample, a: int, b: int): Agg {
    FoldBatch(FoldBatch(EMPTY_AGG, 1, [x], a), 2, [x], b)
  }

  lemma OneBatch(x: Sample, a: int)
    ensures IsRebuildOf(FoldBatch(EMPTY_AGG, 1, [x], a), [] + Stamp([x], a))
  {
    ApplyExtendsLog(EMPTY_AGG, [], 1, [x], a);
  }

  lemma OneBucket(x: Sample, a: int, minute: int)
    ensures NoBucketAfter(FoldPages(map[], [x], a, Pages([x])), PageOf(x), minute) <==> MinuteOf(a) <= minute
  {
    var first := FoldPages(map[], [x], a, Pages([x]));
    assert [x][0] in [x];
    assert PageMinute(PageOf(x), MinuteOf(a)) in first;
    assert forall m :: PageMinute(PageOf(x), m) in first ==> m == MinuteOf(a);
  }

  /** Two batches of one sample: the row stays the newest exactly if the second minute is not before the first. */
  lemma TwoBatchesNewestIff(x: Sample, a: int, b: int)
    ensures PageOf(x) in TwoBatches(x, a, b).pageCurrent
    ensures Newest(TwoBatches(x, a, b), PageOf(x)) <==> MinuteOf(a) <= MinuteOf(b)
  {
    OneBatch(x, a);
    OneBucket(x, a, MinuteOf(b));
    assert [x][0] in [x];
    ApplyLeavesNewestIff(FoldBatch(EMPTY_AGG, 1, [x], a), [] + Stamp([x], a), 2, [x], b, PageOf(x),
                         TwoBatches(x, a, b));
  }

  /** A clock that goes back over a minute loses the newest arrival; one that goes back inside a minute does not. */
  lemma ClockBackLosesNewest(x: Sample)
    ensures PageOf(x) in TwoBatches(x, 1020, 1000).pageCurrent && !Newest(TwoBatches(x, 1020, 1000), PageOf(x))
    ensures PageOf(x) in TwoBatches(x, 1000, 970).pageCurrent && Newest(TwoBatches(x, 1000, 970), PageOf(x))
  {
    TwoBatchesNewestIff(x, 1020, 1000);
    TwoBatchesNewestIff(x, 1000, 970);
  }

  // ---------------------------------------------------------------- a clock that never goes back

  /** Arrival times never go back. */
  predicate ClockMonotone(log: seq<Stamped>) {
    forall i, j :: 0 <= i < j < |log| ==> log[i].now <= log[j].now
  }

  lemma BucketNotAfter(log: seq<Stamped>, k: PageKey, m: int)
    requires ClockMonotone(log) && PageMinute(k, m) in BucketsIn(log)
    ensures m <= MinuteOf(LastSeen(log, OfPage(k)))
  {
    NotInBuckets(log, k, m);
    var j := LastSeenIsSeen(log, OfBucket(k, m));
    SelectEmptyIff(log, OfPage(k));
    assert log[j] in log;
    var i := LastSeenIsSeen(log, OfPage(k));
    MinuteMonotone(log[j].now, log[i].now);
  }

  /** With a clock that never goes back no bucket lies after its page's running row. */
  lemma MonotoneIsNewest(agg: Agg, log: seq<Stamped>, k: PageKey)
    requires IsRebuildOf(agg, log) && ClockMonotone(log) && k in agg.pageCurrent
    ensures NoBucketAfter(agg.pageMinute, k, MinuteOf(agg.pageCurrent[k].lastSeen))
  {
    AllAgree(agg, log);
    forall m | PageMinute(k, m) in agg.pageMinute
      ensures m <= MinuteOf(agg.pageCurrent[k].lastSeen)
    {
      BucketNotAfter(log, k, m);
    }
  }
}
