/**
 * The aggregate tables and what one Apply transaction does to them, as a function on values.
 * Store.dfy proves the step-by-step transaction against `ApplyTx`.
 */
module Aggregate {
  import opened Histogram
  import opened MapFolds

  const TRAILING_MINUTES: int := 60
  const KEEP_BATCHES: int := 1000

  datatype Sample = Sample(site: string, page: string, ms: int)
  datatype PageKey = PageKey(site: string, page: string)
  datatype PageMinute = PageMinute(key: PageKey, minute: int)
  datatype SiteMinute = SiteMinute(site: string, minute: int)

  /** A row of page_minute or site_minute; the histogram is stored as a blob. */
  datatype Bucket = Bucket(count: nat, hist: seq<byte>, p75: nat, lastSeen: int)
  /** A row of page_current. */
  datatype Current = Current(count: nat, p75: nat, lastSeen: int)

  datatype Agg = Agg(
    pageMinute: map<PageMinute, Bucket>,
    pageCurrent: map<PageKey, Current>,
    siteMinute: map<SiteMinute, Bucket>,
    applied: map<int, int>)

  const EMPTY_AGG: Agg := Agg(map[], map[], map[], map[])

  datatype Error = BadBlob | DuplicateBatch | IoError
  datatype Result<+T> = Success(value: T) | Failure(error: Error)

  function PageOf(s: Sample): PageKey {
    PageKey(s.site, s.page)
  }

  /** Unix seconds to minutes; the division truncates toward zero. */
  function MinuteOf(now: int): int {
    if now >= 0 then now / 60 else -(-now / 60)
  }

  // ---------------------------------------------------------------- selecting samples

  function OnPage(samples: seq<Sample>, key: PageKey): seq<int> {
    if samples == [] then []
    else
      var x := samples[|samples| - 1];
      OnPage(samples[..|samples| - 1], key) + (if PageOf(x) == key then [x.ms] else [])
  }

  function OnSite(samples: seq<Sample>, site: string): seq<int> {
    if samples == [] then []
    else
      var x := samples[|samples| - 1];
      OnSite(samples[..|samples| - 1], site) + (if x.site == site then [x.ms] else [])
  }

  function Pages(samples: seq<Sample>): set<PageKey> {
    set x | x in samples :: PageOf(x)
  }

  function Sites(samples: seq<Sample>): set<string> {
    set x: Sample | x in samples :: x.site
  }

  // ---------------------------------------------------------------- rows

  function BucketOf(h: Hist, now: int): Bucket {
    Bucket(CountOf(h), Encoded(h), P75(h), now)
  }

  /** The histogram a blob stands for; a blob that does not decode is never read (see Readable). */
  function Stored(blob: seq<byte>): Hist {
    match Decoded(blob)
    case Some(h) => h
    case None => Empty()
  }

  function StoredIn<K>(table: map<K, Bucket>, k: K): Hist {
    if k in table then Stored(table[k].hist) else Empty()
  }

  /** The histograms of one page's buckets after minute `since`. */
  function Window(table: map<PageMinute, Bucket>, key: PageKey, since: int): map<PageMinute, Hist> {
    map r | r in table && r.key == key && r.minute > since :: Stored(table[r].hist)
  }

  ghost function Trailing(table: map<PageMinute, Bucket>, key: PageKey, since: int): Hist {
    MergeAll(Window(table, key, since))
  }

  // ---------------------------------------------------------------- one transaction

  /** A row after it took up its share of the batch. */
  function Extended(ms: seq<int>, before: Hist, now: int): Bucket {
    BucketOf(Merged(HistOf(ms), before), now)
  }

  /** page_minute after the buckets of `keys` took up the batch. */
  function FoldPages(table: map<PageMinute, Bucket>, samples: seq<Sample>, now: int, keys: set<PageKey>)
    : map<PageMinute, Bucket>
  {
    var minute := MinuteOf(now);
    map r | r in table.Keys + (set k | k in keys :: PageMinute(k, minute)) ::
      if r.minute == minute && r.key in keys
      then Extended(OnPage(samples, r.key), StoredIn(table, r), now)
      else table[r]
  }

  function FoldSites(table: map<SiteMinute, Bucket>, samples: seq<Sample>, now: int, sites: set<string>)
    : map<SiteMinute, Bucket>
  {
    var minute := MinuteOf(now);
    map r | r in table.Keys + (set s | s in sites :: SiteMinute(s, minute)) ::
      if r.minute == minute && r.site in sites
      then Extended(OnSite(samples, r.site), StoredIn(table, r), now)
      else table[r]
  }

  /** A running row after `n` more events, with the percentile of its trailing window. */
  function Recomputed(table: map<PageKey, Current>, k: PageKey, n: nat, trailing: Hist, now: int): Current {
    Current((if k in table then table[k].count else 0) + n, P75(trailing), now)
  }

  /** page_current after the rows of `keys` were recomputed from `buckets`. */
  ghost function FoldCurrent(table: map<PageKey, Current>, buckets: map<PageMinute, Bucket>,
                             samples: seq<Sample>, now: int, keys: set<PageKey>): map<PageKey, Current>
  {
    map k | k in table.Keys + keys ::
      if k in keys
      then Recomputed(table, k, |OnPage(samples, k)|, Trailing(buckets, k, MinuteOf(now) - TRAILING_MINUTES), now)
      else table[k]
  }

  /** The batch marker, and the markers it makes old. */
  function Mark(applied: map<int, int>, batch: int, now: int): map<int, int> {
    map b | b in applied.Keys + {batch} && b > batch - KEEP_BATCHES :: if b == batch then now else applied[b]
  }

  lemma MarkMeaning(applied: map<int, int>, batch: int, now: int)
    ensures var after := Mark(applied, batch, now);
            && batch in after && after[batch] == now
            && (forall b :: b in after <==> (b in applied || b == batch) && b > batch - 1000)
            && (forall b :: b in after && b != batch ==> after[b] == applied[b])
  {
  }

  ghost function FoldBatch(agg: Agg, batch: int, samples: seq<Sample>, now: int): Agg {
    var buckets := FoldPages(agg.pageMinute, samples, now, Pages(samples));
    Agg(buckets,
        FoldCurrent(agg.pageCurrent, buckets, samples, now, Pages(samples)),
        FoldSites(agg.siteMinute, samples, now, Sites(samples)),
        Mark(agg.applied, batch, now))
  }

  /** Every blob the transaction reads decodes. */
  predicate Readable(agg: Agg, samples: seq<Sample>, now: int) {
    && PagesReadable(agg.pageMinute, now, Pages(samples))
    && SitesReadable(agg.siteMinute, now, Sites(samples))
  }

  predicate PagesReadable(table: map<PageMinute, Bucket>, now: int, keys: set<PageKey>) {
    forall r :: r in table && r.key in keys && r.minute > MinuteOf(now) - TRAILING_MINUTES ==>
      |table[r].hist| == BLOB_SIZE
  }

  predicate SitesReadable(table: map<SiteMinute, Bucket>, now: int, sites: set<string>) {
    forall r :: r in table && r.site in sites && r.minute == MinuteOf(now) ==> |table[r].hist| == BLOB_SIZE
  }

  /** One Apply transaction: all of the batch, or an error and nothing. */
  ghost function ApplyTx(agg: Agg, batch: int, samples: seq<Sample>, now: int): Result<Agg> {
    if !Readable(agg, samples, now) then Failure(BadBlob)
    else if batch in agg.applied then Failure(DuplicateBatch)
    else Success(FoldBatch(agg, batch, samples, now))
  }

  lemma LastBatchMeaning(applied: map<int, int>)
    ensures applied == map[] ==> LastBatch(applied) == 0
    ensures applied != map[] ==> LastBatch(applied) in applied && forall b :: b in applied ==> b <= LastBatch(applied)
  {
    if applied != map[] {
      MaxExists(applied.Keys);
    }
  }

  /** COALESCE(MAX(batch_id), 0). */
  ghost function LastBatch(applied: map<int, int>): int {
    if applied == map[] then 0
    else
      MaxExists(applied.Keys);
      var m :| m in applied && forall b :: b in applied ==> b <= m;
      m
  }

  lemma {:induction false} MaxExists(s: set<int>)
    requires s != {}
    ensures exists m :: m in s && forall b :: b in s ==> b <= m
  {
    assert exists x :: x in s by {
      if forall x :: x !in s {
        assert false;
      }
    }
    var x :| x in s;
    var rest := s - {x};
    if rest == {} {
      assert s == {x};
    } else {
      MaxExists(rest);
      var m :| m in rest && forall b :: b in rest ==> b <= m;
      var top := if m <= x then x else m;
      assert forall b :: b in s ==> b in rest || b == x;
      assert top in s;
    }
  }
}
