/** The aggregate database and its one writing transaction, step by step. */
module Store {
  import opened Common
  import opened Histogram
  import opened Percentile
  import opened MapFolds
  import opened Aggregate

  // ---------------------------------------------------------------- the batch in memory

  /** The distinct histograms of a batch, by key; every one lives in its own array. */
  ghost predicate Separate<K>(added: map<K, array<uint32>>)
    reads added.Values
  {
    && (forall k :: k in added ==> added[k].Length == NUM_BINS)
    && (forall j, k :: j in added && k in added && j != k ==> added[j] != added[k])
  }

  method NewHist() returns (h: array<uint32>)
    ensures fresh(h) && h.Length == NUM_BINS && h[..] == Empty()
  {
    h := new uint32[NUM_BINS](i => 0);
    assert h[..] == Empty();
  }

  /** Adds one value under key `k`, starting an empty histogram for a key not seen before. */
  method Tally<K(==)>(added: map<K, array<uint32>>, k: K, ms: int) returns (after: map<K, array<uint32>>)
    requires Separate(added)
    modifies if k in added then {added[k]} else {}
    ensures after.Keys == added.Keys + {k} && Separate(after)
    ensures forall j :: j in added ==> after[j] == added[j]
    ensures forall j :: j in added && j != k ==> after[j][..] == old(added[j][..])
    ensures k !in added ==> fresh(after[k])
    ensures after[k][..] == Bump(if k in added then old(added[k][..]) else Empty(), BinFor(ms))
  {
    after := added;
    if k !in added {
      var h := NewHist();
      after := after[k := h];
    }
    Add(after[k], ms);
  }

  ghost predicate PagesOf(added: map<PageKey, array<uint32>>, samples: seq<Sample>)
    reads added.Values
  {
    && Separate(added)
    && added.Keys == Pages(samples)
    && (forall k :: k in added ==> added[k][..] == HistOf(OnPage(samples, k)))
  }

  predicate CountsOf(counts: map<PageKey, nat>, samples: seq<Sample>) {
    counts.Keys == Pages(samples) && forall k :: k in counts ==> counts[k] == |OnPage(samples, k)|
  }

  ghost predicate SitesOf(added: map<string, array<uint32>>, samples: seq<Sample>)
    reads added.Values
  {
    && Separate(added)
    && added.Keys == Sites(samples)
    && (forall s :: s in added ==> added[s][..] == HistOf(OnSite(samples, s)))
  }

  method TallyPage(added: map<PageKey, array<uint32>>, x: Sample, ghost before: seq<Sample>, ghost all: seq<Sample>)
      returns (added': map<PageKey, array<uint32>>)
    requires PagesOf(added, before) && all == before + [x]
    modifies added.Values
    ensures PagesOf(added', all)
    ensures forall k :: k in added' ==> (k in added && added'[k] == added[k]) || fresh(added'[k])
  {
    var key := PageOf(x);
    OnPageStep(before, x, all, key);
    added' := Tally(added, key, x.ms);
    assert added'[key][..] == HistOf(OnPage(all, key));
    forall k | k in added' && k != key
      ensures added'[k][..] == HistOf(OnPage(all, k))
    {
      assert k in added && old(added[k][..]) == HistOf(OnPage(before, k));
    }
  }

  method TallySite(added: map<string, array<uint32>>, x: Sample, ghost before: seq<Sample>, ghost all: seq<Sample>)
      returns (added': map<string, array<uint32>>)
    requires SitesOf(added, before) && all == before + [x]
    modifies added.Values
    ensures SitesOf(added', all)
    ensures forall s :: s in added' ==> (s in added && added'[s] == added[s]) || fresh(added'[s])
  {
    OnSiteStep(before, x, all, x.site);
    added' := Tally(added, x.site, x.ms);
    assert added'[x.site][..] == HistOf(OnSite(all, x.site));
    forall s | s in added' && s != x.site
      ensures added'[s][..] == HistOf(OnSite(all, s))
    {
      assert s in added && old(added[s][..]) == HistOf(OnSite(before, s));
    }
  }

  /** Collects the batch's samples per page. */
  method CollectPages(samples: seq<Sample>)
      returns (added: map<PageKey, array<uint32>>, counts: map<PageKey, nat>)
    ensures PagesOf(added, samples) && CountsOf(counts, samples) && forall k :: k in added ==> fresh(added[k])
  {
    added, counts := map[], map[];
    for i := 0 to |samples|
      invariant PagesOf(added, samples[..i]) && CountsOf(counts, samples[..i])
      invariant forall k :: k in added ==> fresh(added[k])
    {
      var k := PageOf(samples[i]);
      assert samples[..i + 1] == samples[..i] + [samples[i]];
      CountsStep(counts, samples[..i], samples[i], samples[..i + 1], k);
      added := TallyPage(added, samples[i], samples[..i], samples[..i + 1]);
      counts := counts[k := (if k in counts then counts[k] else 0) + 1];
    }
    assert samples[..|samples|] == samples;
  }

  /** Collects the batch's samples per site, afresh: the page histograms become bucket totals. */
  method CollectSites(samples: seq<Sample>) returns (added: map<string, array<uint32>>)
    ensures SitesOf(added, samples) && forall s :: s in added ==> fresh(added[s])
  {
    added := map[];
    for i := 0 to |samples|
      invariant SitesOf(added, samples[..i]) && forall s :: s in added ==> fresh(added[s])
    {
      assert samples[..i + 1] == samples[..i] + [samples[i]];
      added := TallySite(added, samples[i], samples[..i], samples[..i + 1]);
    }
    assert samples[..|samples|] == samples;
  }

  /** One more sample changes its own page's share and adds its page; other pages are as before. */
  lemma OnPageStep(init: seq<Sample>, x: Sample, all: seq<Sample>, key: PageKey)
    requires all == init + [x] && key == PageOf(x)
    ensures Pages(all) == Pages(init) + {key}
    ensures HistOf(OnPage(all, key)) == Bump(HistOf(OnPage(init, key)), BinFor(x.ms))
    ensures forall k :: k != key ==> HistOf(OnPage(all, k)) == HistOf(OnPage(init, k))
    ensures key !in Pages(init) ==> HistOf(OnPage(init, key)) == Empty()
  {
    assert all[..|all| - 1] == init;
    HistOfSnoc(OnPage(init, key), x.ms);
    AbsentPage(init, key);
    assert forall k :: k != key ==> OnPage(all, k) == OnPage(init, k);
  }

  lemma CountsStep(counts: map<PageKey, nat>, init: seq<Sample>, x: Sample, all: seq<Sample>, key: PageKey)
    requires CountsOf(counts, init) && all == init + [x] && key == PageOf(x)
    ensures CountsOf(counts[key := (if key in counts then counts[key] else 0) + 1], all)
  {
    assert all[..|all| - 1] == init;
    AbsentPage(init, key);
  }

  lemma {:induction false} AbsentPage(samples: seq<Sample>, key: PageKey)
    ensures key !in Pages(samples) ==> OnPage(samples, key) == []
  {
    if samples != [] {
      AbsentPage(samples[..|samples| - 1], key);
    }
  }

  lemma OnSiteStep(init: seq<Sample>, x: Sample, all: seq<Sample>, site: string)
    requires all == init + [x] && site == x.site
    ensures Sites(all) == Sites(init) + {site}
    ensures HistOf(OnSite(all, site)) == Bump(HistOf(OnSite(init, site)), BinFor(x.ms))
    ensures forall s :: s != site ==> HistOf(OnSite(all, s)) == HistOf(OnSite(init, s))
    ensures site !in Sites(init) ==> HistOf(OnSite(init, site)) == Empty()
  {
    assert all[..|all| - 1] == init;
    HistOfSnoc(OnSite(init, site), x.ms);
    AbsentSite(init, site);
    assert forall s :: s != site ==> OnSite(all, s) == OnSite(init, s);
  }

  lemma {:induction false} AbsentSite(samples: seq<Sample>, site: string)
    ensures site !in Sites(samples) ==> OnSite(samples, site) == []
  {
    if samples != [] {
      AbsentSite(samples[..|samples| - 1], site);
    }
  }

  // ---------------------------------------------------------------- one page, one site

  /** Merges the histograms of one page's buckets after `since`, in whatever order the rows come. */
  method TrailingHist(table: map<PageMinute, Bucket>, key: PageKey, since: int)
      returns (ok: bool, total: array<uint32>)
    ensures fresh(total) && total.Length == NUM_BINS
    ensures ok <==> WindowReadable(table, key, since)
    ensures ok ==> total[..] == Trailing(table, key, since)
  {
    total := NewHist();
    ghost var w := Window(table, key, since);
    var remaining := set r | r in table && r.key == key && r.minute > since;
    assert w - remaining == map[];
    while remaining != {}
      invariant remaining <= w.Keys
      invariant total[..] == MergeAll(w - remaining)
      invariant forall r :: r in w && r !in remaining ==> |table[r].hist| == BLOB_SIZE
      decreases remaining
    {
      var r :| r in remaining;
      var h := Decode(table[r].hist);
      if h.None? {
        return false, total;
      }
      Merge(total, h.value);
      MergeAllAdd(w - remaining, r, h.value);
      MergedLaws(h.value, MergeAll(w - remaining), h.value);
      assert w - (remaining - {r}) == (w - remaining)[r := h.value];
      remaining := remaining - {r};
    }
    assert w - {} == w;
    ok := true;
  }

  predicate WindowReadable(table: map<PageMinute, Bucket>, key: PageKey, since: int) {
    forall r :: r in table && r.key == key && r.minute > since ==> |table[r].hist| == BLOB_SIZE
  }

  /** Folds a page's share into its bucket of this minute; `h` becomes the bucket total. */
  method FoldBucket<K(==)>(table: map<K, Bucket>, at: K, h: array<uint32>, now: int)
      returns (ok: bool, table': map<K, Bucket>)
    requires h.Length == NUM_BINS
    modifies h
    ensures ok <==> (at in table ==> |table[at].hist| == BLOB_SIZE)
    ensures ok ==> table' == table[at := BucketOf(Merged(old(h[..]), StoredIn(table, at)), now)]
  {
    table' := table;
    if at in table {
      var before := Decode(table[at].hist);
      if before.None? {
        return false, table';
      }
      Merge(h, before.value);
    } else {
      MergedLaws(Empty(), h[..], h[..]);
      MergedLaws(h[..], Empty(), h[..]);
    }
    var n := Count(h);
    var blob := Encode(h);
    var p75 := ReadP75(h);
    table' := table[at := Bucket(n, blob[..], p75, now)];
    ok := true;
  }

  /** Folds one page's share: its bucket, then its running row from the trailing window, own bucket included. */
  method FoldPage(table: map<PageMinute, Bucket>, current: map<PageKey, Current>, k: PageKey, h: array<uint32>,
                  count: nat, now: int)
      returns (ok: bool, table': map<PageMinute, Bucket>, current': map<PageKey, Current>)
    requires h.Length == NUM_BINS
    modifies h
    ensures ok <==> WindowReadable(table, k, MinuteOf(now) - TRAILING_MINUTES)
    ensures ok ==> table' == WithBucket(table, k, old(h[..]), now)
    ensures ok ==> current' == WithRunning(current, table', k, count, now)
  {
    var minute := MinuteOf(now);
    current' := current;
    ok, table' := FoldBucket(table, PageMinute(k, minute), h, now);
    if !ok {
      return;
    }
    var trailing;
    ok, trailing := TrailingHist(table', k, minute - TRAILING_MINUTES);
    WindowAfterBucket(table, k, old(h[..]), now);
    if !ok {
      return;
    }
    var p75 := ReadP75(trailing);
    current' := current[k := Current((if k in current then current[k].count else 0) + count, p75, now)];
  }

  function WithBucket(table: map<PageMinute, Bucket>, k: PageKey, h: Hist, now: int): map<PageMinute, Bucket> {
    var at := PageMinute(k, MinuteOf(now));
    table[at := BucketOf(Merged(h, StoredIn(table, at)), now)]
  }

  ghost function WithRunning(current: map<PageKey, Current>, table: map<PageMinute, Bucket>, k: PageKey, count: nat,
                             now: int): map<PageKey, Current>
  {
    current[k := Recomputed(current, k, count, Trailing(table, k, MinuteOf(now) - TRAILING_MINUTES), now)]
  }

  lemma WindowAfterBucket(table: map<PageMinute, Bucket>, k: PageKey, h: Hist, now: int)
    ensures var at, since := PageMinute(k, MinuteOf(now)), MinuteOf(now) - TRAILING_MINUTES;
            WindowReadable(table, k, since) <==>
            (at in table ==> |table[at].hist| == BLOB_SIZE) && WindowReadable(WithBucket(table, k, h, now), k, since)
  {
    var at, since := PageMinute(k, MinuteOf(now)), MinuteOf(now) - TRAILING_MINUTES;
    var after := WithBucket(table, k, h, now);
    if WindowReadable(after, k, since) && (at in table ==> |table[at].hist| == BLOB_SIZE) {
      forall r | r in table && r.key == k && r.minute > since
        ensures |table[r].hist| == BLOB_SIZE
      {
        assert r in after;
      }
    }
  }

  // ---------------------------------------------------------------- all pages, all sites

  /** Rows of the pages still to come are untouched by those already folded. */
  lemma PageToCome(table: map<PageMinute, Bucket>, samples: seq<Sample>, now: int, done: set<PageKey>, k: PageKey,
                   since: int)
    requires k !in done
    ensures Window(FoldPages(table, samples, now, done), k, since) == Window(table, k, since)
    ensures WindowReadable(FoldPages(table, samples, now, done), k, since) <==> WindowReadable(table, k, since)
    ensures StoredIn(FoldPages(table, samples, now, done), PageMinute(k, MinuteOf(now)))
            == StoredIn(table, PageMinute(k, MinuteOf(now)))
  {
    var folded := FoldPages(table, samples, now, done);
    assert forall r: PageMinute ::
      r.key == k ==> (r in folded <==> r in table) && (r in table ==> folded[r] == table[r]);
  }

  lemma NewBucket(table: map<PageMinute, Bucket>, samples: seq<Sample>, now: int, done: set<PageKey>, k: PageKey)
    requires k !in done
    ensures var at, before := PageMinute(k, MinuteOf(now)), FoldPages(table, samples, now, done);
            && at in FoldPages(table, samples, now, done + {k})
            && FoldPages(table, samples, now, done + {k})[at]
               == BucketOf(Merged(HistOf(OnPage(samples, k)), StoredIn(before, at)), now)
  {
    PageToCome(table, samples, now, done, k, 0);
  }

  lemma OldBucket(table: map<PageMinute, Bucket>, samples: seq<Sample>, now: int, done: set<PageKey>, k: PageKey,
                  r: PageMinute)
    requires r != PageMinute(k, MinuteOf(now))
    ensures var before, after := FoldPages(table, samples, now, done), FoldPages(table, samples, now, done + {k});
            (r in after <==> r in before) && (r in after ==> after[r] == before[r])
  {
  }

  lemma FoldPagesStep(table: map<PageMinute, Bucket>, samples: seq<Sample>, now: int, done: set<PageKey>, k: PageKey)
    requires k !in done
    ensures FoldPages(table, samples, now, done + {k})
            == WithBucket(FoldPages(table, samples, now, done), k, HistOf(OnPage(samples, k)), now)
  {
    var before, after := FoldPages(table, samples, now, done), FoldPages(table, samples, now, done + {k});
    var at := PageMinute(k, MinuteOf(now));
    NewBucket(table, samples, now, done, k);
    forall r | r != at
      ensures (r in after <==> r in before) && (r in after ==> after[r] == before[r])
    {
      OldBucket(table, samples, now, done, k, r);
    }
    Updated(after, before, at, BucketOf(Merged(HistOf(OnPage(samples, k)), StoredIn(before, at)), now));
  }

  /** Folding another page leaves the windows of the others alone. */
  lemma OtherWindows(table: map<PageMinute, Bucket>, samples: seq<Sample>, now: int, done: set<PageKey>, k: PageKey,
                     j: PageKey, since: int)
    requires j != k
    ensures Window(FoldPages(table, samples, now, done + {k}), j, since)
            == Window(FoldPages(table, samples, now, done), j, since)
  {
    var a, b := FoldPages(table, samples, now, done + {k}), FoldPages(table, samples, now, done);
    assert forall r: PageMinute :: r.key == j ==> (r in a <==> r in b) && (r in b ==> a[r] == b[r]);
  }

  lemma FoldCurrentStep(table: map<PageMinute, Bucket>, current: map<PageKey, Current>, samples: seq<Sample>, now: int,
                        done: set<PageKey>, k: PageKey)
    requires k !in done
    ensures var t, t' := FoldPages(table, samples, now, done), FoldPages(table, samples, now, done + {k});
            FoldCurrent(current, t', samples, now, done + {k})
            == WithRunning(FoldCurrent(current, t, samples, now, done), t', k, |OnPage(samples, k)|, now)
  {
    var t, t' := FoldPages(table, samples, now, done), FoldPages(table, samples, now, done + {k});
    var since := MinuteOf(now) - TRAILING_MINUTES;
    forall j | j in done
      ensures Trailing(t', j, since) == Trailing(t, j, since)
    {
      OtherWindows(table, samples, now, done, k, j, since);
    }
    SameRunning(current, t, t', samples, now, done, k);
  }

  lemma RunningAt(current: map<PageKey, Current>, buckets: map<PageMinute, Bucket>, samples: seq<Sample>, now: int,
                  keys: set<PageKey>, j: PageKey)
    requires j in current || j in keys
    ensures var row := FoldCurrent(current, buckets, samples, now, keys)[j];
            if j in keys
            then row == Recomputed(current, j, |OnPage(samples, j)|,
                                   Trailing(buckets, j, MinuteOf(now) - TRAILING_MINUTES), now)
            else row == current[j]
  {
  }

  lemma OtherRunning(current: map<PageKey, Current>, t: map<PageMinute, Bucket>, t': map<PageMinute, Bucket>,
                     samples: seq<Sample>, now: int, done: set<PageKey>, k: PageKey, j: PageKey)
    requires j != k && (j in current || j in done)
    requires j in done ==>
      Trailing(t', j, MinuteOf(now) - TRAILING_MINUTES) == Trailing(t, j, MinuteOf(now) - TRAILING_MINUTES)
    ensures FoldCurrent(current, t', samples, now, done + {k})[j] == FoldCurrent(current, t, samples, now, done)[j]
  {
    RunningAt(current, t', samples, now, done + {k}, j);
    RunningAt(current, t, samples, now, done, j);
  }

  lemma NotYetRecomputed(current: map<PageKey, Current>, t: map<PageMinute, Bucket>, samples: seq<Sample>, now: int,
                         done: set<PageKey>, k: PageKey, n: nat, trailing: Hist)
    requires k !in done
    ensures Recomputed(FoldCurrent(current, t, samples, now, done), k, n, trailing, now)
            == Recomputed(current, k, n, trailing, now)
  {
    if k in current {
      RunningAt(current, t, samples, now, done, k);
    }
  }

  ghost predicate SameElsewhere<K(!new), V>(after: map<K, V>, before: map<K, V>, k: K) {
    forall j :: j != k ==> (j in after <==> j in before) && (j in after ==> after[j] == before[j])
  }

  lemma Updated<K(!new), V>(after: map<K, V>, before: map<K, V>, k: K, v: V)
    requires k in after && after[k] == v && SameElsewhere(after, before, k)
    ensures after == before[k := v]
  {
  }

  predicate SameAt<K, V(==)>(a: map<K, V>, b: map<K, V>, k: K) {
    k in a && k in b && a[k] == b[k]
  }

  lemma BothUpdated<K(!new), V>(after: map<K, V>, other: map<K, V>, before: map<K, V>, k: K)
    requires SameAt(after, other, k) && SameElsewhere(after, before, k) && SameElsewhere(other, before, k)
    ensures after == other
  {
    assert forall j :: j in after <==> j in other;
  }

  lemma SameRunning(current: map<PageKey, Current>, t: map<PageMinute, Bucket>, t': map<PageMinute, Bucket>,
                    samples: seq<Sample>, now: int, done: set<PageKey>, k: PageKey)
    requires k !in done
    requires forall j :: j in done ==>
      Trailing(t', j, MinuteOf(now) - TRAILING_MINUTES) == Trailing(t, j, MinuteOf(now) - TRAILING_MINUTES)
    ensures FoldCurrent(current, t', samples, now, done + {k})
            == WithRunning(FoldCurrent(current, t, samples, now, done), t', k, |OnPage(samples, k)|, now)
  {
    var after := FoldCurrent(current, t', samples, now, done + {k});
    var before := FoldCurrent(current, t, samples, now, done);
    var trailing := Trailing(t', k, MinuteOf(now) - TRAILING_MINUTES);
    NewRow(current, t, t', samples, now, done, k, before, trailing);
    WithRunningAt(before, t', k, |OnPage(samples, k)|, now, trailing);
    OtherRows(current, t, t', samples, now, done, k, after, before);
    BothUpdated(after, WithRunning(before, t', k, |OnPage(samples, k)|, now), before, k);
  }

  lemma OtherRows(current: map<PageKey, Current>, t: map<PageMinute, Bucket>, t': map<PageMinute, Bucket>,
                  samples: seq<Sample>, now: int, done: set<PageKey>, k: PageKey,
                  after: map<PageKey, Current>, before: map<PageKey, Current>)
    requires forall j :: j in done ==>
      Trailing(t', j, MinuteOf(now) - TRAILING_MINUTES) == Trailing(t, j, MinuteOf(now) - TRAILING_MINUTES)
    requires after == FoldCurrent(current, t', samples, now, done + {k})
    requires before == FoldCurrent(current, t, samples, now, done)
    ensures SameElsewhere(after, before, k)
  {
    forall j | j != k
      ensures (j in after <==> j in before) && (j in after ==> after[j] == before[j])
    {
      SameRow(current, t, t', samples, now, done, k, j);
    }
  }

  lemma WithRunningAt(current: map<PageKey, Current>, table: map<PageMinute, Bucket>, k: PageKey, count: nat, now: int,
                      trailing: Hist)
    requires trailing == Trailing(table, k, MinuteOf(now) - TRAILING_MINUTES)
    ensures var with := WithRunning(current, table, k, count, now);
            k in with && with[k] == Recomputed(current, k, count, trailing, now) && SameElsewhere(with, current, k)
  {
  }

  lemma NewRow(current: map<PageKey, Current>, t: map<PageMinute, Bucket>, t': map<PageMinute, Bucket>,
               samples: seq<Sample>, now: int, done: set<PageKey>, k: PageKey,
               before: map<PageKey, Current>, trailing: Hist)
    requires k !in done && before == FoldCurrent(current, t, samples, now, done)
    requires trailing == Trailing(t', k, MinuteOf(now) - TRAILING_MINUTES)
    ensures var after := FoldCurrent(current, t', samples, now, done + {k});
            k in after && after[k] == Recomputed(before, k, |OnPage(samples, k)|, trailing, now)
  {
    RunningAt(current, t', samples, now, done + {k}, k);
    NotYetRecomputed(current, t, samples, now, done, k, |OnPage(samples, k)|, trailing);
  }

  lemma SameRow(current: map<PageKey, Current>, t: map<PageMinute, Bucket>, t': map<PageMinute, Bucket>,
                samples: seq<Sample>, now: int, done: set<PageKey>, k: PageKey, j: PageKey)
    requires j != k
    requires j in done ==>
      Trailing(t', j, MinuteOf(now) - TRAILING_MINUTES) == Trailing(t, j, MinuteOf(now) - TRAILING_MINUTES)
    ensures var after := FoldCurrent(current, t', samples, now, done + {k});
            var before := FoldCurrent(current, t, samples, now, done);
            (j in after <==> j in before) && (j in after ==> after[j] == before[j])
  {
    if j in current || j in done {
      OtherRunning(current, t, t', samples, now, done, k, j);
    }
  }

  lemma PagesReadableIff(table: map<PageMinute, Bucket>, now: int, keys: set<PageKey>)
    ensures PagesReadable(table, now, keys) <==>
            forall k :: k in keys ==> WindowReadable(table, k, MinuteOf(now) - TRAILING_MINUTES)
  {
    if forall k :: k in keys ==> WindowReadable(table, k, MinuteOf(now) - TRAILING_MINUTES) {
      forall r | r in table && r.key in keys && r.minute > MinuteOf(now) - TRAILING_MINUTES
        ensures |table[r].hist| == BLOB_SIZE
      {
        assert WindowReadable(table, r.key, MinuteOf(now) - TRAILING_MINUTES);
      }
    }
  }

  /** The next page's turn, after the pages in `done`. */
  method FoldNextPage(table: map<PageMinute, Bucket>, current: map<PageKey, Current>, k: PageKey, h: array<uint32>,
                      count: nat, now: int, ghost table0: map<PageMinute, Bucket>,
                      ghost current0: map<PageKey, Current>,
                      ghost samples: seq<Sample>, ghost done: set<PageKey>)
      returns (ok: bool, table': map<PageMinute, Bucket>, current': map<PageKey, Current>)
    requires h.Length == NUM_BINS && h[..] == HistOf(OnPage(samples, k)) && count == |OnPage(samples, k)| && k !in done
    requires table == FoldPages(table0, samples, now, done)
    requires current == FoldCurrent(current0, table, samples, now, done)
    modifies h
    ensures ok <==> WindowReadable(table0, k, MinuteOf(now) - TRAILING_MINUTES)
    ensures ok ==> table' == FoldPages(table0, samples, now, done + {k})
    ensures ok ==> current' == FoldCurrent(current0, table', samples, now, done + {k})
  {
    PageToCome(table0, samples, now, done, k, MinuteOf(now) - TRAILING_MINUTES);
    FoldPagesStep(table0, samples, now, done, k);
    FoldCurrentStep(table0, current0, samples, now, done, k);
    ok, table', current' := FoldPage(table, current, k, h, count, now);
  }

  lemma NothingFolded(table: map<PageMinute, Bucket>, current: map<PageKey, Current>, samples: seq<Sample>, now: int)
    ensures FoldPages(table, samples, now, {}) == table
    ensures FoldCurrent(current, table, samples, now, {}) == current
  {
    SameMap(FoldPages(table, samples, now, {}), table);
    SameMap(FoldCurrent(current, table, samples, now, {}), current);
  }

  lemma OneDone<K>(all: set<K>, remaining: set<K>, k: K)
    requires k in remaining && remaining <= all
    ensures all - (remaining - {k}) == (all - remaining) + {k}
  {
  }

  lemma AllDone<K>(all: set<K>)
    ensures all - {} == all && all - all == {}
  {
  }

  /** The page loop: the pages of the batch, in whatever order the map yields them. */
  method FoldEachPage(added: map<PageKey, array<uint32>>, counts: map<PageKey, nat>, table: map<PageMinute, Bucket>,
                      current: map<PageKey, Current>, now: int, ghost samples: seq<Sample>,
                      ghost shares: map<PageKey, Hist>)
      returns (ok: bool, table': map<PageMinute, Bucket>, current': map<PageKey, Current>)
    requires Separate(added) && added.Keys == counts.Keys == shares.Keys
    requires forall k :: k in added ==> added[k][..] == shares[k]
    requires forall k :: k in shares ==> shares[k] == HistOf(OnPage(samples, k)) && counts[k] == |OnPage(samples, k)|
    modifies added.Values
    ensures ok <==> forall k :: k in added ==> WindowReadable(table, k, MinuteOf(now) - TRAILING_MINUTES)
    ensures ok ==> table' == FoldPages(table, samples, now, added.Keys)
    ensures ok ==> current' == FoldCurrent(current, table', samples, now, added.Keys)
  {
    table', current' := table, current;
    var remaining := added.Keys;
    NothingFolded(table, current, samples, now);
    AllDone(added.Keys);
    while remaining != {}
      invariant remaining <= added.Keys
      invariant forall k :: k in remaining ==> added[k][..] == shares[k]
      invariant forall k :: k in added && k !in remaining ==>
        WindowReadable(table, k, MinuteOf(now) - TRAILING_MINUTES)
      invariant table' == FoldPages(table, samples, now, added.Keys - remaining)
      invariant current' == FoldCurrent(current, table', samples, now, added.Keys - remaining)
      decreases remaining
    {
      var k :| k in remaining;
      ok, table', current' :=
        FoldNextPage(table', current', k, added[k], counts[k], now, table, current, samples, added.Keys - remaining);
      if !ok {
        return;
      }
      OneDone(added.Keys, remaining, k);
      remaining := remaining - {k};
    }
    ok := true;
  }

  method FoldAllPages(table: map<PageMinute, Bucket>, current: map<PageKey, Current>, samples: seq<Sample>, now: int)
      returns (ok: bool, table': map<PageMinute, Bucket>, current': map<PageKey, Current>)
    ensures ok <==> PagesReadable(table, now, Pages(samples))
    ensures ok ==> table' == FoldPages(table, samples, now, Pages(samples))
    ensures ok ==> current' == FoldCurrent(current, table', samples, now, Pages(samples))
  {
    var added, counts := CollectPages(samples);
    PagesReadableIff(table, now, Pages(samples));
    ghost var shares := map k | k in Pages(samples) :: HistOf(OnPage(samples, k));
    ok, table', current' := FoldEachPage(added, counts, table, current, now, samples, shares);
  }

  function WithSite(table: map<SiteMinute, Bucket>, s: string, h: Hist, now: int): map<SiteMinute, Bucket> {
    var at := SiteMinute(s, MinuteOf(now));
    table[at := BucketOf(Merged(h, StoredIn(table, at)), now)]
  }

  lemma SiteToCome(table: map<SiteMinute, Bucket>, samples: seq<Sample>, now: int, done: set<string>, s: string)
    requires s !in done
    ensures var at, folded := SiteMinute(s, MinuteOf(now)), FoldSites(table, samples, now, done);
            (at in folded <==> at in table) && (at in table ==> folded[at] == table[at])
  {
  }

  lemma NewSiteBucket(table: map<SiteMinute, Bucket>, samples: seq<Sample>, now: int, done: set<string>, s: string)
    requires s !in done
    ensures var at, before := SiteMinute(s, MinuteOf(now)), FoldSites(table, samples, now, done);
            && at in FoldSites(table, samples, now, done + {s})
            && FoldSites(table, samples, now, done + {s})[at]
               == BucketOf(Merged(HistOf(OnSite(samples, s)), StoredIn(before, at)), now)
  {
    SiteToCome(table, samples, now, done, s);
  }

  lemma OldSiteBucket(table: map<SiteMinute, Bucket>, samples: seq<Sample>, now: int, done: set<string>, s: string,
                      r: SiteMinute)
    requires r != SiteMinute(s, MinuteOf(now))
    ensures var before, after := FoldSites(table, samples, now, done), FoldSites(table, samples, now, done + {s});
            (r in after <==> r in before) && (r in after ==> after[r] == before[r])
  {
  }

  lemma FoldSitesStep(table: map<SiteMinute, Bucket>, samples: seq<Sample>, now: int, done: set<string>, s: string)
    requires s !in done
    ensures FoldSites(table, samples, now, done + {s})
            == WithSite(FoldSites(table, samples, now, done), s, HistOf(OnSite(samples, s)), now)
  {
    var before, after := FoldSites(table, samples, now, done), FoldSites(table, samples, now, done + {s});
    var at := SiteMinute(s, MinuteOf(now));
    NewSiteBucket(table, samples, now, done, s);
    forall r | r != at
      ensures (r in after <==> r in before) && (r in after ==> after[r] == before[r])
    {
      OldSiteBucket(table, samples, now, done, s, r);
    }
    Updated(after, before, at, BucketOf(Merged(HistOf(OnSite(samples, s)), StoredIn(before, at)), now));
  }

  method FoldNextSite(table: map<SiteMinute, Bucket>, s: string, h: array<uint32>, now: int,
                      ghost table0: map<SiteMinute, Bucket>, ghost samples: seq<Sample>, ghost done: set<string>)
      returns (ok: bool, table': map<SiteMinute, Bucket>)
    requires h.Length == NUM_BINS && h[..] == HistOf(OnSite(samples, s)) && s !in done
    requires table == FoldSites(table0, samples, now, done)
    modifies h
    ensures ok <==> SitesReadable(table0, now, {s})
    ensures ok ==> table' == FoldSites(table0, samples, now, done + {s})
  {
    SiteToCome(table0, samples, now, done, s);
    FoldSitesStep(table0, samples, now, done, s);
    assert SitesReadable(table0, now, {s}) <==>
           (SiteMinute(s, MinuteOf(now)) in table0 ==> |table0[SiteMinute(s, MinuteOf(now))].hist| == BLOB_SIZE);
    ok, table' := FoldBucket(table, SiteMinute(s, MinuteOf(now)), h, now);
  }

  /** The site loop. */
  method FoldEachSite(added: map<string, array<uint32>>, table: map<SiteMinute, Bucket>, now: int,
                      ghost samples: seq<Sample>, ghost shares: map<string, Hist>)
      returns (ok: bool, table': map<SiteMinute, Bucket>)
    requires Separate(added) && added.Keys == shares.Keys
    requires forall s :: s in added ==> added[s][..] == shares[s]
    requires forall s :: s in shares ==> shares[s] == HistOf(OnSite(samples, s))
    modifies added.Values
    ensures ok <==> SitesReadable(table, now, added.Keys)
    ensures ok ==> table' == FoldSites(table, samples, now, added.Keys)
  {
    table' := table;
    var remaining := added.Keys;
    SameMap(FoldSites(table, samples, now, {}), table);
    AllDone(added.Keys);
    while remaining != {}
      invariant remaining <= added.Keys
      invariant forall s :: s in remaining ==> added[s][..] == shares[s]
      invariant SitesReadable(table, now, added.Keys - remaining)
      invariant table' == FoldSites(table, samples, now, added.Keys - remaining)
      decreases remaining
    {
      var s :| s in remaining;
      ok, table' := FoldNextSite(table', s, added[s], now, table, samples, added.Keys - remaining);
      if !ok {
        return;
      }
      OneDone(added.Keys, remaining, s);
      remaining := remaining - {s};
    }
    ok := true;
  }

  method FoldAllSites(table: map<SiteMinute, Bucket>, samples: seq<Sample>, now: int)
      returns (ok: bool, table': map<SiteMinute, Bucket>)
    ensures ok <==> SitesReadable(table, now, Sites(samples))
    ensures ok ==> table' == FoldSites(table, samples, now, Sites(samples))
  {
    var added := CollectSites(samples);
    ghost var shares := map s | s in Sites(samples) :: HistOf(OnSite(samples, s));
    ok, table' := FoldEachSite(added, table, now, samples, shares);
  }

  // ---------------------------------------------------------------- the database

  class Store {
    var pageMinute: map<PageMinute, Bucket>
    var pageCurrent: map<PageKey, Current>
    var siteMinute: map<SiteMinute, Bucket>
    var appliedBatches: map<int, int>

    function State(): Agg
      reads this
    {
      Agg(pageMinute, pageCurrent, siteMinute, appliedBatches)
    }

    /** Opens a volume: the tables an earlier process left, or four empty ones on a fresh one. */
    constructor Open(volume: Option<Agg>)
      ensures volume.None? ==> State() == EMPTY_AGG
      ensures volume.Some? ==> State() == volume.value
    {
      match volume {
        case None =>
          pageMinute, pageCurrent, siteMinute, appliedBatches := map[], map[], map[], map[];
        case Some(left) =>
          pageMinute, pageCurrent := left.pageMinute, left.pageCurrent;
          siteMinute, appliedBatches := left.siteMinute, left.applied;
      }
    }

    /** COALESCE(MAX(batch_id), 0) over the markers. */
    method LastBatchID(fault: Fault) returns (failed: bool, id: int)
      ensures failed == (fault != NoFault)
      ensures !failed ==> id == LastBatch(appliedBatches)
      ensures !failed && appliedBatches == map[] ==> id == 0
      ensures !failed && appliedBatches != map[] ==> id in appliedBatches && forall b :: b in appliedBatches ==> b <= id
    {
      failed, id := fault != NoFault, 0;
      if failed || appliedBatches == map[] {
        return;
      }
      var remaining := appliedBatches.Keys;
      MaxExists(remaining);
      id :| id in remaining;
      while remaining != {}
        invariant id in appliedBatches && remaining <= appliedBatches.Keys
        invariant forall b :: b in appliedBatches && b !in remaining ==> b <= id
        decreases remaining
      {
        MaxExists(remaining);
        var b :| b in remaining;
        if b > id {
          id := b;
        }
        remaining := remaining - {b};
      }
    }

    method Applied(batch: int, fault: Fault) returns (failed: bool, applied: bool)
      ensures failed == (fault != NoFault)
      ensures !failed ==> applied == (batch in appliedBatches)
    {
      failed, applied := fault != NoFault, batch in appliedBatches;
    }

    /** Folds one batch in a single transaction: all four tables change together, or none does. */
    method Apply(batch: int, samples: seq<Sample>, now: int, fault: Fault) returns (err: Option<Error>)
      modifies this
      ensures match ApplyTx(old(State()), batch, samples, now)
              case Failure(e) => err == Some(e) && State() == old(State())
              case Success(after) =>
                && err == (if fault == NoFault then None else Some(IoError))
                && State() == (if fault == LostBeforeCommit then old(State()) else after)
      ensures err.None? ==> batch in appliedBatches && appliedBatches[batch] == now
      ensures err.None? ==> forall b ::
        && (b in appliedBatches <==> (b in old(appliedBatches) || b == batch) && b > batch - 1000)
        && (b in appliedBatches && b != batch ==> appliedBatches[b] == old(appliedBatches)[b])
    {
      var ok, pages, running := FoldAllPages(pageMinute, pageCurrent, samples, now);
      if !ok {
        return Some(BadBlob);
      }
      var sites;
      ok, sites := FoldAllSites(siteMinute, samples, now);
      if !ok {
        return Some(BadBlob);
      }
      if batch in appliedBatches {
        return Some(DuplicateBatch);
      }
      var marked := appliedBatches[batch := now];
      var kept := map b | b in marked && b > batch - KEEP_BATCHES :: marked[b];
      assert kept == Mark(appliedBatches, batch, now);
      MarkMeaning(appliedBatches, batch, now);
      if fault != LostBeforeCommit {
        pageMinute, pageCurrent, siteMinute, appliedBatches := pages, running, sites, kept;
      }
      err := if fault == NoFault then None else Some(IoError);
    }
  }
}
