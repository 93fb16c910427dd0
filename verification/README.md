# Verification of the worker's pipeline

This project models, in Dafny, how the platform counts events without losing or double-counting any,
and proves that it does.

The producer inserts events into a queue table. The worker moves them into aggregate tables in another
database file, one batch at a time, in three separate transactions: claim the oldest rows, apply them to
the aggregates together with a batch marker, delete them. Any crash leaves the two files at some point
between these transactions; at startup the worker looks at the claims left behind and either finishes the
deletion or frees the rows.

| file | models |
|---|---|
| Common, Powers, Sequences, MapFolds | shared types; powers of integers; permutations, sorting, ranks and filtering; sums and merges over maps |
| Histogram, HistogramTheory, Percentile | the 128-bin histogram, its codec, its percentile, and what they mean |
| Aggregate, Store | the aggregate tables, one Apply transaction as a function, and the step-by-step transaction proved against it |
| Rebuild, Folding, Tables, Running | the tables as a function of the log of folded samples; Apply extends that log; what the tables say; when a running row can be rebuilt from its buckets |
| Meaning | the stored figures of any run, said of the accepted events and their LCP values alone |
| Queue | the queue table: statements as functions on rows, and the worker's handle as a class |
| Protocol, Invariant, Theorems, Drain | producer, worker and both databases as a step machine; its invariant; the main results; recovery and progress |
| Driver, Loop, Stats | startup, tick and event loop as steps for every fate of their transactions; the driver, proved to take exactly those steps; counters and the ring of durations |
| NormPath, DocGate | the documentation gate's path normaliser and its reachability worklist |

How it is modelled:

- One worker. Every transaction is one step; enqueues and crashes may come between any two steps. A crash is
  a process crash, so committed transactions survive. A failing transaction is a crash just before or just
  after its commit (`Common.Fault`).
- The batch limit is any integer, and each start of the worker may bring another: SQL reads a negative LIMIT
  as no limit. Results that need a limit of at least 1 say so. The clock is any integer and may go back,
  except where a result says otherwise.
- A new row gets the greatest id plus one, or 1 in an empty table. Row orders that SQL leaves open, and
  the iteration order of maps, are arbitrary choices.
- Counters of the histogram wrap modulo 2^32, as the worker's do. Where that matters the exact condition is
  part of the result.
- Bin edges are irrational. They are read exactly, by their 128th powers: `EdgePow(b)` is the 128th power of
  50 * 600^(b/128). Three quarters of the count is compared as 4 * cum >= 3 * total.
- `Sys` carries, besides the databases and the process, the history that the results speak of: accepted
  events, folded events and applied batch ids.

Where the code and its comments differ, the model follows the code. The percentile comment and test promise
an edge never below the value and at most one bin above it: the first holds iff the value is at most
30000, the second iff it is at least 50. The site comment (store.go, lines 162-168) promises counts without double-counting:
site and page counts agree iff no bin total wraps. page_current is said to be
derived from page_minute (store.go, lines 24-27): a running row is what its buckets say iff no bucket of the
page lies after the minute of its last_seen and no bucket counter wrapped. The clock going back inside a minute
does no harm; going back to before a minute in which the page has a bucket does.

## Model

| member | source | states |
|---|---|---|
| Theorems.OneLogOneCursor | services/worker/internal/loop/loop.go:26-86 | After any interleaving of enqueues, ticks, crashes and recoveries there is a log whose events are exactly a prefix of the accepted events in arrival order; what was folded is that log up to order inside batches, the three tables are those of the log, and the queue in id order is the matching suffix, overlapping the prefix only in claimed rows whose batch is marked applied |
| Theorems.StepRefines | services/worker/internal/loop/loop.go:64-86 | Every step of every reachable state appends one accepted event, or moves the cursor over the oldest unfolded events (at most a batch), or is invisible; the newly folded events are a permutation of exactly those |
| Invariant.RunKeeps | services/worker/internal/loop/loop.go:39-86 | The full invariant (queue shape, numbering, markers, process memory, log) holds after every run |
| Invariant.StepKeeps | services/worker/internal/loop/loop.go:39-86 | Each single transaction, and a crash before or after it, keeps the invariant |
| Invariant.EnqueueKeeps | services/worker/internal/queue/queue.go:56-64 | An insert at any moment, also while a batch is in flight or during recovery, keeps the invariant |
| Invariant.RecoverOneKeeps | services/worker/internal/loop/loop.go:42-62 | Resolving one claim found at startup keeps the invariant and leaves the log as it was: applied batches are deleted, others freed |
| Invariant.ClaimKeeps | services/worker/internal/loop/loop.go:66-75 | A claim with the returned rows in any order keeps the invariant |
| Invariant.ApplyKeeps | services/worker/internal/loop/loop.go:76-78 | Applying a claimed batch succeeds, keeps the invariant, and extends the log by exactly the claimed events in arrival order |
| Invariant.AckKeeps | services/worker/internal/loop/loop.go:79-85 | The acknowledgement that ends a tick keeps the invariant |
| Theorems.PruningIsSafe | services/worker/internal/aggregate/store.go:202-211 | All in-flight rows share one claim id, the last batch id or the next; for it the pruned markers answer as the unpruned history would; pruning never changes the last batch id, and the marker about to be inserted is new |
| Invariant.LastBatchIs | services/worker/internal/aggregate/store.go:77-82 | With the newest 1000 markers kept, the greatest one is the number of batches ever applied, 0 for none |
| Invariant.MarkKeeps | services/worker/internal/aggregate/store.go:202-211 | Inserting the next marker and pruning keeps exactly the newest 1000, and the insert does not conflict |
| Theorems.ApplyNeverFails | services/worker/internal/aggregate/store.go:106-211 | In every reachable state every blob Apply could read decodes, and applying a claimed batch succeeds at any clock reading |
| Theorems.AckDeletesFoldedBatch | services/worker/internal/queue/queue.go:90-94 | Every acknowledgement, from a tick or from recovery, deletes exactly the claimed rows, which are the oldest, and all of them hold events already folded; what stays is exactly the unfolded events |
| Theorems.DepthsDifferByOneBatch | services/worker/internal/queue/queue.go:122-131 | At every moment all rows minus unclaimed rows is at most one batch: the limit in force at the last claim, and so the largest limit any process of the run was started with |
| Theorems.CountersAreExact | services/worker/internal/loop/loop.go:79-86 | Between ticks, events consumed is what this process folded, batches applied is what it applied, next is the start plus the batches, and the running counts of all pages add up to what was folded before the process started plus what it consumed |
| Theorems.PageTotals | services/worker/internal/aggregate/store.go:145-159 | After any run, the running count of each site and page is exactly the number of its events among the folded prefix of the accepted events, and a row exists iff there is one |
| Theorems.TablesOfRun | services/worker/internal/aggregate/store.go:96-200 | After any run there is a log of the folded events in arrival order, with the arrival times they were folded under: each page_minute row exists iff a sample of that log falls into it and describes those samples; each site row is the merge of its page rows; each running percentile is that of the merged window |
| Theorems.PercentilesOfRun | services/worker/internal/aggregate/histogram.go:58-74 | After any run every stored percentile q-hat of every table brackets the true nearest-rank percentile q of its samples in that log: q <= q-hat iff q <= 30000, and q-hat - 1/2 <= q * 600^(1/128) iff q >= 50, while no bin reaches 2^32 |
| Meaning.FiguresOfRun | services/worker/internal/aggregate/store.go:92-213 | After any run, said of the accepted events alone: every row of the three tables exists iff a folded event belongs to it, and its blob, count, last_seen and percentile are those of the nearest-millisecond LCP values of exactly those events; a running percentile is over the events after the minute of last_seen minus 60; the percentile is the rounded upper edge of the bin of the 75th percentile |
| Meaning.SelectedValues | services/worker/internal/loop/loop.go:88-100 | The values behind a group of samples are, one by one and in order, the nearest integers to the lcp_ms of exactly the events of the group |
| Meaning.P75OfValues | services/worker/internal/aggregate/histogram.go:58-74 | The reported percentile of any values: the rounded upper edge, written out with 50, 600 and 128, of the bin of their 75th percentile, at least it iff it is at most 30000, within one bin ratio iff it is at least 50 |
| Theorems.RunningRowsRebuildIff | services/worker/internal/aggregate/store.go:24-27 | After any run, with any clock, the whole running row (count, percentile, last_seen) is the one computed from its page_minute rows iff no bucket of the page lies after the minute of its last_seen and no bucket counter wrapped |
| Theorems.RunningRowNewestIff | services/worker/internal/aggregate/store.go:145-159 | Checked before the call: applying the claimed batch at a clock reading leaves the running row of a page in it the newest over its buckets iff the page has no bucket after that minute |
| Theorems.RunningRowIsNewest | services/worker/internal/aggregate/store.go:145-159 | If the clock never goes back, last_seen of a running row is the newest over its page buckets and no bucket lies after its minute, so only a wrapped counter keeps the row from being rebuilt |
| Theorems.FoldedInClockOrder | services/worker/internal/loop/loop.go:64-86 | If the clock readings given to Apply never go back, neither do the arrival times in the folded history |
| Theorems.RowOrderIrrelevant | services/worker/internal/queue/queue.go:66-88 | Two runs that differ only in the order in which claims returned their rows end with equal databases |
| Drain.StartupRecovers | services/worker/internal/loop/loop.go:26-62 | From any crash point, startup without error ends with nothing in flight, the log and tables unchanged, and the batch numbering continued, under whatever batch limit it is given |
| Drain.TickFolds | services/worker/internal/loop/loop.go:64-86 | A tick folds the oldest min(limit, queued at its claim) events, in whatever order its rows come back and whatever is inserted before its claim, its Apply and its acknowledgement; the queue is then exactly the unfolded events |
| Drain.TicksDrain | services/worker/internal/loop/loop.go:64-86 | With no inserts, after m ticks with limit n, rows returned in any order, exactly the events beyond the first m * n are left |
| Drain.DrainsFromAnywhere | services/worker/internal/loop/loop.go:39-86 | From any reachable state, a restart with any limit of at least 1 and m ticks without inserts, rows returned in any order, end with an empty queue iff the unfolded events fit into m batches, and then everything accepted is folded |
| Drain.WaitIsBounded | services/worker/internal/loop/loop.go:39-86 | Bounded wait: after any run and restart, the accepted event at position p is folded within ceil((p + 1 - cursor) / limit) ticks while the producer goes on inserting at any point |
| Drain.FoldedAtLeast | services/worker/internal/loop/loop.go:64-86 | After m ticks with limit n at least the first m * n waiting events are folded, whatever is inserted meanwhile |
| Drain.LoopDrains | services/worker/internal/loop/loop.go:102-117 | The event loop, while no tick fails, leaves exactly the events beyond the first m * n after m firings of its timer |
| Drain.CleanStartupIs | services/worker/internal/loop/loop.go:26-62 | A startup none of whose statements fails takes exactly the steps list, resolve each, take up the numbering |
| Drain.TickConservesIff | services/worker/internal/loop/loop.go:66-86 | On any queue whatsoever, claiming and acknowledging a batch removes only events it handed out iff no row carried that batch id before: an erring tick must not be followed by another without recovery |
| Drain.ErringTickLoses | services/worker/internal/loop/loop.go:66-86 | The failing input: a claim that committed but reported an error, followed by another tick of the same process; the second acknowledgement deletes an event that was never handed to Apply |
| Queue.ClaimTakesOldest | services/worker/internal/queue/queue.go:66-88 | With ids in arrival order a claim picks the first unclaimed rows by arrival, up to the limit |
| Queue.EnqueueKeepsOrder | services/api/api/db.py:22-27 | A new row always gets the greatest id, so id order stays arrival order although ids are used again |
| Queue.IdsComeBack | services/api/api/db.py:22-27 | Once the claimed rows were the whole table and are deleted, the next row is number 1 again |
| Queue.MaxIdIsMax | services/worker/internal/queue/queue.go:35-44 | The id a new row is numbered after is the greatest id present |
| Queue.OlderIsEarlier | services/worker/internal/queue/queue.go:66-75 | The number of older unclaimed rows by id is the number of earlier unclaimed rows by arrival |
| Queue.AckKeepsOrder | services/worker/internal/queue/queue.go:90-94 | Acknowledging removes exactly the rows of the batch and keeps the order of the others |
| Queue.AckFilters | services/worker/internal/queue/queue.go:90-94 | On any table at all, acknowledging leaves exactly the rows that do not carry the batch id, in their order |
| Queue.UnclaimClears | services/worker/internal/queue/queue.go:96-101 | On any table at all, freeing a batch clears its own claim id and changes nothing else |
| Queue.ClaimMarksOldest | services/worker/internal/queue/queue.go:66-75 | On any table at all, a claim changes nothing but the claim ids of unclaimed rows, all with smaller ids than the unclaimed rows it leaves |
| Queue.PickedAreMarked | services/worker/internal/queue/queue.go:70-76 | The events handed out are those of exactly the rows marked |
| Queue.UnclaimedFilters | services/worker/internal/queue/queue.go:126-131 | The rows counted by the depth are exactly those without a claim id |
| Invariant.AckDropsBlock | services/worker/internal/queue/queue.go:90-94 | Deleting the claimed block leaves exactly the rows after it |
| Invariant.UnclaimFreesBlock | services/worker/internal/queue/queue.go:96-101 | Freeing a batch leaves all events in place with nothing claimed |
| Invariant.ClaimMarksBlock | services/worker/internal/queue/queue.go:66-88 | A claim on a queue with nothing in flight marks a prefix and returns its events |
| Invariant.ClaimIdsOfShape | services/worker/internal/queue/queue.go:103-120 | Whatever order the distinct claim ids are listed in, there is at most one |
| Queue.Queue.Open | services/worker/internal/queue/queue.go:28-52 | A volume opens with the rows an earlier process left, a fresh one with an empty queue |
| Queue.Queue.Enqueue | services/worker/internal/queue/queue.go:56-64 | Appends one unclaimed row, or nothing if the insert is lost |
| Queue.Queue.Claim | services/worker/internal/queue/queue.go:66-88 | Marks the picked rows and returns their events in some order; an error may leave the rows marked |
| Queue.Queue.Ack | services/worker/internal/queue/queue.go:90-94 | Deletes the rows of the batch and no others |
| Queue.Queue.Unclaim | services/worker/internal/queue/queue.go:96-101 | Frees the rows of the batch and no others |
| Queue.Queue.InFlight | services/worker/internal/queue/queue.go:103-120 | Lists each claim id present once, in some order |
| Queue.Queue.Depth | services/worker/internal/queue/queue.go:122-131 | Counts the unclaimed rows, or reports that they cannot be read |
| Loop.Recover | services/worker/internal/loop/loop.go:39-62 | For every fate of its statements, the look-ups included: recovery fails iff one of them does, and leaves the databases exactly where the steps up to that statement lead, an effect kept or lost with it |
| Loop.Loop.New | services/worker/internal/loop/loop.go:24-37 | Startup fails iff one of its statements does, the reading of the last batch id included; otherwise the driver stands between two ticks with next one past the last applied batch and all figures at zero; in both cases the databases are where exactly its committed steps lead |
| Loop.Loop.Tick | services/worker/internal/loop/loop.go:64-86 | For every fate of its three transactions a tick fails iff the claim reports an error, or something was claimed and Apply, its commit or the acknowledgement does; it takes exactly the steps that commit, then goes down or stands between two ticks with next, counters, ring and tick time advanced |
| Loop.Loop.RunUntil | services/worker/internal/loop/loop.go:102-117 | One tick per firing of the timer, in order, ending exactly at the first one that fails; the databases are where those ticks lead |
| Loop.Loop.StatsSnapshot | services/worker/internal/loop/loop.go:119-126 | The live depth, the counters, the time of the last flush and the two percentiles of the last 256 flushes, or an error iff the depth cannot be read |
| Driver.TickFailsIff | services/worker/internal/loop/loop.go:64-86 | In every reachable state a tick fails iff one of its transactions does: Apply never fails by itself |
| Driver.LoopIsRun | services/worker/internal/loop/loop.go:102-117 | Where a sequence of ticks leads, failing ones included, is where a run of the step machine leads |
| Loop.MakeSamples | services/worker/internal/loop/loop.go:88-100 | One sample per event, in order: its site, its page, and the integer nearest to its lcp_ms, ties away from zero |
| Protocol.RoundIsNearest | services/worker/internal/loop/loop.go:96 | The rounding is to the nearest integer, ties away from zero |
| Protocol.SampleMeaning | services/worker/internal/loop/loop.go:92-97 | A sample is the event's site, its page and the nearest integer to its lcp_ms |
| Store.Store.Open | services/worker/internal/aggregate/store.go:30-73 | A volume opens with the tables an earlier process left, a fresh one with four empty tables |
| Store.Store.Apply | services/worker/internal/aggregate/store.go:92-213 | Folds the batch into all four tables, or, on an unreadable blob, a known batch id or a lost commit, changes nothing; whatever order the maps are walked in; the marker carries the arrival time and the markers of the last 1000 batches stay as they were |
| Store.Store.LastBatchID | services/worker/internal/aggregate/store.go:77-82 | The greatest marker, 0 if there is none, or an error if it cannot be read |
| Store.Store.Applied | services/worker/internal/aggregate/store.go:84-90 | Whether the marker is there, or an error if it cannot be read |
| Aggregate.MarkMeaning | services/worker/internal/aggregate/store.go:202-211 | The new marker carries the arrival time, markers up to batch minus 1000 go, all others stay as they are |
| Aggregate.LastBatchMeaning | services/worker/internal/aggregate/store.go:77-82 | The last batch id is a marker and no marker is greater; 0 without markers |
| Store.CollectPages | services/worker/internal/aggregate/store.go:106-116 | The per-page histograms and counts of the batch, each in its own array |
| Store.CollectSites | services/worker/internal/aggregate/store.go:162-175 | The per-site histograms, built from the samples again, not from the page histograms |
| Store.FoldBucket | services/worker/internal/aggregate/store.go:118-143 | Merges the stored histogram into the batch histogram in place and writes the total; fails iff the stored blob does not decode |
| Store.FoldPage | services/worker/internal/aggregate/store.go:118-160 | One turn of the page loop: bucket first, then the running row from the window that includes it |
| Store.FoldAllPages | services/worker/internal/aggregate/store.go:118-160 | The page loop, in any order of keys, gives the one result of FoldPages and FoldCurrent, or fails iff a blob it needs does not decode |
| Store.FoldAllSites | services/worker/internal/aggregate/store.go:176-200 | The site loop, in any order of keys, gives the one result of FoldSites, or fails iff a blob it needs does not decode |
| Store.TrailingHist | services/worker/internal/aggregate/store.go:215-236 | Merges the buckets after a minute in any row order; fails iff one does not decode |
| Folding.ApplyExtendsLog | services/worker/internal/aggregate/store.go:92-213 | On the tables of a log, Apply reads only well-formed blobs and yields the tables of the log extended by the stamped batch |
| Folding.FoldPagesExtends | services/worker/internal/aggregate/store.go:118-143 | The bucket upserts turn the page_minute table of a log into that of the longer log |
| Folding.FoldCurrentExtends | services/worker/internal/aggregate/store.go:145-159 | The running rows become those of the longer log, touched pages and untouched ones |
| Folding.FoldSitesExtends | services/worker/internal/aggregate/store.go:162-200 | The site upserts turn the site_minute table of a log into that of the longer log |
| Folding.TrailingIsWindow | services/worker/internal/aggregate/store.go:215-236 | Merging the stored buckets of the window is the histogram of the samples in the window |
| Folding.ApplyOrderIrrelevant | services/worker/internal/aggregate/store.go:106-200 | Any permutation of the batch gives the same result of Apply |
| Rebuild.PartsMakeWhole | services/worker/internal/aggregate/store.go:162-168 | For any partition of a group of samples, merging the histograms of the parts gives that of the group, and sizes add up |
| Tables.PageMinuteMeaning | services/worker/internal/aggregate/store.go:96-143 | A bucket exists iff a sample fell into it; bins are the counts modulo 2^32, count is their number iff no bin wrapped, p75 is that of the bins, last_seen the last arrival |
| Tables.CurrentCount | services/worker/internal/aggregate/store.go:145-159 | The running count is the number of samples; the bucket counts add up to it iff no bin of a bucket wrapped |
| Tables.CurrentFromBuckets | services/worker/internal/aggregate/store.go:145-159 | A running row exists iff a bucket does, and its percentile is that of the merged buckets of its last 60 minutes |
| Running.CurrentIsNewestIff | services/worker/internal/aggregate/store.go:145-159 | Whatever the clock does, last_seen of a running row is at least that of every bucket of the page iff no bucket lies after its minute |
| Running.CurrentRebuildIff | services/worker/internal/aggregate/store.go:24-27 | page_current is derived from page_minute: a running row equals the row computed from its buckets iff none lies after its minute and none of their counters wrapped |
| Running.TopBucket | services/worker/internal/aggregate/store.go:136-159 | The bucket of the minute a page was last seen in carries the same last_seen as the running row |
| Running.ApplyLeavesNewestIff | services/worker/internal/aggregate/store.go:145-159 | Apply leaves a touched page's row the newest iff the page had no bucket after the minute of now; for untouched pages nothing changes |
| Running.TwoBatchesNewestIff | services/worker/internal/aggregate/store.go:96-97 | For two batches of one sample at any two clock readings, the row stays the newest iff the second minute is not before the first |
| Running.ClockBackLosesNewest | services/worker/internal/aggregate/store.go:96-97 | The failing input: seconds 1020 then 1000 lose the newest arrival; 1000 then 970, inside one minute, do not |
| Tables.SiteFromPages | services/worker/internal/aggregate/store.go:162-200 | A site bucket is the merge of its page buckets of that minute; counts add up iff, bin by bin, the page counters together stay below 2^32 |
| Tables.RunningTotal | services/worker/internal/aggregate/store.go:145-159 | All running counts add up to the number of folded samples, wrapped bins or not |
| Tables.RowPercentile | services/worker/internal/aggregate/histogram.go:58-74 | The p75 of a page bucket brackets the true percentile of its samples |
| Tables.SitePercentile | services/worker/internal/aggregate/histogram.go:58-74 | The p75 of a site bucket brackets the true percentile of its samples |
| Tables.CurrentPercentile | services/worker/internal/aggregate/histogram.go:58-74 | The running p75 brackets the true percentile of the samples in its window |
| Tables.SiteP75Between | services/worker/internal/aggregate/histogram.go:44-74 | Without overflow a site percentile lies between those of its pages |
| Tables.CurrentP75Between | services/worker/internal/aggregate/histogram.go:44-74 | Without overflow a running percentile lies between those of the buckets in its window |
| Tables.MinuteMeaning | services/worker/internal/aggregate/store.go:103 | The minute of a clock reading, truncating toward zero |
| Histogram.BinAtMost | services/worker/internal/aggregate/histogram.go:26-35 | The bin found is the largest allowed one whose lower edge is at most the value |
| HistogramTheory.BinEdges | services/worker/internal/aggregate/histogram.go:26-35 | A value from 50 on lies at or above its bin's lower edge, and below the next edge except in the last bin |
| HistogramTheory.BinLiterally | services/worker/internal/aggregate/histogram.go:26-35 | The bin of a value, with the constants written out: 50^128 * 600^b is at most its 128th power, which is below 50^128 * 600^(b+1), the end bins being open |
| HistogramTheory.BinMonotone | services/worker/internal/aggregate/histogram.go:26-35 | Larger values never fall into smaller bins |
| HistogramTheory.UpperIsNearest | services/worker/internal/aggregate/histogram.go:37-40 | The reported edge is the integer nearest to 50 * 600^((b+1)/128) |
| HistogramTheory.UpperLiterally | services/worker/internal/aggregate/histogram.go:37-40 | The reported edge, with the constants written out, is the integer nearest to 50 * 600^((b+1)/128) |
| HistogramTheory.UpperMonotone | services/worker/internal/aggregate/histogram.go:37-40 | Later bins report edges at least as large |
| HistogramTheory.UpperCoversIff | services/worker/internal/aggregate/histogram.go:26-40 | A value is at most its reported edge iff it is at most 30000 |
| HistogramTheory.UpperWithinOneBinIff | services/worker/internal/aggregate/histogram.go:26-40 | The reported edge overstates a value by at most one bin ratio (up to rounding) iff the value is at least 50 |
| Histogram.RankBin | services/worker/internal/aggregate/histogram.go:60-74 | The bin found is the first that reaches three quarters of the count |
| Percentile.BinsModulo | services/worker/internal/aggregate/histogram.go:42 | After counting a list each bin is the number of its values modulo 2^32 |
| Percentile.CountIsExactIffFits | services/worker/internal/aggregate/histogram.go:50-56 | The count is at most the number of values, and equal to it iff no bin reached 2^32 |
| Percentile.HistOfAppend | services/worker/internal/aggregate/histogram.go:44-48 | Merging the histograms of two lists is the histogram of both together |
| Percentile.HistOfPermutation | services/worker/internal/aggregate/histogram.go:42 | The order of values does not matter |
| Percentile.RankBinIsBinOfRank | services/worker/internal/aggregate/histogram.go:58-74 | The read-off stops at the bin of element ceil(3n/4) of the sorted values |
| Percentile.NearestRankMeaning | services/worker/internal/aggregate/histogram.go:62-71 | Element ceil(3n/4) of the sorted list is the one value with fewer than three quarters of the list below it and at least three quarters not above it |
| Percentile.P75Brackets | services/worker/internal/aggregate/histogram.go:58-74 | End to end from values to percentile: q <= u iff q <= 30000, and u within one bin ratio of q iff q >= 50 |
| Percentile.BracketEnds | services/worker/internal/aggregate/histogram.go:58-74 | Both bracket sides do fail outside their ranges: 30001 is reported as 30000, and 0 as at least 53 |
| Percentile.MergedP75Between | services/worker/internal/aggregate/histogram.go:44-74 | The percentile of a merge of two non-empty histograms lies between theirs when no bin wraps |
| MapFolds.MergeAllP75Between | services/worker/internal/aggregate/histogram.go:44-74 | The same for any number of histograms |
| MapFolds.CountMergeAllIff | services/worker/internal/aggregate/histogram.go:44-56 | A merge counts the sum of its parts iff no bin total reaches 2^32 |
| MapFolds.MergeAllWith | services/worker/internal/aggregate/histogram.go:44-48 | Merging many histograms may start with any of them |
| Histogram.DecodeAfterEncode | services/worker/internal/aggregate/histogram.go:76-93 | Decoding an encoded histogram gives it back |
| Histogram.EncodeAfterDecode | services/worker/internal/aggregate/histogram.go:84-93 | Decoding fails exactly on blobs that are not 512 bytes, and encoding a decoded blob gives it back |
| Histogram.Add | services/worker/internal/aggregate/histogram.go:42 | Increments the counter of the value's bin in place, modulo 4294967296, and no other |
| Histogram.Merge | services/worker/internal/aggregate/histogram.go:44-48 | Adds the other histogram in place, bin by bin modulo 4294967296 |
| Histogram.Count | services/worker/internal/aggregate/histogram.go:50-56 | Sums the counters |
| Histogram.ReadP75 | services/worker/internal/aggregate/histogram.go:58-74 | Reads off the percentile; 0 if all counters are 0 |
| Histogram.Encode | services/worker/internal/aggregate/histogram.go:76-82 | 512 bytes; each counter is b0 + 256 b1 + 65536 b2 + 16777216 b3 of its four bytes |
| Histogram.Decode | services/worker/internal/aggregate/histogram.go:84-93 | Reads 128 counters, each b0 + 256 b1 + 65536 b2 + 16777216 b3, or fails iff there are not 512 bytes |
| Histogram.LittleEndian | services/worker/internal/aggregate/histogram.go:76-82 | Each stored counter is four bytes, the least significant first |
| Stats.Stats.SawFlush | services/worker/internal/loop/stats.go:35-43 | Records one flush: counters advance and the duration joins the ring |
| Stats.Stats.SawTick | services/worker/internal/loop/stats.go:29-33 | Records only the tick time |
| Stats.Stats.Snapshot | services/worker/internal/loop/stats.go:62-83 | Each percentile p is that of a duration d among the last min(n, 256), with 100 * #below(d) <= (n - 1) * p < 100 * #at most(d), in milliseconds cut to whole microseconds, 0 before the first flush; p50 <= p95, and nothing changes |
| Stats.PercentileMeaning | services/worker/internal/loop/stats.go:68-73 | The rank of a reported percentile, by counting, and its unit |
| Stats.MillisMeaning | services/worker/internal/loop/stats.go:73 | Nanoseconds become milliseconds cut to whole microseconds toward zero |
| Stats.RingIsRecent | services/worker/internal/loop/stats.go:62-66 | The filled slots are a permutation of the last min(n, 256) durations |
| Stats.RingStep | services/worker/internal/loop/stats.go:41-42 | Writing slot n mod 256 replaces the oldest duration |
| Sequences.OrderedSorts | services/worker/internal/loop/stats.go:67 | Sorting gives a sorted permutation |
| Sequences.SortedIsUnique | services/worker/internal/loop/stats.go:64-73 | There is one sorted permutation only, so percentiles do not depend on where the ring is turned |
| Stats.DurationsMonotone | services/worker/internal/loop/stats.go:68-73 | A higher rank never gives a lower percentile |
| NormPath.Normalise | checks/gate.sh:24-35 | The loop that cuts the string at its last slash computes the join of the segment stack |
| NormPath.PushRefines | checks/gate.sh:28-32 | One turn on the string is one push on the stack |
| NormPath.NormIdempotent | checks/gate.sh:21-35 | The result normalises to itself and has no empty, '.' or '..' segment |
| NormPath.NormComposes | checks/gate.sh:47-48 | The directory may be normalised before the target is appended |
| NormPath.NormPushes | checks/gate.sh:31 | A plain segment is added at the end, after a slash unless the path is empty |
| NormPath.NormPops | checks/gate.sh:30 | '..' undoes exactly the plain segment before it |
| NormPath.NormAtRoot | checks/gate.sh:30 | '..' at the root stays at the root |
| NormPath.NormSkips | checks/gate.sh:29 | '.' and empty segments do nothing |
| NormPath.NormOfOne | checks/gate.sh:28-32 | A path without slash normalises to itself, or to the empty path if it is empty, '.' or '..' |
| NormPath.StackIsPlain | checks/gate.sh:21-35 | No '.', '..', empty segment or slash is left on the stack |
| DocGate.Unreachable | checks/gate.sh:54-78 | Ends on every finite link graph; the report is the tracked list, in order and each name as often as it is tracked, of the names other than AGENTS.md and AGENT.md to which no chain of links through existing files leads from CLAUDE.md |
| DocGate.Report | checks/gate.sh:71-77 | Reports exactly the tracked documents that are not spared, in their order, each once per listing |
| Sequences.FilteredCounts | checks/gate.sh:71-77 | A list filtered in order holds each kept element as often as before and no other |
| DocGate.ContainsIffListed | checks/gate.sh:65-68 | Looking for the spaced name in the visited string is looking for it in the list |
| DocGate.WordsOfSpaced | checks/gate.sh:59-62 | Splitting the rejoined queue string gives the words back |
| DocGate.ReadLinks | checks/gate.sh:64-69 | Lists and queues exactly the link targets not listed before, in order |

## Left out

- SQLite itself (WAL, locks, busy timeouts, parsing, indexes, schema changes) and power loss: each statement or transaction is one atomic step.
- Two workers at once: the design assumes one.
- Rounding of the float logarithm and exponential at bin edges: the exact integer reading is used.
- Lengths in milliseconds beyond the 64-bit range, whose conversion to an integer depends on the platform.
- Rowids at 2^63 - 1, where SQLite stops counting up, and overflow of the 64-bit counters.
- Loop.Loop.Tick: states a tick with no insert between its own transactions; the step machine and the turns of Drain cover inserts at any point, and their steps are the ones the method is proved to take.
- Loop.Loop.RunUntil: the poll timer and the stop signal are a finite list of timer firings, with no insert between them; inserts there are steps of the machine.
- Stats.Stats.Snapshot: float division of microseconds is division of reals; the mutex is one atomic method each.
- Liveness probes, HTTP handlers, environment parsing, the API's endpoints and read queries, the dashboard: wiring and thin wrappers.
- DocGate.Unreachable: requires names that the shell keeps as one word, without white space or pattern characters; finding the links inside a document's text is not modelled.
- The gate's other rules (symlinks, health checks, links on disk): text matching and file system checks.
