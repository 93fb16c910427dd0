/** The main results about every run of the worker, the producer and their crashes. */
module Theorems {
  import opened Common
  import opened Histogram
  import opened Percentile
  import opened MapFolds
  import opened Sequences
  import opened Aggregate
  import opened Rebuild
  import opened Tables
  import opened Running
  import opened Queue
  import opened Protocol
  import opened Invariant
  import Folding

  // ---------------------------------------------------------------- one log and one cursor

  /** The claimed rows recovery would find applied. */
  function AppliedRows(rows: seq<Row>, applied: map<int, int>): nat {
    if rows == [] then 0
    else
      var r := rows[|rows| - 1];
      AppliedRows(rows[..|rows| - 1], applied) + (if r.claim.Some? && r.claim.value in applied then 1 else 0)
  }

  lemma {:induction false} AppliedRowsOfShape(rows: seq<Row>, applied: map<int, int>, claimed: nat, id: int)
    requires QueueShape(rows, Witness([], claimed, id))
    ensures AppliedRows(rows, applied) == if id in applied then claimed else 0
  {
    if rows != [] {
      var init := rows[..|rows| - 1];
      if claimed == |rows| {
        AppliedRowsOfShape(init, applied, claimed - 1, id);
      } else {
        AppliedRowsOfShape(init, applied, claimed, id);
      }
    }
  }

  lemma OverlapIsApplied(s: Sys, w: Witness)
    requires Inv(s, w)
    ensures Overlap(s, w) == AppliedRows(s.queue, s.agg.applied)
  {
    InvParts(s, w);
    AppliedRowsOfShape(s.queue, s.agg.applied, w.claimed, w.id);
  }

  /**
   * Whatever is enqueued, claimed, applied, acknowledged, crashed and recovered, in any interleaving:
   * the tables are those of a prefix of the accepted events, the queue is the matching suffix, and the
   * two overlap only in rows whose batch is marked as applied. Nothing is lost and nothing counted twice.
   */
  lemma OneLogOneCursor(steps: seq<Step>) returns (log: seq<Fold>)
    ensures var s := Run(Init(), steps);
            var cursor, overlap := |s.folded|, AppliedRows(s.queue, s.agg.applied);
            && overlap <= cursor <= |s.accepted|
            && FoldedEvents(log) == s.accepted[..cursor]
            && Permutation(s.folded, log) && SameTimes(s.folded, log)
            && IsRebuildOf(s.agg, Log(log))
            && Events(s.queue) == s.accepted[cursor - overlap..]
  {
    var w := RunKeeps(steps);
    InvParts(Run(Init(), steps), w);
    OverlapIsApplied(Run(Init(), steps), w);
    log := w.log;
  }

  /** The abstract system: everything accepted, and how much of it has been counted. */
  datatype LogState = LogState(accepted: seq<Event>, cursor: nat)

  function Abs(s: Sys): LogState {
    LogState(s.accepted, |s.folded|)
  }

  predicate AbsStep(a: LogState, b: LogState, limit: int) {
    || a == b
    || (b.cursor == a.cursor && |b.accepted| == |a.accepted| + 1 && a.accepted <= b.accepted)
    || (b.accepted == a.accepted && a.cursor < b.cursor <= |a.accepted| && (limit < 0 || b.cursor - a.cursor <= limit))
  }

  /** What one step adds: at most one event at the end, or the oldest unfolded batch to the folded ones. */
  ghost predicate Refines(s: Sys, t: Sys) {
    && AbsStep(Abs(s), Abs(t), s.claimLimit)
    && s.folded <= t.folded
    && |t.folded| <= |t.accepted|
    && Permutation(FoldedEvents(t.folded[|s.folded|..]), t.accepted[|s.folded|..|t.folded|])
  }

  lemma ApplyRefines(s: Sys, w: Witness, now: int)
    requires Inv(s, w) && s.proc.Claimed?
    ensures Refines(s, Do(s, Apply(now)))
  {
    InvParts(s, w);
    var arrived := Events(s.queue[..w.claimed]);
    var after := ApplyStep(s, w, now, arrived);
    PermutationLength(s.proc.events, arrived);
    BlockIsOldest(s, w);
    CursorMoves(s, Do(s, Apply(now)), s.proc.events, now, w.claimed);
  }

  lemma CursorMoves(s: Sys, t: Sys, handed: seq<Event>, now: int, k: nat)
    requires t.accepted == s.accepted && t.folded == s.folded + Folds(handed, now)
    requires |handed| == k > 0 && |s.folded| + k <= |s.accepted| && (s.claimLimit < 0 || k <= s.claimLimit)
    requires Permutation(handed, s.accepted[|s.folded|..|s.folded| + k])
    ensures Refines(s, t)
  {
    assert t.folded[|s.folded|..] == Folds(handed, now);
    assert FoldedEvents(Folds(handed, now)) == handed;
  }

  lemma OtherStep(s: Sys, step: Step)
    requires !(s.proc.Claimed? && step.Apply?)
    ensures Do(s, step).folded == s.folded
    ensures Do(s, step).accepted == if step.Enqueue? then s.accepted + [step.event] else s.accepted
  {
  }

  /** Each step appends one event, or moves the cursor over the oldest unfolded batch, or shows nothing. */
  lemma StepRefines(steps: seq<Step>, step: Step)
    ensures Refines(Run(Init(), steps), Do(Run(Init(), steps), step))
  {
    var s := Run(Init(), steps);
    var w := RunKeeps(steps);
    InvParts(s, w);
    if s.proc.Claimed? && step.Apply? {
      ApplyRefines(s, w, step.now);
    } else {
      OtherStep(s, step);
      assert Do(s, step).accepted[|s.folded|..|s.folded|] == [];
    }
  }

  // ---------------------------------------------------------------- batch ids and markers

  /** Markers on disk answer as if none had ever been pruned, for every claim that may still be asked about. */
  lemma PruningIsSafe(steps: seq<Step>)
    ensures var s := Run(Init(), steps);
            && (forall id :: id in ClaimIds(s.queue) ==> (id in s.agg.applied <==> id in s.applied))
            && LastBatch(s.agg.applied) == |s.applied|
            && (forall id :: id in ClaimIds(s.queue) ==> |s.applied| <= id <= |s.applied| + 1)
            && (forall id, other :: id in ClaimIds(s.queue) && other in ClaimIds(s.queue) ==> id == other)
            && (s.proc.Claimed? ==> s.proc.mem.next !in s.applied && s.proc.mem.next !in s.agg.applied)
  {
    var s := Run(Init(), steps);
    var w := RunKeeps(steps);
    InvParts(s, w);
    LastBatchIs(s.agg.applied, |s.applied|);
    forall id | id in ClaimIds(s.queue)
      ensures id == w.id && w.claimed > 0
    {
    }
    AppliedIds(s.applied);
  }

  lemma AppliedIds(applied: seq<int>)
    requires BatchesNumbered(applied)
    ensures forall id :: id in applied <==> 1 <= id <= |applied|
  {
    forall id | 1 <= id <= |applied|
      ensures id in applied
    {
      assert applied[id - 1] == id;
    }
  }

  /** Applying never fails: the marker is new and every blob it reads decodes. */
  lemma ApplyNeverFails(steps: seq<Step>, now: int)
    ensures var s := Run(Init(), steps);
            && (forall samples :: Readable(s.agg, samples, now))
            && (s.proc.Claimed? ==> Do(s, Apply(now)).proc == Folded(s.proc.mem, s.proc.events))
  {
    var s := Run(Init(), steps);
    var w := RunKeeps(steps);
    InvParts(s, w);
    AllReadable(s.agg, Log(w.log), now);
    if s.proc.Claimed? {
      var after := ApplyStep(s, w, now, Events(s.queue[..w.claimed]));
    }
  }

  lemma AllReadable(agg: Agg, log: seq<Stamped>, now: int)
    requires IsRebuildOf(agg, log)
    ensures forall samples :: Readable(agg, samples, now)
  {
    forall samples
      ensures Readable(agg, samples, now)
    {
      Folding.ApplyExtendsLog(agg, log, 0, samples, now);
    }
  }

  // ---------------------------------------------------------------- acknowledging

  /** The step deletes a batch: a tick's last transaction, or recovery of a batch found applied. */
  predicate Acknowledges(s: Sys, step: Step) {
    || (step == Ack && s.proc.Folded?)
    || (step == RecoverOne && s.proc.Recovering? && s.proc.todo != [] && s.proc.todo[0] in s.agg.applied)
  }

  /** From `s` to `t` the k oldest rows went, which are all the claimed ones, and all of them are folded. */
  predicate BatchGone(s: Sys, t: Sys, k: nat) {
    && 0 < k <= |s.folded| <= |s.accepted| && k <= |s.queue|
    && (forall i :: 0 <= i < |s.queue| ==> (s.queue[i].claim.Some? <==> i < k))
    && t.queue == s.queue[k..]
    && Events(s.queue[..k]) == s.accepted[|s.folded| - k..|s.folded|]
    && Events(t.queue) == s.accepted[|s.folded|..]
  }

  lemma BlockGone(s: Sys, w: Witness, t: Sys)
    requires QueueInv(s, w) && w.claimed > 0 && w.id == |s.applied| && t.queue == AckRows(s.queue, w.id)
    ensures BatchGone(s, t, w.claimed)
  {
    AckDropsBlock(s.queue, w.claimed, w.id);
    var n, k := |s.folded|, w.claimed;
    var rest := s.accepted[n - k..];
    assert Events(s.queue[..k]) == Events(s.queue)[..k] == rest[..k] == s.accepted[n - k..n];
    assert Events(s.queue[k..]) == Events(s.queue)[k..] == rest[k..] == s.accepted[n..];
  }

  lemma AcknowledgedBlock(s: Sys, w: Witness, step: Step)
    requires Inv(s, w) && Acknowledges(s, step)
    ensures w.claimed > 0 && w.id == |s.applied| && Do(s, step).queue == AckRows(s.queue, w.id)
  {
    InvParts(s, w);
  }

  /** An acknowledgement deletes a whole batch, and only events that are folded already. */
  lemma AckDeletesFoldedBatch(steps: seq<Step>, step: Step) returns (k: nat)
    requires Acknowledges(Run(Init(), steps), step)
    ensures BatchGone(Run(Init(), steps), Do(Run(Init(), steps), step), k)
  {
    var s := Run(Init(), steps);
    var w := RunKeeps(steps);
    InvParts(s, w);
    k := w.claimed;
    AcknowledgedBlock(s, w, step);
    BlockGone(s, w, Do(s, step));
  }

  /** Every process of the run was started with a batch limit of at most `most`, and none without limit. */
  predicate LimitsWithin(steps: seq<Step>, most: nat) {
    forall i :: 0 <= i < |steps| && steps[i].Start? ==> 0 <= steps[i].limit <= most
  }

  lemma {:induction false} LimitsStay(steps: seq<Step>, most: nat)
    requires LimitsWithin(steps, most)
    ensures 0 <= Run(Init(), steps).limit <= most
    ensures 0 <= Run(Init(), steps).claimLimit <= most
  {
    if steps != [] {
      var init := steps[..|steps| - 1];
      assert forall i :: 0 <= i < |init| ==> init[i] == steps[i];
      LimitsStay(init, most);
      LimitSteps(Run(Init(), init), steps[|steps| - 1]);
    }
  }

  lemma LimitSteps(s: Sys, step: Step)
    ensures Do(s, step).limit == s.limit || (step.Start? && Do(s, step).limit == step.limit)
    ensures Do(s, step).claimLimit == s.claimLimit || Do(s, step).claimLimit == s.limit
  {
  }

  /**
   * The api's depth and the worker's depth differ by at most one batch, at every moment: by the limit in
   * force at the last claim, and so by the largest limit any process was started with.
   */
  lemma DepthsDifferByOneBatch(steps: seq<Step>, most: nat)
    ensures var s := Run(Init(), steps);
            && |Unclaimed(s.queue)| <= |s.queue|
            && (s.claimLimit >= 0 ==> |s.queue| - |Unclaimed(s.queue)| <= s.claimLimit)
            && (LimitsWithin(steps, most) ==> |s.queue| - |Unclaimed(s.queue)| <= most)
  {
    var s := Run(Init(), steps);
    var w := RunKeeps(steps);
    InvParts(s, w);
    UnclaimedOfShape(s.queue, w.claimed, w.id);
    if LimitsWithin(steps, most) {
      LimitsStay(steps, most);
    }
  }

  lemma {:induction false} UnclaimedOfShape(rows: seq<Row>, claimed: nat, id: int)
    requires QueueShape(rows, Witness([], claimed, id))
    ensures Unclaimed(rows) == rows[claimed..]
  {
    if claimed == |rows| {
      AllClaimed(rows, id);
    } else {
      var init, r := rows[..|rows| - 1], rows[|rows| - 1];
      UnclaimedOfShape(init, claimed, id);
      assert r.claim == None;
      assert Unclaimed(rows) == Unclaimed(init) + [r];
      assert rows[claimed..] == init[claimed..] + [r];
    }
  }

  lemma {:induction false} AllClaimed(rows: seq<Row>, id: int)
    requires forall i :: 0 <= i < |rows| ==> rows[i].claim == Some(id)
    ensures Unclaimed(rows) == []
  {
    if rows != [] {
      AllClaimed(rows[..|rows| - 1], id);
    }
  }

  // ---------------------------------------------------------------- counters

  /** Between ticks the counters equal what this process folded and applied, and the tables grew by just that. */
  lemma CountersAreExact(steps: seq<Step>)
    requires Run(Init(), steps).proc.Idle?
    ensures var s := Run(Init(), steps);
            && s.proc.mem.consumed == |s.folded| - s.foldedBefore
            && s.proc.mem.batches == |s.applied| - s.appliedBefore
            && s.proc.mem.next == s.appliedBefore + 1 + s.proc.mem.batches
            && SumAll(RunningCounts(s.agg.pageCurrent)) == s.foldedBefore + s.proc.mem.consumed
  {
    var s := Run(Init(), steps);
    var w := RunKeeps(steps);
    InvParts(s, w);
    PermutationLength(s.folded, w.log);
    RunningTotal(s.agg, Log(w.log));
  }

  // ---------------------------------------------------------------- the clock

  /** The arrival times given to Apply never go back. */
  predicate ClockRuns(steps: seq<Step>) {
    forall i, j :: 0 <= i < j < |steps| && steps[i].Apply? && steps[j].Apply? ==> steps[i].now <= steps[j].now
  }

  predicate TimesOrdered(f: seq<Fold>) {
    forall i, j :: 0 <= i < j < |f| ==> f[i].now <= f[j].now
  }

  /** Some Apply of the run was given this arrival time. */
  predicate AppliedAt(steps: seq<Step>, now: int) {
    exists j :: 0 <= j < |steps| && steps[j].Apply? && steps[j].now == now
  }

  lemma AppliedAtPrefix(init: seq<Step>, steps: seq<Step>, now: int)
    requires init <= steps && AppliedAt(init, now)
    ensures AppliedAt(steps, now)
  {
    var j :| 0 <= j < |init| && init[j].Apply? && init[j].now == now;
    assert steps[j] == init[j];
  }

  /** The step is an Apply, and `f` carries its arrival time. */
  predicate FoldedUnder(f: Fold, step: Step) {
    step.Apply? && f.now == step.now
  }

  /** A step either folds nothing or folds a batch under its own arrival time. */
  lemma FoldedByStep(s: Sys, step: Step)
    ensures s.folded <= Do(s, step).folded
    ensures forall i :: |s.folded| <= i < |Do(s, step).folded| ==> FoldedUnder(Do(s, step).folded[i], step)
  {
  }

  lemma ClockBound(steps: seq<Step>, now: int)
    requires ClockRuns(steps) && steps != [] && steps[|steps| - 1].Apply? && AppliedAt(steps[..|steps| - 1], now)
    ensures now <= steps[|steps| - 1].now
  {
    var init := steps[..|steps| - 1];
    var j :| 0 <= j < |init| && init[j].Apply? && init[j].now == now;
    assert steps[j] == init[j];
  }

  lemma {:induction false} FoldedInClockOrder(s: Sys, steps: seq<Step>)
    requires ClockRuns(steps) && s.folded == []
    ensures TimesOrdered(Run(s, steps).folded)
    ensures forall i :: 0 <= i < |Run(s, steps).folded| ==> AppliedAt(steps, Run(s, steps).folded[i].now)
  {
    if steps != [] {
      var init, last := steps[..|steps| - 1], steps[|steps| - 1];
      assert forall j :: 0 <= j < |init| ==> init[j] == steps[j];
      FoldedInClockOrder(s, init);
      FoldedByStep(Run(s, init), last);
      OrderGrows(Run(s, init).folded, Run(s, steps).folded, steps);
    }
  }

  lemma OrderGrows(before: seq<Fold>, after: seq<Fold>, steps: seq<Step>)
    requires ClockRuns(steps) && steps != [] && before <= after && TimesOrdered(before)
    requires forall i :: 0 <= i < |before| ==> AppliedAt(steps[..|steps| - 1], before[i].now)
    requires forall i :: |before| <= i < |after| ==> FoldedUnder(after[i], steps[|steps| - 1])
    ensures TimesOrdered(after)
    ensures forall i :: 0 <= i < |after| ==> AppliedAt(steps, after[i].now)
  {
    forall i | 0 <= i < |after|
      ensures AppliedAt(steps, after[i].now)
      ensures i < |before| && steps[|steps| - 1].Apply? ==> after[i].now <= steps[|steps| - 1].now
    {
      if i < |before| {
        AppliedAtPrefix(steps[..|steps| - 1], steps, before[i].now);
        if steps[|steps| - 1].Apply? {
          ClockBound(steps, before[i].now);
        }
      } else {
        assert FoldedUnder(after[i], steps[|steps| - 1]);
      }
    }
  }

  // ---------------------------------------------------------------- running rows from their buckets

  /** A running row is what its page's buckets say exactly if none is later and no counter wrapped around. */
  ghost predicate RebuildsIff(agg: Agg, log: seq<Stamped>, k: PageKey)
    requires k in agg.pageCurrent
  {
    agg.pageCurrent[k] == RebuiltRow(agg.pageMinute, k) <==>
    NoBucketAfter(agg.pageMinute, k, MinuteOf(agg.pageCurrent[k].lastSeen)) && BucketsFit(agg, log, k)
  }

  /** After any run, with any clock, every running row can be rebuilt from page_minute under that condition. */
  lemma RunningRowsRebuildIff(steps: seq<Step>) returns (log: seq<Fold>)
    ensures var s := Run(Init(), steps);
            && |s.folded| <= |s.accepted|
            && FoldedEvents(log) == s.accepted[..|s.folded|]
            && Permutation(s.folded, log) && SameTimes(s.folded, log)
            && (forall k :: k in s.agg.pageCurrent ==> RebuildsIff(s.agg, Log(log), k))
  {
    log := OneLogOneCursor(steps);
    var agg := Run(Init(), steps).agg;
    forall k | k in agg.pageCurrent
      ensures RebuildsIff(agg, Log(log), k)
    {
      CurrentRebuildIff(agg, Log(log), k);
    }
  }

  /** If the clock never goes back the condition holds but for wrapped counters: no bucket is ever later. */
  lemma RunningRowIsNewest(steps: seq<Step>, k: PageKey)
    requires ClockRuns(steps) && k in Run(Init(), steps).agg.pageCurrent
    ensures var agg := Run(Init(), steps).agg;
            Newest(agg, k) && NoBucketAfter(agg.pageMinute, k, MinuteOf(agg.pageCurrent[k].lastSeen))
  {
    var log := OneLogOneCursor(steps);
    var agg := Run(Init(), steps).agg;
    FoldedInClockOrder(Init(), steps);
    MonotoneIsNewest(agg, Log(log), k);
    CurrentIsNewestIff(agg, Log(log), k);
  }

  lemma BatchApplied(s: Sys, now: int)
    requires s.proc.Claimed? && Do(s, Apply(now)).proc.Folded?
    ensures Do(s, Apply(now)).agg == FoldBatch(s.agg, s.proc.mem.next, ToSamples(s.proc.events), now)
  {
  }

  /**
   * The form that can be checked before the call: applying the claimed batch at `now` leaves the running row
   * of a page in it the newest over the page's buckets exactly if the page has no bucket after that minute.
   */
  lemma RunningRowNewestIff(steps: seq<Step>, now: int, k: PageKey)
    requires Run(Init(), steps).proc.Claimed? && k in Pages(ToSamples(Run(Init(), steps).proc.events))
    ensures var s := Run(Init(), steps);
            var after := Do(s, Apply(now)).agg;
            && k in after.pageCurrent && after.pageCurrent[k].lastSeen == now
            && (Newest(after, k) <==> NoBucketAfter(s.agg.pageMinute, k, MinuteOf(now)))
  {
    var s := Run(Init(), steps);
    var log := OneLogOneCursor(steps);
    ApplyNeverFails(steps, now);
    BatchApplied(s, now);
    ApplyLeavesNewestIff(s.agg, Log(log), s.proc.mem.next, ToSamples(s.proc.events), now, k, Do(s, Apply(now)).agg);
  }

  // ---------------------------------------------------------------- the tables of a run

  /** Every stored bucket describes its samples; sites and running rows can be rebuilt from the buckets alone. */
  ghost predicate TablesAgree(agg: Agg, log: seq<Stamped>) {
    && (forall r :: r in agg.pageMinute <==> Select(log, OfBucket(r.key, r.minute)) != [])
    && (forall r :: r in agg.pageMinute ==> Describes(agg.pageMinute[r], Select(log, OfBucket(r.key, r.minute))))
    && (forall r :: r in agg.siteMinute ==>
      Decoded(agg.siteMinute[r].hist) == Some(MergeAll(SitePages(agg.pageMinute, r.site, r.minute))))
    && (forall k :: k in agg.pageCurrent ==> RunningFromBuckets(agg, k))
  }

  ghost predicate RunningFromBuckets(agg: Agg, k: PageKey)
    requires k in agg.pageCurrent
  {
    agg.pageCurrent[k].p75 ==
    P75(Trailing(agg.pageMinute, k, MinuteOf(agg.pageCurrent[k].lastSeen) - TRAILING_MINUTES))
  }

  lemma TablesOfLog(agg: Agg, log: seq<Stamped>)
    requires IsRebuildOf(agg, log)
    ensures TablesAgree(agg, log)
  {
    forall r: PageMinute
      ensures r in agg.pageMinute <==> Select(log, OfBucket(r.key, r.minute)) != []
      ensures r in agg.pageMinute ==> Describes(agg.pageMinute[r], Select(log, OfBucket(r.key, r.minute)))
    {
      PageMinuteMeaning(agg, log, r);
      SelectEmptyIff(log, OfBucket(r.key, r.minute));
    }
    forall r: SiteMinute | r in agg.siteMinute
      ensures Decoded(agg.siteMinute[r].hist) == Some(MergeAll(SitePages(agg.pageMinute, r.site, r.minute)))
    {
      SiteFromPages(agg, log, r.site, r.minute);
    }
    forall k | k in agg.pageCurrent
      ensures RunningFromBuckets(agg, k)
    {
      CurrentFromBuckets(agg, log, k);
    }
  }

  lemma TablesOfRun(steps: seq<Step>) returns (log: seq<Fold>)
    ensures var s := Run(Init(), steps);
            && |s.folded| <= |s.accepted|
            && FoldedEvents(log) == s.accepted[..|s.folded|]
            && Permutation(s.folded, log) && SameTimes(s.folded, log)
            && TablesAgree(s.agg, Log(log))
  {
    log := OneLogOneCursor(steps);
    TablesOfLog(Run(Init(), steps).agg, Log(log));
  }

  /** How many of the events name this site and page. */
  function EventsOf(events: seq<Event>, site: string, page: string): nat {
    if events == [] then 0
    else
      var e := events[|events| - 1];
      EventsOf(events[..|events| - 1], site, page) + (if e.siteId == site && e.pageUrl == page then 1 else 0)
  }

  lemma {:induction false} SelectedEvents(log: seq<Fold>, k: PageKey)
    ensures |Select(Log(log), OfPage(k))| == EventsOf(FoldedEvents(log), k.site, k.page)
  {
    if log != [] {
      var init, last := log[..|log| - 1], log[|log| - 1];
      SelectedEvents(init, k);
      assert Log(log)[..|log| - 1] == Log(init);
      assert FoldedEvents(log)[..|log| - 1] == FoldedEvents(init);
    }
  }

  /** The running count of every page is exactly the number of its events among those folded, and no page is missing. */
  lemma PageTotals(steps: seq<Step>, k: PageKey)
    ensures var s := Run(Init(), steps);
            && |s.folded| <= |s.accepted|
            && var n := EventsOf(s.accepted[..|s.folded|], k.site, k.page);
               (k in s.agg.pageCurrent <==> n > 0) && (n > 0 ==> s.agg.pageCurrent[k].count == n)
  {
    var log := OneLogOneCursor(steps);
    var agg := Run(Init(), steps).agg;
    SelectedEvents(log, k);
    AllAgree(agg, Log(log));
    Folding.NotInPages(Log(log), k);
    if k in agg.pageCurrent {
      CurrentRow(agg, Log(log), k);
    }
  }

  /** Every stored percentile brackets the true nearest-rank percentile of the samples its row stands for. */
  ghost predicate PercentilesRight(agg: Agg, log: seq<Stamped>) {
    && (forall r, s :: r in agg.pageMinute && SortedForm(Select(log, OfBucket(r.key, r.minute)), s) ==>
      Brackets(agg.pageMinute[r].p75, NearestRank75(s)))
    && (forall r, s :: r in agg.siteMinute && SortedForm(Select(log, OfSite(r.site, r.minute)), s) ==>
      Brackets(agg.siteMinute[r].p75, NearestRank75(s)))
    && (forall k, s :: k in agg.pageCurrent && SortedForm(Select(log, RunningGroup(agg.pageCurrent[k], k)), s) ==>
      Brackets(agg.pageCurrent[k].p75, NearestRank75(s)))
  }

  lemma PercentilesOfRun(steps: seq<Step>) returns (log: seq<Fold>)
    ensures var s := Run(Init(), steps);
            && |s.folded| <= |s.accepted|
            && FoldedEvents(log) == s.accepted[..|s.folded|]
            && Permutation(s.folded, log) && SameTimes(s.folded, log)
            && PercentilesRight(s.agg, Log(log))
  {
    log := OneLogOneCursor(steps);
    PercentilesOfLog(Run(Init(), steps).agg, Log(log));
  }

  lemma PercentilesOfLog(agg: Agg, log: seq<Stamped>)
    requires IsRebuildOf(agg, log)
    ensures PercentilesRight(agg, log)
  {
    forall r, s | r in agg.pageMinute && SortedForm(Select(log, OfBucket(r.key, r.minute)), s)
      ensures Brackets(agg.pageMinute[r].p75, NearestRank75(s))
    {
      RowPercentile(agg, log, r, s);
    }
    forall r, s | r in agg.siteMinute && SortedForm(Select(log, OfSite(r.site, r.minute)), s)
      ensures Brackets(agg.siteMinute[r].p75, NearestRank75(s))
    {
      SitePercentile(agg, log, r, s);
    }
    forall k, s | k in agg.pageCurrent && SortedForm(Select(log, RunningGroup(agg.pageCurrent[k], k)), s)
      ensures Brackets(agg.pageCurrent[k].p75, NearestRank75(s))
    {
      CurrentPercentile(agg, log, k, s);
    }
  }

  // ---------------------------------------------------------------- row orders do not matter

  /** The same step, up to the order in which the database returned the claimed rows. */
  ghost predicate SameStep(a: Step, b: Step) {
    a == b || (a.Claim? && b.Claim? && Permutation(a.order, b.order))
  }

  ghost predicate SameProc(a: Proc, b: Proc) {
    match (a, b)
    case (Claimed(m, e), Claimed(n, f)) => m == n && Permutation(e, f)
    case (Folded(m, e), Folded(n, f)) => m == n && Permutation(e, f)
    case _ => a == b
  }

  /** The same state but for the order of events inside batches. */
  ghost predicate SameState(s: Sys, t: Sys) {
    && s.(proc := t.proc, folded := t.folded) == t
    && SameProc(s.proc, t.proc)
    && Permutation(s.folded, t.folded)
  }

  lemma SameAfterApply(s: Sys, t: Sys, now: int)
    requires SameState(s, t) && s.proc.Claimed?
    ensures SameState(Do(s, Apply(now)), Do(t, Apply(now)))
  {
    SamplesPermute(s.proc.events, t.proc.events);
    Folding.ApplyOrderIrrelevant(s.agg, s.proc.mem.next, ToSamples(s.proc.events), ToSamples(t.proc.events), now);
    FoldsPermute(s.proc.events, t.proc.events, now);
    PermutationLength(s.folded, t.folded);
  }

  lemma SameAfterStep(s: Sys, t: Sys, a: Step, b: Step)
    requires SameState(s, t) && SameStep(a, b)
    ensures SameState(Do(s, a), Do(t, b))
  {
    match a
    case Claim(order) =>
      PermutationLength(order, b.order);
    case Apply(now) =>
      if s.proc.Claimed? {
        SameAfterApply(s, t, now);
      }
    case Ack =>
      if s.proc.Folded? {
        PermutationLength(s.proc.events, t.proc.events);
      }
    case _ =>
      PermutationLength(s.folded, t.folded);
  }

  /** Two runs that differ only in the order of returned rows end with the same databases. */
  lemma {:induction false} RowOrderIrrelevant(a: seq<Step>, b: seq<Step>)
    requires |a| == |b| && forall i :: 0 <= i < |a| ==> SameStep(a[i], b[i])
    ensures SameState(Run(Init(), a), Run(Init(), b))
  {
    if a != [] {
      var n := |a| - 1;
      RowOrderIrrelevant(a[..n], b[..n]);
      SameAfterStep(Run(Init(), a[..n]), Run(Init(), b[..n]), a[n], b[n]);
    }
  }
}
