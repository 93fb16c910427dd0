/**
 * The worker's driver. Each method is proved to take exactly the steps of Driver.dfy: whatever its
 * transactions do, the databases end where those steps lead, and it fails exactly when they say.
 */
module Loop {
  import opened Common
  import opened Sequences
  import opened Aggregate
  import opened Queue
  import opened Store
  import opened Stats
  import opened Protocol
  import opened Driver
  import Folding
  import Invariant

  /** The databases are those of the step machine's state. */
  ghost predicate Shows(q: Queue, agg: Store, s: Sys)
    reads q, agg
  {
    q.rows == s.queue && agg.State() == s.agg
  }

  /** queue to aggregate: rounds each event's milliseconds. */
  method MakeSamples(events: seq<Event>) returns (samples: seq<Sample>)
    ensures samples == ToSamples(events)
    ensures |samples| == |events|
    ensures forall i :: 0 <= i < |events| ==>
      && samples[i].site == events[i].siteId && samples[i].page == events[i].pageUrl
      && events[i].lcpMs - 0.5 <= samples[i].ms as real <= events[i].lcpMs + 0.5
      && (samples[i].ms as real == events[i].lcpMs + 0.5 ==> events[i].lcpMs > 0.0)
      && (samples[i].ms as real == events[i].lcpMs - 0.5 ==> events[i].lcpMs < 0.0)
  {
    if events == [] {
      return [];
    }
    var a := new Sample[|events|](i => Sample("", "", 0));
    for i := 0 to |events|
      invariant forall j :: 0 <= j < i ==> a[j] == SampleOf(events[j])
    {
      a[i] := SampleOf(events[i]);
    }
    assert a[..] == ToSamples(events);
    samples := a[..];
    forall i | 0 <= i < |events|
      ensures samples[i] == SampleOf(events[i]) && Nearest(samples[i].ms, events[i].lcpMs)
    {
      SampleMeaning(events[i]);
    }
  }

  // ---------------------------------------------------------------- recovery

  /** The parts of a state that outlive the process, and the process. */
  predicate Stands(s: Sys, queue: seq<Row>, agg: Agg, proc: Proc, limit: int) {
    s.queue == queue && s.agg == agg && s.proc == proc && s.limit == limit
  }

  /** The recovery has resolved the first i claims and no statement failed so far. */
  ghost predicate Underway(faults: nat -> Fault, i: nat, n: nat) {
    i <= n && AllPass(faults, 2 * i + 1) && Resolved(faults, 0, n) == Resolved(faults, i, n)
  }

  lemma Resolves(faults: nat -> Fault, i: nat, n: nat)
    requires i < n && Underway(faults, i, n) && faults(2 * i + 1) == NoFault && faults(2 * i + 2) == NoFault
    ensures Underway(faults, i + 1, n)
  {
  }

  lemma Stops(ids: seq<int>, limit: int, faults: nat -> Fault, i: nat, kept: bool)
    requires i < |ids| && Underway(faults, i, |ids|)
    requires faults(2 * i + 1) != NoFault || faults(2 * i + 2) != NoFault
    requires kept <==> faults(2 * i + 1) == NoFault && faults(2 * i + 2) == LostAfterCommit
    ensures !AllPass(faults, 2 * |ids| + 1)
    ensures RecoverySteps(ids, limit, faults) == ListedSteps(ids, limit, if kept then i + 1 else i) + [Crash]
  {
    assert faults(0) == NoFault;
    assert 2 * i + 2 < 2 * |ids| + 1;
  }

  /** Looks up one claim left in flight, and acknowledges or frees it. */
  method ResolveOne(q: Queue, agg: Store, id: int, lookup: Fault, fault: Fault, ghost s: Sys) returns (failed: bool)
    requires Shows(q, agg, s) && s.proc.Recovering? && s.proc.todo != [] && s.proc.todo[0] == id
    modifies q
    ensures failed <==> lookup != NoFault || fault != NoFault
    ensures Shows(q, agg, if lookup != NoFault || fault == LostBeforeCommit then s else Do(s, RecoverOne))
  {
    var applied;
    failed, applied := agg.Applied(id, lookup);
    if failed {
      return;
    }
    if applied {
      failed := q.Ack(id, fault);
    } else {
      failed := q.Unclaim(id, fault);
    }
  }

  lemma OneMoreResolved(s: Sys, ids: seq<int>, limit: int, i: nat)
    ensures Run(s, ListedSteps(ids, limit, i + 1)) == Do(Run(s, ListedSteps(ids, limit, i)), RecoverOne)
  {
    assert ListedSteps(ids, limit, i + 1) == ListedSteps(ids, limit, i) + [RecoverOne];
    RunSnoc(s, ListedSteps(ids, limit, i), RecoverOne);
  }

  /** A recovery that stops at claim i, with its resolution kept or not, went down there. */
  lemma Halts(q: Queue, agg: Store, s: Sys, ids: seq<int>, limit: int, faults: nat -> Fault, i: nat, kept: bool)
    requires i < |ids| && Underway(faults, i, |ids|)
    requires faults(2 * i + 1) != NoFault || faults(2 * i + 2) != NoFault
    requires kept <==> faults(2 * i + 1) == NoFault && faults(2 * i + 2) == LostAfterCommit
    requires Shows(q, agg, Run(s, ListedSteps(ids, limit, if kept then i + 1 else i)))
    ensures !AllPass(faults, 2 * |ids| + 1)
    ensures Shows(q, agg, Run(s, RecoverySteps(ids, limit, faults)))
    ensures Run(s, RecoverySteps(ids, limit, faults)).proc == Down
  {
    var steps := ListedSteps(ids, limit, if kept then i + 1 else i);
    Stops(ids, limit, faults, i, kept);
    RunSnoc(s, steps, Crash);
    Goes(Run(s, steps));
  }

  lemma Goes(s: Sys)
    ensures Stands(Do(s, Crash), s.queue, s.agg, Down, s.limit)
  {
  }

  /** Resolves the i-th claim found, after those before it; `t` is where the machine stands by then. */
  method ResolveNext(q: Queue, agg: Store, found: seq<int>, i: nat, faults: nat -> Fault,
                     ghost limit: int, ghost s: Sys, ghost t: Sys)
      returns (failed: bool)
    requires i < |found| && Underway(faults, i, |found|)
    requires t == Run(s, ListedSteps(found, limit, i)) && Shows(q, agg, t) && t.proc == Recovering(found[i..])
    modifies q
    ensures !failed ==> Underway(faults, i + 1, |found|)
    ensures !failed ==> var u := Run(s, ListedSteps(found, limit, i + 1));
            Shows(q, agg, u) && u.proc == Recovering(found[i + 1..]) && u.limit == t.limit
    ensures failed ==> var u := Run(s, RecoverySteps(found, limit, faults)); Shows(q, agg, u) && u.proc == Down
    ensures failed ==> !AllPass(faults, 2 * |found| + 1)
  {
    failed := ResolveOne(q, agg, found[i], faults(2 * i + 1), faults(2 * i + 2), t);
    OneMoreResolved(s, found, limit, i);
    if failed {
      Halts(q, agg, s, found, limit, faults, i,
            faults(2 * i + 1) == NoFault && faults(2 * i + 2) == LostAfterCommit);
    } else {
      Resolves(faults, i, |found|);
    }
  }

  /**
   * Resolves the claims a previous process left: acknowledges what was applied, frees the rest. It fails
   * exactly if one of its statements does, and leaves the databases as far as its transactions got.
   */
  method Recover(q: Queue, agg: Store, limit: int, faults: nat -> Fault, ghost s: Sys)
      returns (failed: bool, ghost ids: seq<int>)
    requires s.proc == Down && Shows(q, agg, s)
    modifies q
    ensures failed <==> !AllPass(faults, 2 * |old(ClaimIds(q.rows))| + 1)
    ensures faults(0) == NoFault ==> Enumerates(ids, old(ClaimIds(q.rows)))
    ensures var t := Run(s, RecoverySteps(ids, limit, faults));
            && Shows(q, agg, t)
            && t.proc == (if failed then Down else Recovering([]))
            && (!failed ==> t.limit == limit)
  {
    var found;
    failed, found := q.InFlight(faults(0));
    ids := found;
    if failed {
      return;
    }
    ghost var n := |ids|;
    assert ListedSteps(ids, limit, 0) == [Start(ids, limit)];
    RunOne(s, Start(ids, limit));
    for i := 0 to |found|
      invariant Underway(faults, i, n)
      invariant var t := Run(s, ListedSteps(ids, limit, i));
                Shows(q, agg, t) && t.proc == Recovering(ids[i..]) && t.limit == limit
    {
      failed := ResolveNext(q, agg, found, i, faults, limit, s, Run(s, ListedSteps(ids, limit, i)));
      if failed {
        return;
      }
    }
    assert RecoverySteps(ids, limit, faults) == ListedSteps(ids, limit, n);
  }

  // ---------------------------------------------------------------- a tick as steps

  lemma ThenCrash(s: Sys, steps: seq<Step>, queue: seq<Row>, agg: Agg)
    requires Run(s, steps).queue == queue && Run(s, steps).agg == agg
    ensures Stands(Run(s, steps + [Crash]), queue, agg, Down, Run(s, steps).limit)
  {
    RunSnoc(s, steps, Crash);
  }

  lemma ThenClaim(s: Sys, order: seq<Event>, mem: Mem)
    requires s.proc == Idle(mem) && order != [] && Permutation(order, Due(s))
    ensures Stands(Run(s, [Claim(order)]), ClaimRows(s.queue, mem.next, s.limit), s.agg, Claimed(mem, order), s.limit)
  {
    RunOne(s, Claim(order));
  }

  lemma ThenApply(s: Sys, order: seq<Event>, mem: Mem, claimed: seq<Row>, now: int, after: Agg)
    requires Stands(Run(s, [Claim(order)]), claimed, s.agg, Claimed(mem, order), s.limit)
    requires ApplyTx(s.agg, mem.next, ToSamples(order), now) == Success(after)
    ensures Stands(Run(s, [Claim(order), Apply(now)]), claimed, after, Folded(mem, order), s.limit)
  {
    assert [Claim(order)] + [Apply(now)] == [Claim(order), Apply(now)];
    RunSnoc(s, [Claim(order)], Apply(now));
    Applies(Run(s, [Claim(order)]), order, mem, now, after);
  }

  lemma Applies(t: Sys, order: seq<Event>, mem: Mem, now: int, after: Agg)
    requires t.proc == Claimed(mem, order) && ApplyTx(t.agg, mem.next, ToSamples(order), now) == Success(after)
    ensures Stands(Do(t, Apply(now)), t.queue, after, Folded(mem, order), t.limit)
  {
  }

  lemma ThenAck(s: Sys, order: seq<Event>, mem: Mem, claimed: seq<Row>, now: int, agg: Agg)
    requires Stands(Run(s, [Claim(order), Apply(now)]), claimed, agg, Folded(mem, order), s.limit)
    ensures Stands(Run(s, [Claim(order), Apply(now), Ack]), AckRows(claimed, mem.next), agg,
                   Idle(Mem(mem.next + 1, mem.consumed + |order|, mem.batches + 1)), s.limit)
  {
    assert [Claim(order), Apply(now)] + [Ack] == [Claim(order), Apply(now), Ack];
    RunSnoc(s, [Claim(order), Apply(now)], Ack);
    Acks(Run(s, [Claim(order), Apply(now)]), order, mem);
  }

  lemma Acks(t: Sys, order: seq<Event>, mem: Mem)
    requires t.proc == Folded(mem, order)
    ensures Stands(Do(t, Ack), AckRows(t.queue, mem.next), t.agg,
                   Idle(Mem(mem.next + 1, mem.consumed + |order|, mem.batches + 1)), t.limit)
  {
  }

  /** In whatever order the rows came back, Apply does the same. */
  lemma ApplyFailsIff(s: Sys, order: seq<Event>, now: int)
    requires Ticks(s, order)
    ensures ApplyFails(s, now) <==> ApplyTx(s.agg, s.proc.mem.next, ToSamples(order), now).Failure?
  {
    Invariant.SamplesPermute(order, Due(s));
    Folding.ApplyOrderIrrelevant(s.agg, s.proc.mem.next, ToSamples(order), ToSamples(Due(s)), now);
  }

  lemma ThenDown(s: Sys, t: Timer, order: seq<Event>, queue: seq<Row>, agg: Agg)
    requires s.proc.Idle? && TickFails(s, t)
    requires Run(s, Committed(s, t, order)).queue == queue && Run(s, Committed(s, t, order)).agg == agg
    ensures Stands(AfterTick(s, t, order), queue, agg, Down, Run(s, Committed(s, t, order)).limit)
  {
    ThenCrash(s, Committed(s, t, order), queue, agg);
  }

  lemma ClaimFailed(s: Sys, t: Timer, mem: Mem)
    requires s.proc == Idle(mem) && t.claim != NoFault
    ensures TickFails(s, t)
    ensures Stands(AfterTick(s, t, Due(s)),
                   if t.claim == LostBeforeCommit then s.queue else ClaimRows(s.queue, mem.next, s.limit),
                   s.agg, Down, s.limit)
  {
    NothingPicked(s.queue, mem.next, s.limit);
    if Due(s) != [] && t.claim == LostAfterCommit {
      ThenClaim(s, Due(s), mem);
    }
    var queue := if t.claim == LostBeforeCommit then s.queue else ClaimRows(s.queue, mem.next, s.limit);
    ThenDown(s, t, Due(s), queue, s.agg);
  }

  lemma FoldFailed(s: Sys, t: Timer, order: seq<Event>, mem: Mem)
    requires s.proc == Idle(mem) && order != [] && Permutation(order, Due(s)) && t.claim == NoFault
    requires ApplyFails(s, t.now) || t.fold == LostBeforeCommit
    ensures TickFails(s, t)
    ensures Stands(AfterTick(s, t, order), ClaimRows(s.queue, mem.next, s.limit), s.agg, Down, s.limit)
  {
    PermutationLength(order, Due(s));
    ThenClaim(s, order, mem);
    ThenDown(s, t, order, ClaimRows(s.queue, mem.next, s.limit), s.agg);
  }

  /** The batch is claimed, and Apply on the tables gives `after`. */
  ghost predicate Foldable(s: Sys, t: Timer, order: seq<Event>, mem: Mem, after: Agg) {
    && s.proc == Idle(mem) && order != [] && Permutation(order, Due(s)) && t.claim == NoFault
    && ApplyTx(s.agg, mem.next, ToSamples(order), t.now) == Success(after)
  }

  lemma FoldLost(s: Sys, t: Timer, order: seq<Event>, mem: Mem, after: Agg)
    requires Foldable(s, t, order, mem, after) && t.fold == LostAfterCommit
    ensures TickFails(s, t)
    ensures Stands(AfterTick(s, t, order), ClaimRows(s.queue, mem.next, s.limit), after, Down, s.limit)
  {
    PermutationLength(order, Due(s));
    ApplyFailsIff(s, order, t.now);
    ThenClaim(s, order, mem);
    ThenApply(s, order, mem, ClaimRows(s.queue, mem.next, s.limit), t.now, after);
    ThenDown(s, t, order, ClaimRows(s.queue, mem.next, s.limit), after);
  }

  lemma AckFailed(s: Sys, t: Timer, order: seq<Event>, mem: Mem, after: Agg)
    requires Foldable(s, t, order, mem, after) && t.fold == NoFault && t.ack == LostBeforeCommit
    ensures TickFails(s, t)
    ensures Stands(AfterTick(s, t, order), ClaimRows(s.queue, mem.next, s.limit), after, Down, s.limit)
  {
    PermutationLength(order, Due(s));
    ApplyFailsIff(s, order, t.now);
    ThenClaim(s, order, mem);
    ThenApply(s, order, mem, ClaimRows(s.queue, mem.next, s.limit), t.now, after);
    ThenDown(s, t, order, ClaimRows(s.queue, mem.next, s.limit), after);
  }

  /** The three transactions commit; the last may still have reported an error. */
  lemma AllCommitted(s: Sys, t: Timer, order: seq<Event>, mem: Mem, after: Agg)
    requires Foldable(s, t, order, mem, after) && t.fold == NoFault && t.ack != LostBeforeCommit
    ensures TickFails(s, t) <==> t.ack != NoFault
    ensures Stands(AfterTick(s, t, order), AckRows(ClaimRows(s.queue, mem.next, s.limit), mem.next), after,
                   if t.ack != NoFault then Down else Idle(Mem(mem.next + 1, mem.consumed + |order|, mem.batches + 1)),
                   s.limit)
  {
    var claimed := ClaimRows(s.queue, mem.next, s.limit);
    PermutationLength(order, Due(s));
    ApplyFailsIff(s, order, t.now);
    ThenClaim(s, order, mem);
    ThenApply(s, order, mem, claimed, t.now, after);
    ThenAck(s, order, mem, claimed, t.now, after);
    if t.ack != NoFault {
      ThenDown(s, t, order, AckRows(claimed, mem.next), after);
    } else {
      assert Committed(s, t, order) + [] == Committed(s, t, order);
    }
  }

  /** Where a tick stands whose batch is claimed and folded, by the fate of its last transaction. */
  predicate Acked(u: Sys, ack: Fault, claimed: seq<Row>, after: Agg, mem: Mem, size: nat, limit: int) {
    Stands(u, if ack == LostBeforeCommit then claimed else AckRows(claimed, mem.next), after,
           if ack != NoFault then Down else Idle(Mem(mem.next + 1, mem.consumed + size, mem.batches + 1)), limit)
  }

  lemma AckOutcome(s: Sys, t: Timer, order: seq<Event>, mem: Mem, after: Agg, limit: int)
    requires Foldable(s, t, order, mem, after) && t.fold == NoFault && limit == s.limit
    ensures TickFails(s, t) <==> t.ack != NoFault
    ensures Acked(AfterTick(s, t, order), t.ack, ClaimRows(s.queue, mem.next, limit), after, mem, |order|, limit)
  {
    if t.ack == LostBeforeCommit {
      AckFailed(s, t, order, mem, after);
    } else {
      AllCommitted(s, t, order, mem, after);
    }
  }

  /** A claim that picks nothing changes nothing. */
  lemma NothingPicked(rows: seq<Row>, batch: int, limit: int)
    ensures PickedEvents(rows, limit, rows) == [] ==> ClaimRows(rows, batch, limit) == rows
  {
    PickedNone(rows, limit, |rows|);
    assert rows[..|rows|] == rows;
  }

  lemma {:induction false} PickedNone(rows: seq<Row>, limit: int, n: nat)
    requires n <= |rows|
    ensures PickedEvents(rows, limit, rows[..n]) == [] ==> forall i :: 0 <= i < n ==> !Picked(rows, limit, rows[i])
  {
    if n > 0 {
      assert rows[..n][..n - 1] == rows[..n - 1];
      PickedNone(rows, limit, n - 1);
    }
  }

  class Loop {
    const q: Queue
    const agg: Store
    const limit: int
    const stats: Stats
    var next: int

    ghost predicate Valid()
      reads this, stats, stats.durs
    {
      stats.Valid()
    }

    /** What the process remembers. */
    ghost function Memory(): Mem
      reads this, stats
    {
      Mem(next, stats.eventsConsumed, stats.batchesApplied)
    }

    /** The process stands between two ticks of the machine. */
    ghost predicate Between(s: Sys)
      reads this, q, agg, stats
    {
      Shows(q, agg, s) && s.limit == limit && s.proc == Idle(Memory())
    }

    /** A process that has recovered; New is the way to get one. */
    constructor Resume(q: Queue, agg: Store, limit: int, next: int, now: int)
      ensures Valid() && fresh(stats) && fresh(stats.durs)
      ensures this.q == q && this.agg == agg && this.limit == limit && this.next == next
      ensures stats.eventsConsumed == stats.batchesApplied == 0
      ensures stats.history == [] && stats.lastTickUnix == now && stats.lastFlushMs == 0
    {
      this.q, this.agg, this.limit, this.next := q, agg, limit, next;
      stats := new Stats(now);
    }

    /**
     * Startup: recovers, then continues the batch numbering after the last applied batch. It fails exactly
     * if one of its statements does.
     */
    static method New(q: Queue, agg: Store, limit: int, now: int, faults: nat -> Fault, last: Fault, ghost s: Sys)
        returns (l: Loop?, ghost ids: seq<int>)
      requires s.proc == Down && Shows(q, agg, s)
      modifies q
      ensures l == null <==> !AllPass(faults, 2 * |old(ClaimIds(q.rows))| + 1) || last != NoFault
      ensures faults(0) == NoFault ==> Enumerates(ids, old(ClaimIds(q.rows)))
      ensures Shows(q, agg, Run(s, StartupSteps(ids, limit, faults, last)))
      ensures l == null ==> Run(s, StartupSteps(ids, limit, faults, last)).proc == Down
      ensures l != null ==> fresh(l) && fresh(l.stats) && fresh(l.stats.durs) && l.Valid()
      ensures l != null ==>
        && l.stats.eventsConsumed == l.stats.batchesApplied == 0
        && l.stats.history == [] && l.stats.lastTickUnix == now && l.stats.lastFlushMs == 0
      ensures l != null ==> l.q == q && l.agg == agg && l.Between(Run(s, StartupSteps(ids, limit, faults, last)))
    {
      ghost var n := |ClaimIds(q.rows)|;
      var failed, lastId;
      failed, ids := Recover(q, agg, limit, faults, s);
      ghost var steps := RecoverySteps(ids, limit, faults);
      if failed {
        assert steps + [] == steps;
        return null, ids;
      }
      RunSnoc(s, steps, Crash);
      RunSnoc(s, steps, RecoverDone);
      failed, lastId := agg.LastBatchID(last);
      if failed {
        return null, ids;
      }
      l := new Loop.Resume(q, agg, limit, lastId + 1, now);
    }

    /**
     * Claims, folds and acknowledges at most one batch. It fails exactly if `TickFails` says so, and its
     * transactions leave the databases where `AfterTick` does; after an error the process is down.
     */
    method Tick(t: Timer, ghost s: Sys) returns (n: nat, failed: bool, ghost order: seq<Event>)
      requires Valid() && Between(s)
      modifies this`next, q, agg, stats, stats.durs
      ensures Valid() && Ticks(s, order)
      ensures failed <==> TickFails(s, t)
      ensures failed ==> n == 0 && Shows(q, agg, AfterTick(s, t, order)) && AfterTick(s, t, order).proc == Down
      ensures failed ==> Memory() == old(Memory()) && stats.history == old(stats.history)
      ensures !failed ==> Between(AfterTick(s, t, order)) && n == |Due(s)|
      ensures !failed ==> stats.lastTickUnix == t.now
      ensures !failed ==> stats.history == old(stats.history) + if n > 0 then [t.took] else []
      ensures !failed ==> stats.lastFlushMs == if n > 0 then t.nowMs else old(stats.lastFlushMs)
    {
      ghost var mem := s.proc.mem;
      var events;
      failed, events := q.Claim(next, limit, t.claim);
      n, order := 0, Due(s);
      if failed {
        ClaimFailed(s, t, mem);
        return;
      }
      PermutationLength(events, order);
      if events == [] {
        NothingPicked(s.queue, next, limit);
        stats.SawTick(t.now);
        return;
      }
      order := events;
      n, failed := FoldAndAck(events, t, s, mem);
    }

    /** The rest of a tick, once a batch is claimed. */
    method FoldAndAck(events: seq<Event>, t: Timer, ghost s: Sys, ghost mem: Mem) returns (n: nat, failed: bool)
      requires Valid() && s.limit == limit && s.proc == Idle(mem) && mem == Memory()
      requires events != [] && Permutation(events, Due(s)) && t.claim == NoFault
      requires q.rows == ClaimRows(s.queue, next, limit) && agg.State() == s.agg
      modifies this`next, q, agg, stats, stats.durs
      ensures Valid()
      ensures failed <==> TickFails(s, t)
      ensures failed ==> n == 0 && Shows(q, agg, AfterTick(s, t, events)) && AfterTick(s, t, events).proc == Down
      ensures failed ==> Memory() == old(Memory()) && stats.history == old(stats.history)
      ensures !failed ==> Between(AfterTick(s, t, events)) && n == |events|
      ensures !failed ==> stats.lastTickUnix == t.now && stats.lastFlushMs == t.nowMs
      ensures !failed ==> stats.history == old(stats.history) + [t.took]
    {
      n := 0;
      var samples := MakeSamples(events);
      ApplyFailsIff(s, events, t.now);
      var err := agg.Apply(next, samples, t.now, t.fold);
      failed := err.Some?;
      if failed {
        if ApplyFails(s, t.now) || t.fold == LostBeforeCommit {
          FoldFailed(s, t, events, mem);
        } else {
          FoldLost(s, t, events, mem, agg.State());
        }
        return;
      }
      AckOutcome(s, t, events, mem, agg.State(), limit);
      n, failed := AckBatch(|events|, t, mem, AfterTick(s, t, events));
    }

    /** The last transaction of a tick, and the counters; `u` is where the machine stands after it. */
    method AckBatch(size: nat, t: Timer, ghost mem: Mem, ghost u: Sys) returns (n: nat, failed: bool)
      requires Valid() && mem == Memory() && Acked(u, t.ack, q.rows, agg.State(), mem, size, limit)
      modifies this`next, q, stats, stats.durs
      ensures Valid()
      ensures failed <==> t.ack != NoFault
      ensures failed ==> n == 0 && Shows(q, agg, u) && u.proc == Down
      ensures failed ==> Memory() == old(Memory()) && stats.history == old(stats.history)
      ensures !failed ==> Between(u) && n == size
      ensures !failed ==> stats.lastTickUnix == t.now && stats.lastFlushMs == t.nowMs
      ensures !failed ==> stats.history == old(stats.history) + [t.took]
    {
      failed := q.Ack(next, t.ack);
      n := 0;
      if !failed {
        n := size;
        Count(t, size);
      }
    }

    /** The counters after a flush. */
    method Count(t: Timer, n: nat)
      requires Valid()
      modifies this`next, stats, stats.durs
      ensures Valid()
      ensures Memory() == Mem(old(next) + 1, old(stats.eventsConsumed) + n, old(stats.batchesApplied) + 1)
      ensures stats.lastTickUnix == t.now && stats.lastFlushMs == t.nowMs
      ensures stats.history == old(stats.history) + [t.took]
    {
      next := next + 1;
      stats.SawFlush(t.nowMs, n, t.took);
      stats.SawTick(t.now);
    }

    /** One firing of the timer, after i ticks that succeeded and led from `s` to `b`. */
    method Fire(timers: seq<Timer>, i: nat, ghost s: Sys, ghost orders: seq<seq<Event>>, ghost b: Sys)
        returns (failed: bool, ghost orders': seq<seq<Event>>, ghost b': Sys)
      requires Valid() && Between(b) && i < |timers| && |orders| == i
      requires b == After(s, timers[..i], orders) && AllTick(s, timers[..i], orders)
      modifies this`next, q, agg, stats, stats.durs
      ensures Valid() && |orders'| == i + 1 && b' == After(s, timers[..i + 1], orders')
      ensures !failed ==> AllTick(s, timers[..i + 1], orders') && Between(b')
      ensures failed ==> LastFails(s, timers[..i + 1], orders') && Shows(q, agg, b') && b'.proc == Down
    {
      ghost var order;
      var n;
      n, failed, order := Tick(timers[i], b);
      OneMoreTick(s, timers, orders, i, order);
      orders', b' := orders + [order], AfterTick(b, timers[i], order);
    }

    /** Ticks at every firing of the timer, until the list ends or a tick fails; a failed tick ends it at once. */
    method RunUntil(timers: seq<Timer>, ghost s: Sys) returns (failed: bool, ghost orders: seq<seq<Event>>)
      requires Valid() && Between(s)
      modifies this`next, q, agg, stats, stats.durs
      ensures Valid() && |orders| <= |timers|
      ensures !failed ==> |orders| == |timers| && AllTick(s, timers, orders) && Between(After(s, timers, orders))
      ensures failed ==> LastFails(s, timers[..|orders|], orders)
      ensures failed ==> var t := After(s, timers[..|orders|], orders); Shows(q, agg, t) && t.proc == Down
    {
      orders := [];
      ghost var b := s;
      for i := 0 to |timers|
        invariant Valid() && Between(b) && |orders| == i
        invariant b == After(s, timers[..i], orders) && AllTick(s, timers[..i], orders)
      {
        failed, orders, b := Fire(timers, i, s, orders, b);
        if failed {
          return;
        }
      }
      assert timers[..|timers|] == timers;
      failed := false;
    }

    /** The /stats figures: the counters, and the depth of the queue as it is now, unless that cannot be read. */
    method StatsSnapshot(fault: Fault) returns (snap: Option<Snapshot>)
      requires Valid()
      ensures snap.None? <==> fault != NoFault
      ensures snap.Some? ==>
        snap.value == Figures(stats.eventsConsumed, stats.batchesApplied, |Unclaimed(q.rows)|, stats.lastFlushMs,
                              DurationPercentile(stats.history, 50), DurationPercentile(stats.history, 95))
      ensures snap.Some? ==>
        var n := |stats.history|;
        var durs := if n <= 256 then stats.history else stats.history[n - 256..];
        Reports(snap.value.flushP50Ms, durs, 50) && Reports(snap.value.flushP95Ms, durs, 95)
      ensures snap.Some? ==> snap.value.flushP50Ms <= snap.value.flushP95Ms
    {
      var failed, depth := q.Depth(fault);
      if failed {
        return None;
      }
      var figures := stats.Snapshot(depth);
      snap := Some(figures);
    }
  }

  lemma OneMoreTick(s: Sys, timers: seq<Timer>, orders: seq<seq<Event>>, i: nat, order: seq<Event>)
    requires i < |timers| && |orders| == i && AllTick(s, timers[..i], orders)
    requires Ticks(After(s, timers[..i], orders), order)
    ensures After(s, timers[..i + 1], orders + [order]) == AfterTick(After(s, timers[..i], orders), timers[i], order)
    ensures var b := After(s, timers[..i], orders);
            if TickFails(b, timers[i]) then LastFails(s, timers[..i + 1], orders + [order])
            else AllTick(s, timers[..i + 1], orders + [order])
  {
    assert timers[..i + 1][..i] == timers[..i];
    assert (orders + [order])[..i] == orders;
  }
}
