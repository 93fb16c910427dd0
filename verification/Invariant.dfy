/** What holds after any run of the step machine, and that every step keeps it. */
module Invariant {
  import opened Common
  import opened Sequences
  import opened Aggregate
  import opened Rebuild
  import opened Folding
  import opened Queue
  import opened Protocol

  /**
   * What the databases are evidence of: the canonical log of folds, and the one batch in flight,
   * if any: the first `claimed` rows, all marked `id`.
   */
  datatype Witness = Witness(log: seq<Fold>, claimed: nat, id: int)

  /** The queue is one claimed block, all of one batch, then the unclaimed rows. */
  predicate QueueShape(rows: seq<Row>, w: Witness) {
    && IdsIncreasing(rows)
    && w.claimed <= |rows|
    && forall i :: 0 <= i < |rows| ==> rows[i].claim == if i < w.claimed then Some(w.id) else None
  }

  /** The markers are those of the newest KEEP_BATCHES of `last` batches. */
  ghost predicate MarkersUpTo(applied: map<int, int>, last: nat) {
    forall b :: b in applied <==> 1 <= b <= last && b > last - KEEP_BATCHES
  }

  /** Claimed rows that are already folded: the block in flight, once its batch is applied. */
  function Overlap(s: Sys, w: Witness): nat {
    if w.claimed > 0 && w.id == |s.applied| then w.claimed else 0
  }

  predicate BatchesNumbered(applied: seq<int>) {
    forall i :: 0 <= i < |applied| ==> applied[i] == i + 1
  }

  predicate SameTimes(a: seq<Fold>, b: seq<Fold>) {
    |a| == |b| && forall i :: 0 <= i < |a| ==> a[i].now == b[i].now
  }

  /** The log in arrival order is a prefix of the accepted events; what was folded is that log, permuted by batch. */
  ghost predicate LogInv(s: Sys, w: Witness) {
    && |s.folded| <= |s.accepted|
    && FoldedEvents(w.log) == s.accepted[..|s.folded|]
    && Permutation(s.folded, w.log)
    && SameTimes(s.folded, w.log)
    && IsRebuildOf(s.agg, Log(w.log))
  }

  predicate QueueInv(s: Sys, w: Witness) {
    && QueueShape(s.queue, w)
    && Overlap(s, w) <= |s.folded| <= |s.accepted|
    && Events(s.queue) == s.accepted[|s.folded| - Overlap(s, w)..]
    && (w.claimed > 0 ==> 1 <= w.id && (w.id == |s.applied| || w.id == |s.applied| + 1))
    && (w.claimed > 0 && s.claimLimit >= 0 ==> w.claimed <= s.claimLimit)
  }

  ghost predicate BatchInv(s: Sys) {
    && BatchesNumbered(s.applied)
    && MarkersUpTo(s.agg.applied, |s.applied|)
    && s.foldedBefore <= |s.folded|
    && s.appliedBefore <= |s.applied|
  }

  /** The memory of a process between batches, against what the databases say. */
  predicate MemInv(mem: Mem, s: Sys, folded: int, applied: int) {
    && mem.next == applied + 1
    && mem.consumed == folded - s.foldedBefore
    && mem.batches == applied - s.appliedBefore
  }

  ghost predicate ProcInv(s: Sys, w: Witness) {
    match s.proc
    case Down => true
    case Recovering(todo) => todo == if w.claimed > 0 then [w.id] else []
    case Idle(mem) => w.claimed == 0 && MemInv(mem, s, |s.folded|, |s.applied|)
    case Claimed(mem, events) =>
      && MemInv(mem, s, |s.folded|, |s.applied|)
      && 0 < w.claimed <= |s.queue| && w.id == mem.next
      && Permutation(events, Events(s.queue[..w.claimed]))
    case Folded(mem, events) =>
      && w.claimed > 0 && w.id == |s.applied| == mem.next
      && w.claimed == |events| <= |s.folded|
      && MemInv(mem, s, |s.folded| - |events|, |s.applied| - 1)
  }

  datatype Part = LogPart | QueuePart | BatchPart | ProcPart

  ghost predicate Holds(s: Sys, w: Witness, part: Part) {
    match part
    case LogPart => LogInv(s, w)
    case QueuePart => QueueInv(s, w)
    case BatchPart => BatchInv(s)
    case ProcPart => ProcInv(s, w)
  }

  ghost predicate Inv(s: Sys, w: Witness) {
    forall part :: Holds(s, w, part)
  }

  lemma InvParts(s: Sys, w: Witness)
    requires Inv(s, w)
    ensures LogInv(s, w) && QueueInv(s, w) && BatchInv(s) && ProcInv(s, w)
  {
    assert Holds(s, w, LogPart) && Holds(s, w, QueuePart) && Holds(s, w, BatchPart) && Holds(s, w, ProcPart);
  }

  lemma InvFrom(s: Sys, w: Witness)
    requires LogInv(s, w) && QueueInv(s, w) && BatchInv(s) && ProcInv(s, w)
    ensures Inv(s, w)
  {
  }

  // ---------------------------------------------------------------- the table under each statement

  lemma {:induction false} AckAppend(a: seq<Row>, b: seq<Row>, id: int)
    ensures AckRows(a + b, id) == AckRows(a, id) + AckRows(b, id)
  {
    if b == [] {
      assert a + b == a;
    } else {
      var init, last := b[..|b| - 1], b[|b| - 1];
      assert (a + b)[..|a + b| - 1] == a + init;
      AckAppend(a, init, id);
    }
  }

  lemma {:induction false} AllDropped(rows: seq<Row>, id: int)
    requires forall i :: 0 <= i < |rows| ==> rows[i].claim == Some(id)
    ensures AckRows(rows, id) == []
  {
    if rows != [] {
      AllDropped(rows[..|rows| - 1], id);
    }
  }

  lemma {:induction false} NoneDropped(rows: seq<Row>, id: int)
    requires forall i :: 0 <= i < |rows| ==> rows[i].claim == None
    ensures AckRows(rows, id) == rows
  {
    if rows != [] {
      NoneDropped(rows[..|rows| - 1], id);
    }
  }

  /** Deleting the claimed block leaves the rows after it. */
  lemma AckDropsBlock(rows: seq<Row>, claimed: nat, id: int)
    requires QueueShape(rows, Witness([], claimed, id))
    ensures AckRows(rows, id) == rows[claimed..]
  {
    AllDropped(rows[..claimed], id);
    NoneDropped(rows[claimed..], id);
    AckAppend(rows[..claimed], rows[claimed..], id);
    assert rows[..claimed] + rows[claimed..] == rows;
  }

  lemma UnclaimFreesBlock(rows: seq<Row>, claimed: nat, id: int)
    requires QueueShape(rows, Witness([], claimed, id)) && claimed > 0
    ensures QueueShape(UnclaimRows(rows, id), Witness([], 0, id))
    ensures Events(UnclaimRows(rows, id)) == Events(rows)
  {
  }

  lemma {:induction false} AllUnclaimed(rows: seq<Row>)
    requires forall i :: 0 <= i < |rows| ==> rows[i].claim == None
    ensures Unclaimed(rows) == rows
  {
    if rows != [] {
      AllUnclaimed(rows[..|rows| - 1]);
    }
  }

  lemma PickedIffFirst(rows: seq<Row>, batch: int, limit: int, i: nat)
    requires QueueShape(rows, Witness([], 0, batch)) && i < |rows|
    ensures Picked(rows, limit, rows[i]) <==> i < Take(limit, |rows|)
  {
    OlderIsEarlier(rows, i);
    AllUnclaimed(rows[..i]);
  }

  /** Claiming from a queue with nothing in flight marks the first rows and returns their events. */
  lemma ClaimMarksBlock(rows: seq<Row>, batch: int, limit: int)
    requires QueueShape(rows, Witness([], 0, batch))
    ensures QueueShape(ClaimRows(rows, batch, limit), Witness([], Take(limit, |rows|), batch))
    ensures Events(ClaimRows(rows, batch, limit)) == Events(rows)
    ensures PickedEvents(rows, limit, rows) == Events(rows)[..Take(limit, |rows|)]
  {
    forall i | 0 <= i < |rows|
      ensures Picked(rows, limit, rows[i]) <==> i < Take(limit, |rows|)
    {
      PickedIffFirst(rows, batch, limit, i);
    }
    assert PickedEvents(rows, limit, rows) == Events(rows)[..Take(limit, |rows|)] by {
      ClaimTakesOldest(rows, limit);
      AllUnclaimed(rows);
    }
  }

  lemma ClaimIdsOfShape(rows: seq<Row>, w: Witness, ids: seq<int>)
    requires QueueShape(rows, w) && Enumerates(ids, ClaimIds(rows))
    ensures ids == if w.claimed > 0 then [w.id] else []
  {
    if w.claimed > 0 {
      assert rows[0] in rows;
      assert ClaimIds(rows) == {w.id};
      assert ids == [ids[0]] && w.id in ids;
    } else {
      assert ClaimIds(rows) == {};
    }
  }

  // ---------------------------------------------------------------- markers

  lemma LastBatchIs(applied: map<int, int>, last: nat)
    requires MarkersUpTo(applied, last)
    ensures LastBatch(applied) == last
  {
    if last > 0 {
      assert last in applied;
      MaxExists(applied.Keys);
    } else {
      assert forall b :: b !in applied;
      assert applied == map[];
    }
  }

  lemma MarkKeeps(applied: map<int, int>, last: nat, now: int)
    requires MarkersUpTo(applied, last)
    ensures MarkersUpTo(Mark(applied, last + 1, now), last + 1)
    ensures last + 1 !in applied
  {
  }

  // ---------------------------------------------------------------- each step

  lemma QueueAfterEnqueue(s: Sys, w: Witness, t: Sys, e: Event)
    requires QueueInv(s, w) && t.queue == EnqueueRow(s.queue, e) && t.accepted == s.accepted + [e]
    requires t.applied == s.applied && t.folded == s.folded && t.claimLimit == s.claimLimit
    ensures QueueInv(t, w) && t.queue[..w.claimed] == s.queue[..w.claimed]
  {
    var from := |s.folded| - Overlap(s, w);
    EnqueueKeepsOrder(s.queue, e);
    assert t.accepted[from..] == s.accepted[from..] + [e];
    assert Events(t.queue) == Events(s.queue) + [e];
  }

  lemma EnqueueKeeps(s: Sys, w: Witness, e: Event)
    requires Inv(s, w)
    ensures Inv(Do(s, Enqueue(e)), w)
  {
    InvParts(s, w);
    var t := Do(s, Enqueue(e));
    assert t == s.(queue := EnqueueRow(s.queue, e), accepted := s.accepted + [e]);
    QueueAfterEnqueue(s, w, t, e);
    assert t.accepted[..|s.folded|] == s.accepted[..|s.folded|];
    InvFrom(t, w);
  }

  lemma StartKeeps(s: Sys, w: Witness, ids: seq<int>, limit: int)
    requires Inv(s, w)
    ensures Inv(Do(s, Start(ids, limit)), w)
  {
    InvParts(s, w);
    if s.proc.Down? && Enumerates(ids, ClaimIds(s.queue)) {
      ClaimIdsOfShape(s.queue, w, ids);
    }
  }

  /** The block in flight is deleted if it was folded. */
  lemma AckedQueue(s: Sys, w: Witness, t: Sys)
    requires QueueInv(s, w) && w.claimed > 0 && w.id == |s.applied|
    requires t.queue == AckRows(s.queue, w.id) && t.accepted == s.accepted
    requires t.applied == s.applied && |t.folded| == |s.folded|
    ensures QueueInv(t, w.(claimed := 0))
  {
    AckDropsBlock(s.queue, w.claimed, w.id);
    assert Events(s.queue[w.claimed..]) == Events(s.queue)[w.claimed..];
    assert s.accepted[|s.folded| - w.claimed..][w.claimed..] == s.accepted[|s.folded|..];
  }

  lemma RecoverOneKeeps(s: Sys, w: Witness) returns (v: Witness)
    requires Inv(s, w)
    ensures Inv(Do(s, RecoverOne), v) && v.log == w.log
  {
    InvParts(s, w);
    v := w;
    if s.proc.Recovering? && s.proc.todo != [] {
      v := w.(claimed := 0);
      if w.id == |s.applied| {
        assert w.id in s.agg.applied;
        AckedQueue(s, w, Do(s, RecoverOne));
      } else {
        UnclaimFreesBlock(s.queue, w.claimed, w.id);
      }
    }
  }

  lemma RecoverDoneKeeps(s: Sys, w: Witness)
    requires Inv(s, w)
    ensures Inv(Do(s, RecoverDone), w)
  {
    InvParts(s, w);
    if s.proc == Recovering([]) {
      LastBatchIs(s.agg.applied, |s.applied|);
    }
  }

  /** What a claim changes. */
  lemma Claims(s: Sys, order: seq<Event>)
    requires s.proc.Idle? && order != [] && Permutation(order, PickedEvents(s.queue, s.limit, s.queue))
    ensures Do(s, Claim(order)) ==
            s.(queue := ClaimRows(s.queue, s.proc.mem.next, s.limit), claimLimit := s.limit,
               proc := Claimed(s.proc.mem, order))
  {
  }

  lemma ClaimedQueue(s: Sys, w: Witness, t: Sys, v: Witness)
    requires QueueInv(s, w) && w.claimed == 0 && v.claimed == Take(s.limit, |s.queue|) && v.id == |s.applied| + 1
    requires t.queue == ClaimRows(s.queue, v.id, s.limit) && t.claimLimit == s.limit
    requires t.accepted == s.accepted && t.applied == s.applied && t.folded == s.folded
    ensures QueueInv(t, v)
    ensures PickedEvents(s.queue, s.limit, s.queue) == Events(t.queue[..v.claimed])
  {
    ClaimMarksBlock(s.queue, v.id, s.limit);
    assert Events(t.queue[..v.claimed]) == Events(t.queue)[..v.claimed] == Events(s.queue)[..v.claimed];
  }

  lemma ClaimKeeps(s: Sys, w: Witness, order: seq<Event>) returns (v: Witness)
    requires Inv(s, w)
    ensures Inv(Do(s, Claim(order)), v) && v.log == w.log
  {
    v := w;
    if s.proc.Idle? && order != [] && Permutation(order, PickedEvents(s.queue, s.limit, s.queue)) {
      var t := Do(s, Claim(order));
      v := Witness(w.log, Take(s.limit, |s.queue|), s.proc.mem.next);
      InvParts(s, w);
      Claims(s, order);
      ClaimedQueue(s, w, t, v);
      PermutationLength(order, PickedEvents(s.queue, s.limit, s.queue));
      InvFrom(t, v);
    }
  }

  lemma {:induction false} SamplesPermute(a: seq<Event>, b: seq<Event>)
    requires Permutation(a, b)
    ensures Permutation(ToSamples(a), ToSamples(b))
  {
    if a == [] {
      PermutationLength(a, b);
    } else {
      var i := LastIn(a, b);
      SamplesPermute(a[..|a| - 1], WithoutAt(b, i));
      assert ToSamples(a) == ToSamples(a[..|a| - 1]) + [SampleOf(a[|a| - 1])];
      assert ToSamples(WithoutAt(b, i)) == WithoutAt(ToSamples(b), i);
      WithoutAtMultiset(ToSamples(b), i);
    }
  }

  lemma {:induction false} FoldsPermute(a: seq<Event>, b: seq<Event>, now: int)
    requires Permutation(a, b)
    ensures Permutation(Folds(a, now), Folds(b, now))
  {
    if a == [] {
      PermutationLength(a, b);
    } else {
      var i := LastIn(a, b);
      FoldsPermute(a[..|a| - 1], WithoutAt(b, i), now);
      assert Folds(a, now) == Folds(a[..|a| - 1], now) + [Fold(a[|a| - 1], now)];
      assert Folds(WithoutAt(b, i), now) == WithoutAt(Folds(b, now), i);
      WithoutAtMultiset(Folds(b, now), i);
    }
  }

  /** Apply on tables that agree with a log succeeds, and equals folding the batch in arrival order. */
  lemma ApplyInArrivalOrder(agg: Agg, log: seq<Fold>, last: nat, handed: seq<Event>, arrived: seq<Event>, now: int)
      returns (after: Agg)
    requires IsRebuildOf(agg, Log(log)) && MarkersUpTo(agg.applied, last) && Permutation(handed, arrived)
    ensures ApplyTx(agg, last + 1, ToSamples(handed), now) == Success(after)
    ensures IsRebuildOf(after, Log(log + Folds(arrived, now)))
    ensures MarkersUpTo(after.applied, last + 1)
  {
    SamplesPermute(handed, arrived);
    ApplyOrderIrrelevant(agg, last + 1, ToSamples(handed), ToSamples(arrived), now);
    MarkKeeps(agg.applied, last, now);
    ApplyExtendsLog(agg, Log(log), last + 1, ToSamples(arrived), now);
    assert Log(log + Folds(arrived, now)) == Log(log) + Stamp(ToSamples(arrived), now);
    after := FoldBatch(agg, last + 1, ToSamples(arrived), now);
  }

  /** The events of the block in flight are the oldest ones not folded. */
  lemma BlockIsOldest(s: Sys, w: Witness)
    requires QueueInv(s, w) && Overlap(s, w) == 0
    ensures |s.folded| + w.claimed <= |s.accepted|
    ensures Events(s.queue[..w.claimed]) == s.accepted[|s.folded|..|s.folded| + w.claimed]
  {
    var n, k := |s.folded|, w.claimed;
    assert |Events(s.queue)| == |s.accepted[n..]|;
    assert Events(s.queue[..k]) == Events(s.queue)[..k] == s.accepted[n..][..k] == s.accepted[n..n + k];
  }

  lemma LogGrows(s: Sys, w: Witness, t: Sys, arrived: seq<Event>, handed: seq<Event>, now: int)
    requires LogInv(s, w) && Permutation(handed, arrived) && t.accepted == s.accepted
    requires |s.folded| + |arrived| <= |s.accepted|
    requires arrived == s.accepted[|s.folded|..|s.folded| + |arrived|]
    requires t.folded == s.folded + Folds(handed, now)
    requires IsRebuildOf(t.agg, Log(w.log + Folds(arrived, now)))
    ensures LogInv(t, w.(log := w.log + Folds(arrived, now)))
  {
    PermutationLength(handed, arrived);
    FoldsPermute(handed, arrived, now);
    assert FoldedEvents(w.log + Folds(arrived, now)) == FoldedEvents(w.log) + arrived;
    assert s.accepted[..|s.folded|] + arrived == s.accepted[..|s.folded| + |arrived|];
  }

  lemma QueueAfterApply(s: Sys, w: Witness, t: Sys, v: Witness)
    requires QueueInv(s, w) && w.claimed > 0 && w.id == |s.applied| + 1
    requires t.queue == s.queue && t.accepted == s.accepted && t.claimLimit == s.claimLimit
    requires |t.applied| == |s.applied| + 1 && |t.folded| == |s.folded| + w.claimed
    requires v.claimed == w.claimed && v.id == w.id
    ensures QueueInv(t, v)
  {
    BlockIsOldest(s, w);
  }

  /** Applying a claimed batch that the tables accept. */
  lemma AppliesTo(s: Sys, now: int, after: Agg)
    requires s.proc.Claimed? && ApplyTx(s.agg, s.proc.mem.next, ToSamples(s.proc.events), now) == Success(after)
    ensures Do(s, Apply(now)) ==
            s.(agg := after, proc := Folded(s.proc.mem, s.proc.events),
               folded := s.folded + Folds(s.proc.events, now), applied := s.applied + [s.proc.mem.next])
  {
  }

  /** A claimed batch applies; the log grows by it in arrival order. */
  lemma ApplyStep(s: Sys, w: Witness, now: int, arrived: seq<Event>) returns (after: Agg)
    requires Inv(s, w) && s.proc.Claimed? && w.claimed <= |s.queue| && arrived == Events(s.queue[..w.claimed])
    ensures Do(s, Apply(now)) ==
            s.(agg := after, proc := Folded(s.proc.mem, s.proc.events),
               folded := s.folded + Folds(s.proc.events, now), applied := s.applied + [s.proc.mem.next])
    ensures IsRebuildOf(after, Log(w.log + Folds(arrived, now)))
    ensures MarkersUpTo(after.applied, |s.applied| + 1)
  {
    InvParts(s, w);
    after := ApplyInArrivalOrder(s.agg, w.log, |s.applied|, s.proc.events, arrived, now);
    AppliesTo(s, now, after);
  }

  lemma BatchAfterApply(s: Sys, t: Sys)
    requires BatchInv(s) && t.applied == s.applied + [|s.applied| + 1] && s.folded <= t.folded
    requires MarkersUpTo(t.agg.applied, |s.applied| + 1)
    requires t.foldedBefore == s.foldedBefore && t.appliedBefore == s.appliedBefore
    ensures BatchInv(t)
  {
  }

  lemma ApplyKeeps(s: Sys, w: Witness, now: int) returns (v: Witness)
    requires Inv(s, w)
    ensures Inv(Do(s, Apply(now)), v)
    ensures s.proc.Claimed? ==> Do(s, Apply(now)).proc == Folded(s.proc.mem, s.proc.events)
    ensures s.proc.Claimed? ==> w.claimed <= |s.queue| && v.log == w.log + Folds(Events(s.queue[..w.claimed]), now)
    ensures !s.proc.Claimed? ==> v.log == w.log
  {
    v := w;
    if s.proc.Claimed? {
      InvParts(s, w);
      var arrived := Events(s.queue[..w.claimed]);
      v := w.(log := w.log + Folds(arrived, now));
      var after := ApplyStep(s, w, now, arrived);
      AppliedKeeps(s, w, Do(s, Apply(now)), v, now, arrived, after);
    }
  }

  /** The invariant after an Apply, part by part. */
  lemma AppliedKeeps(s: Sys, w: Witness, t: Sys, v: Witness, now: int, arrived: seq<Event>, after: Agg)
    requires LogInv(s, w) && QueueInv(s, w) && BatchInv(s) && ProcInv(s, w) && s.proc.Claimed?
    requires arrived == Events(s.queue[..w.claimed]) && v == w.(log := w.log + Folds(arrived, now))
    requires t == s.(agg := after, proc := Folded(s.proc.mem, s.proc.events),
                     folded := s.folded + Folds(s.proc.events, now), applied := s.applied + [s.proc.mem.next])
    requires IsRebuildOf(after, Log(v.log)) && MarkersUpTo(after.applied, |s.applied| + 1)
    ensures Inv(t, v)
  {
    PermutationLength(s.proc.events, arrived);
    BlockIsOldest(s, w);
    LogGrows(s, w, t, arrived, s.proc.events, now);
    QueueAfterApply(s, w, t, v);
    BatchAfterApply(s, t);
    InvFrom(t, v);
  }

  lemma AckKeeps(s: Sys, w: Witness) returns (v: Witness)
    requires Inv(s, w)
    ensures Inv(Do(s, Ack), v) && v.log == w.log
  {
    InvParts(s, w);
    v := w;
    if s.proc.Folded? {
      v := w.(claimed := 0);
      AckedQueue(s, w, Do(s, Ack));
    }
  }

  lemma CrashKeeps(s: Sys, w: Witness)
    requires Inv(s, w)
    ensures Inv(Do(s, Crash), w) && Do(s, Crash) == s.(proc := Down)
  {
    InvParts(s, w);
  }

  lemma StepKeeps(s: Sys, w: Witness, step: Step) returns (v: Witness)
    requires Inv(s, w)
    ensures Inv(Do(s, step), v)
  {
    v := w;
    match step
    case Enqueue(e) => EnqueueKeeps(s, w, e);
    case Start(ids, limit) => StartKeeps(s, w, ids, limit);
    case RecoverOne => v := RecoverOneKeeps(s, w);
    case RecoverDone => RecoverDoneKeeps(s, w);
    case Claim(order) => v := ClaimKeeps(s, w, order);
    case Apply(now) => v := ApplyKeeps(s, w, now);
    case Ack => v := AckKeeps(s, w);
    case Crash => CrashKeeps(s, w);
  }

  lemma InitInv()
    ensures Inv(Init(), Witness([], 0, 0))
  {
  }

  /** Every run, whatever its interleaving and crashes, keeps the invariant. */
  lemma {:induction false} RunKeeps(steps: seq<Step>) returns (w: Witness)
    ensures Inv(Run(Init(), steps), w)
  {
    if steps == [] {
      InitInv();
      w := Witness([], 0, 0);
    } else {
      w := RunKeeps(steps[..|steps| - 1]);
      w := StepKeeps(Run(Init(), steps[..|steps| - 1]), w, steps[|steps| - 1]);
    }
  }
}
