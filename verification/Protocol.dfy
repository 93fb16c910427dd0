/**
 * The worker, the producer and their two databases as one step machine. Every transaction is a step;
 * a crash may fall between any two steps, again and again.
 */
module Protocol {
  import opened Sequences
  import opened Aggregate
  import opened Rebuild
  import opened Queue

  // ---------------------------------------------------------------- events as samples

  /** math.Round: to the nearest integer, halves away from zero. */
  function RoundHalfAway(x: real): int {
    if x >= 0.0 then (x + 0.5).Floor else -(-x + 0.5).Floor
  }

  /** `v` is the integer nearest to `x`; a tie goes up above zero and down below it. */
  predicate Nearest(v: int, x: real) {
    && x - 0.5 <= v as real <= x + 0.5
    && (v as real == x + 0.5 ==> x > 0.0)
    && (v as real == x - 0.5 ==> x < 0.0)
  }

  lemma NearestIsOne(v: int, w: int, x: real)
    requires Nearest(v, x) && Nearest(w, x)
    ensures v == w
  {
    assert (v - w) as real == v as real - w as real;
  }

  lemma RoundIsNearest(x: real)
    ensures Nearest(RoundHalfAway(x), x)
  {
    if x < 0.0 {
      var f := (-x + 0.5).Floor;
      assert f as real <= -x + 0.5 < f as real + 1.0;
    }
  }

  function SampleOf(e: Event): Sample {
    Sample(e.siteId, e.pageUrl, RoundHalfAway(e.lcpMs))
  }

  /** A sample is the event's site, its page and its LCP in whole milliseconds. */
  lemma SampleMeaning(e: Event)
    ensures SampleOf(e).site == e.siteId && SampleOf(e).page == e.pageUrl
    ensures Nearest(SampleOf(e).ms, e.lcpMs)
  {
    RoundIsNearest(e.lcpMs);
  }

  function ToSamples(events: seq<Event>): seq<Sample> {
    seq(|events|, i requires 0 <= i < |events| => SampleOf(events[i]))
  }

  // ---------------------------------------------------------------- state

  /** What the worker process keeps in memory: the next batch id and its two counters. */
  datatype Mem = Mem(next: int, consumed: nat, batches: nat)

  /** Where the worker process stands between two transactions. */
  datatype Proc =
    | Down
    | Recovering(todo: seq<int>)
    | Idle(mem: Mem)
    | Claimed(mem: Mem, events: seq<Event>)
    | Folded(mem: Mem, events: seq<Event>)

  /** An event as it was handed to Apply. */
  datatype Fold = Fold(event: Event, now: int)

  /**
   * The two databases and the process, with the history the properties speak of: all events accepted
   * by the producer, all events folded, all batch ids ever applied, and how much had been folded and
   * applied when the present process started ticking. `limit` is the batch limit of the process started
   * last, `claimLimit` the one in force at the last claim.
   */
  datatype Sys = Sys(
    limit: int,
    claimLimit: int,
    queue: seq<Row>,
    agg: Agg,
    proc: Proc,
    accepted: seq<Event>,
    folded: seq<Fold>,
    applied: seq<int>,
    foldedBefore: nat,
    appliedBefore: nat)

  function Init(): Sys {
    Sys(0, 0, [], EMPTY_AGG, Down, [], [], [], 0, 0)
  }

  function Folds(events: seq<Event>, now: int): seq<Fold> {
    seq(|events|, i requires 0 <= i < |events| => Fold(events[i], now))
  }

  function FoldedEvents(f: seq<Fold>): seq<Event> {
    seq(|f|, i requires 0 <= i < |f| => f[i].event)
  }

  /** The sample log a sequence of folds stands for. */
  function Log(f: seq<Fold>): seq<Stamped> {
    seq(|f|, i requires 0 <= i < |f| => Stamped(SampleOf(f[i].event), f[i].now))
  }

  // ---------------------------------------------------------------- steps

  /** The arguments resolve what is left open: row orders, the clock, and a new process's batch limit. */
  datatype Step =
    | Enqueue(event: Event)
    | Start(ids: seq<int>, limit: int)
    | RecoverOne
    | RecoverDone
    | Claim(order: seq<Event>)
    | Apply(now: int)
    | Ack
    | Crash

  /** One step; a step that is not possible in the state changes nothing. */
  ghost function Do(s: Sys, step: Step): Sys {
    match step
    case Enqueue(e) => s.(queue := EnqueueRow(s.queue, e), accepted := s.accepted + [e])
    case Start(ids, limit) =>
      if s.proc.Down? && Enumerates(ids, ClaimIds(s.queue)) then s.(proc := Recovering(ids), limit := limit) else s
    case RecoverOne =>
      if s.proc.Recovering? && s.proc.todo != [] then
        var id := s.proc.todo[0];
        s.(queue := if id in s.agg.applied then AckRows(s.queue, id) else UnclaimRows(s.queue, id),
           proc := Recovering(s.proc.todo[1..]))
      else s
    case RecoverDone =>
      if s.proc == Recovering([]) then
        s.(proc := Idle(Mem(LastBatch(s.agg.applied) + 1, 0, 0)),
           foldedBefore := |s.folded|, appliedBefore := |s.applied|)
      else s
    case Claim(order) =>
      if s.proc.Idle? && order != [] && Permutation(order, PickedEvents(s.queue, s.limit, s.queue)) then
        s.(queue := ClaimRows(s.queue, s.proc.mem.next, s.limit), claimLimit := s.limit,
           proc := Claimed(s.proc.mem, order))
      else s
    case Apply(now) =>
      if s.proc.Claimed? then
        match ApplyTx(s.agg, s.proc.mem.next, ToSamples(s.proc.events), now)
        case Failure(_) => s.(proc := Down)
        case Success(agg) =>
          s.(agg := agg, proc := Folded(s.proc.mem, s.proc.events),
             folded := s.folded + Folds(s.proc.events, now), applied := s.applied + [s.proc.mem.next])
      else s
    case Ack =>
      if s.proc.Folded? then
        var mem := s.proc.mem;
        s.(queue := AckRows(s.queue, mem.next),
           proc := Idle(Mem(mem.next + 1, mem.consumed + |s.proc.events|, mem.batches + 1)))
      else s
    case Crash => s.(proc := Down)
  }

  /** Any interleaving whatsoever. */
  ghost function Run(s: Sys, steps: seq<Step>): Sys {
    if steps == [] then s else Do(Run(s, steps[..|steps| - 1]), steps[|steps| - 1])
  }

  lemma {:induction false} RunAppend(s: Sys, a: seq<Step>, b: seq<Step>)
    ensures Run(s, a + b) == Run(Run(s, a), b)
  {
    if b == [] {
      assert a + b == a;
    } else {
      assert (a + b)[..|a + b| - 1] == a + b[..|b| - 1];
      RunAppend(s, a, b[..|b| - 1]);
    }
  }
}
