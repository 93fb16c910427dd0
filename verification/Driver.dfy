/**
 * What the worker's startup, one tick and the event loop do as steps of the machine, for every fate of
 * their transactions. Loop.dfy proves the methods against it.
 */
module Driver {
  import opened Common
  import opened Sequences
  import opened Aggregate
  import opened Queue
  import opened Protocol
  import Theorems

  // ---------------------------------------------------------------- short runs

  lemma RunSnoc(s: Sys, steps: seq<Step>, step: Step)
    ensures Run(s, steps + [step]) == Do(Run(s, steps), step)
  {
    assert (steps + [step])[..|steps|] == steps;
  }

  lemma RunOne(s: Sys, a: Step)
    ensures Run(s, [a]) == Do(s, a)
  {
    assert [a][..|[a]| - 1] == [];
  }

  lemma RunTwo(s: Sys, a: Step, b: Step)
    ensures Run(s, [a, b]) == Do(Do(s, a), b)
  {
    RunOne(s, a);
    var steps := [a, b];
    assert steps[..|steps| - 1] == [a];
  }

  lemma RunThree(s: Sys, a: Step, b: Step, c: Step)
    ensures Run(s, [a, b, c]) == Do(Do(Do(s, a), b), c)
  {
    RunTwo(s, a, b);
    var steps := [a, b, c];
    assert steps[..|steps| - 1] == [a, b];
  }

  // ---------------------------------------------------------------- startup

  /** The first n statements of a startup succeed. */
  ghost predicate AllPass(faults: nat -> Fault, n: nat) {
    forall i: nat :: i < n ==> faults(i) == NoFault
  }

  /**
   * Of n claims, from the i-th on, how many resolutions commit. `faults(0)` is the fate of the listing,
   * `faults(2 * i + 1)` of looking up the i-th claim, `faults(2 * i + 2)` of acknowledging or freeing it.
   */
  ghost function Resolved(faults: nat -> Fault, i: nat, n: nat): (done: nat)
    requires i <= n
    ensures i <= done <= n
    decreases n - i
  {
    if i == n || faults(2 * i + 1) != NoFault || faults(2 * i + 2) == LostBeforeCommit then i
    else if faults(2 * i + 2) == LostAfterCommit then i + 1
    else Resolved(faults, i + 1, n)
  }

  /** The claims found are listed and the first `done` of them resolved. */
  function ListedSteps(ids: seq<int>, limit: int, done: nat): seq<Step> {
    [Start(ids, limit)] + seq(done, i => RecoverOne)
  }

  /** A recovery: as far as its statements succeed. */
  ghost function RecoverySteps(ids: seq<int>, limit: int, faults: nat -> Fault): seq<Step> {
    if faults(0) != NoFault then []
    else
      ListedSteps(ids, limit, Resolved(faults, 0, |ids|)) + (if AllPass(faults, 2 * |ids| + 1) then [] else [Crash])
  }

  /** A startup: recovery, then the last batch id is read, with the fate `last`. */
  ghost function StartupSteps(ids: seq<int>, limit: int, faults: nat -> Fault, last: Fault): seq<Step> {
    RecoverySteps(ids, limit, faults)
    + (if !AllPass(faults, 2 * |ids| + 1) then [] else if last != NoFault then [Crash] else [RecoverDone])
  }

  // ---------------------------------------------------------------- one tick

  /** One firing of the poll timer: the clock readings and the fates of the tick's transactions. */
  datatype Timer = Timer(now: int, nowMs: int, took: int, claim: Fault, fold: Fault, ack: Fault)

  /** The events a claim would hand out. */
  function Due(s: Sys): seq<Event> {
    PickedEvents(s.queue, s.limit, s.queue)
  }

  ghost predicate ApplyFails(s: Sys, now: int)
    requires s.proc.Idle?
  {
    ApplyTx(s.agg, s.proc.mem.next, ToSamples(Due(s)), now).Failure?
  }

  /** The tick returns an error. */
  ghost predicate TickFails(s: Sys, t: Timer)
    requires s.proc.Idle?
  {
    t.claim != NoFault || (Due(s) != [] && (ApplyFails(s, t.now) || t.fold != NoFault || t.ack != NoFault))
  }

  /** The transactions of a tick that commit, the claimed rows returned in this order. */
  ghost function Committed(s: Sys, t: Timer, order: seq<Event>): seq<Step>
    requires s.proc.Idle?
  {
    if Due(s) == [] || t.claim == LostBeforeCommit then []
    else if t.claim == LostAfterCommit || ApplyFails(s, t.now) || t.fold == LostBeforeCommit then [Claim(order)]
    else if t.fold == LostAfterCommit || t.ack == LostBeforeCommit then [Claim(order), Apply(t.now)]
    else [Claim(order), Apply(t.now), Ack]
  }

  /** A tick; after an error the process goes down. */
  ghost function TickSteps(s: Sys, t: Timer, order: seq<Event>): seq<Step>
    requires s.proc.Idle?
  {
    Committed(s, t, order) + (if TickFails(s, t) then [Crash] else [])
  }

  ghost function AfterTick(s: Sys, t: Timer, order: seq<Event>): Sys
    requires s.proc.Idle?
  {
    Run(s, TickSteps(s, t, order))
  }

  /** In every reachable state a tick fails exactly if one of its transactions does: applying never does by itself. */
  lemma TickFailsIff(steps: seq<Step>, t: Timer)
    requires Run(Init(), steps).proc.Idle?
    ensures var s := Run(Init(), steps);
            TickFails(s, t) <==>
            t.claim != NoFault || (Due(s) != [] && (t.fold != NoFault || t.ack != NoFault))
  {
    var s := Run(Init(), steps);
    if Due(s) != [] {
      RunSnoc(Init(), steps, Claim(Due(s)));
      Theorems.ApplyNeverFails(steps + [Claim(Due(s))], t.now);
      ClaimThenApply(s, t.now);
    }
  }

  lemma ClaimThenApply(s: Sys, now: int)
    requires s.proc.Idle? && Due(s) != []
    ensures Do(s, Claim(Due(s))).proc == Claimed(s.proc.mem, Due(s))
    ensures Do(Do(s, Claim(Due(s))), Apply(now)).proc == Folded(s.proc.mem, Due(s)) ==> !ApplyFails(s, now)
  {
  }

  // ---------------------------------------------------------------- the event loop

  /** The state after one tick per timer, with the row orders of their claims. */
  ghost function After(s: Sys, timers: seq<Timer>, orders: seq<seq<Event>>): Sys
    requires |timers| == |orders|
  {
    if timers == [] then s
    else
      var n := |timers| - 1;
      var b := After(s, timers[..n], orders[..n]);
      if b.proc.Idle? then AfterTick(b, timers[n], orders[n]) else b
  }

  /** One more tick starts between two ticks and returns its rows in this order. */
  ghost predicate Ticks(b: Sys, order: seq<Event>) {
    b.proc.Idle? && Permutation(order, Due(b))
  }

  /** Every timer fires a tick, and every one succeeds. */
  ghost predicate AllTick(s: Sys, timers: seq<Timer>, orders: seq<seq<Event>>)
    requires |timers| == |orders|
  {
    timers == [] ||
    var n := |timers| - 1;
    var b := After(s, timers[..n], orders[..n]);
    AllTick(s, timers[..n], orders[..n]) && Ticks(b, orders[n]) && !TickFails(b, timers[n])
  }

  /** The last timer's tick is the first to fail. */
  ghost predicate LastFails(s: Sys, timers: seq<Timer>, orders: seq<seq<Event>>)
    requires |timers| == |orders|
  {
    timers != [] &&
    var n := |timers| - 1;
    var b := After(s, timers[..n], orders[..n]);
    AllTick(s, timers[..n], orders[..n]) && Ticks(b, orders[n]) && TickFails(b, timers[n])
  }

  /** The event loop is a run of the step machine. */
  lemma {:induction false} LoopIsRun(s: Sys, timers: seq<Timer>, orders: seq<seq<Event>>) returns (steps: seq<Step>)
    requires |timers| == |orders|
    ensures Run(s, steps) == After(s, timers, orders)
  {
    steps := [];
    if timers != [] {
      var n := |timers| - 1;
      steps := LoopIsRun(s, timers[..n], orders[..n]);
      var b := Run(s, steps);
      if b.proc.Idle? {
        RunAppend(s, steps, TickSteps(b, timers[n], orders[n]));
        steps := steps + TickSteps(b, timers[n], orders[n]);
      }
    }
  }
}
