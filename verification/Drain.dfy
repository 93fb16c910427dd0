/** Recovery and progress, and what a tick needs to find in the queue. */
module Drain {
  import opened Common
  import opened Sequences
  import opened Queue
  import opened Protocol
  import opened Invariant
  import opened Driver

  // ---------------------------------------------------------------- recovery

  /** A startup without error: list the claims in flight, resolve each, take up the batch numbering. */
  function CleanStartup(ids: seq<int>, limit: int): seq<Step> {
    ListedSteps(ids, limit, |ids|) + [RecoverDone]
  }

  /** It is what a startup does when no statement fails. */
  lemma CleanStartupIs(ids: seq<int>, limit: int, faults: nat -> Fault)
    requires AllPass(faults, 2 * |ids| + 1)
    ensures StartupSteps(ids, limit, faults, NoFault) == CleanStartup(ids, limit)
  {
    AllResolved(faults, 0, |ids|);
    var listed := ListedSteps(ids, limit, |ids|);
    assert listed + [] == listed;
  }

  lemma {:induction false} AllResolved(faults: nat -> Fault, i: nat, n: nat)
    requires i <= n && AllPass(faults, 2 * n + 1)
    ensures Resolved(faults, i, n) == n
    decreases n - i
  {
    if i < n {
      AllResolved(faults, i + 1, n);
    }
  }

  ghost predicate Ready(s: Sys, w: Witness) {
    Inv(s, w) && s.proc.Idle?
  }

  /** A listing finds at most the one batch in flight. */
  lemma CleanStartupCases(ids: seq<int>, limit: int)
    ensures ids == [] ==> CleanStartup(ids, limit) == [Start(ids, limit), RecoverDone]
    ensures |ids| == 1 ==> CleanStartup(ids, limit) == [Start(ids, limit), RecoverOne, RecoverDone]
  {
  }

  lemma ListsAtMostOne(s: Sys, w: Witness, ids: seq<int>)
    requires Inv(s, w) && Enumerates(ids, ClaimIds(s.queue))
    ensures |ids| <= 1
  {
    InvParts(s, w);
    ClaimIdsOfShape(s.queue, w, ids);
  }

  lemma Starts(s: Sys, ids: seq<int>, limit: int)
    requires s.proc.Down? && Enumerates(ids, ClaimIds(s.queue))
    ensures Do(s, Start(ids, limit)) == s.(proc := Recovering(ids), limit := limit)
  {
  }

  lemma ResolvesOne(s: Sys, id: int)
    requires s.proc == Recovering([id])
    ensures var t := Do(s, RecoverOne);
            t == s.(queue := t.queue, proc := Recovering([]))
  {
    assert [id][1..] == [];
  }

  lemma Recovers(s: Sys, w: Witness)
    requires Inv(s, w) && s.proc == Recovering([])
    ensures var t := Do(s, RecoverDone);
            && t == s.(proc := t.proc, foldedBefore := |s.folded|, appliedBefore := |s.applied|)
            && t.proc == Idle(Mem(|s.applied| + 1, 0, 0))
  {
    InvParts(s, w);
    LastBatchIs(s.agg.applied, |s.applied|);
  }

  /** From any point of a crash, startup ends ready to tick: nothing in flight, the queue exactly what is not folded. */
  lemma StartupRecovers(s: Sys, w: Witness, ids: seq<int>, limit: int) returns (v: Witness)
    requires Inv(s, w) && s.proc.Down? && Enumerates(ids, ClaimIds(s.queue))
    ensures var t := Run(s, CleanStartup(ids, limit));
            && Ready(t, v)
            && t.accepted == s.accepted && t.folded == s.folded && t.agg == s.agg && t.limit == limit
            && t.proc.mem == Mem(|s.applied| + 1, 0, 0)
  {
    ListsAtMostOne(s, w, ids);
    CleanStartupCases(ids, limit);
    var s1 := Do(s, Start(ids, limit));
    StartKeeps(s, w, ids, limit);
    Starts(s, ids, limit);
    if ids == [] {
      v := w;
      RunTwo(s, Start(ids, limit), RecoverDone);
      RecoverDoneKeeps(s1, v);
      Recovers(s1, v);
    } else {
      var s2 := Do(s1, RecoverOne);
      v := RecoverOneKeeps(s1, w);
      ResolvesOne(s1, ids[0]);
      RunThree(s, Start(ids, limit), RecoverOne, RecoverDone);
      RecoverDoneKeeps(s2, v);
      Recovers(s2, v);
    }
  }

  // ---------------------------------------------------------------- ticks while the producer goes on

  /** One tick, with what the producer inserts before its claim, before its Apply and before its acknowledgement. */
  datatype Turn = Turn(first: seq<Event>, order: seq<Event>, second: seq<Event>, now: int, third: seq<Event>)

  function Inserts(events: seq<Event>): seq<Step> {
    seq(|events|, i requires 0 <= i < |events| => Enqueue(events[i]))
  }

  ghost function Fed(s: Sys, events: seq<Event>): Sys {
    Run(s, Inserts(events))
  }

  /** The state after a turn. */
  ghost function AfterTurn(s: Sys, t: Turn): Sys {
    Do(Fed(Do(Fed(Do(Fed(s, t.first), Claim(t.order)), t.second), Apply(t.now)), t.third), Ack)
  }

  /** The claim returns its rows in any order. */
  ghost predicate Takes(s: Sys, t: Turn) {
    Permutation(t.order, Due(Fed(s, t.first)))
  }

  lemma FedSnoc(s: Sys, events: seq<Event>)
    requires events != []
    ensures Fed(s, events) == Do(Fed(s, events[..|events| - 1]), Enqueue(events[|events| - 1]))
  {
    var init, e := events[..|events| - 1], events[|events| - 1];
    assert Inserts(events) == Inserts(init) + [Enqueue(e)];
    RunSnoc(s, Inserts(init), Enqueue(e));
  }

  /** What inserts change. */
  predicate Grew(s: Sys, t: Sys, events: seq<Event>) {
    && t.accepted == s.accepted + events && |t.queue| == |s.queue| + |events|
    && t.proc == s.proc && t.limit == s.limit && t.folded == s.folded
  }

  lemma OneInsert(s: Sys, e: Event)
    ensures Grew(s, Do(s, Enqueue(e)), [e])
  {
  }

  lemma GrewTwice(s: Sys, t: Sys, u: Sys, events: seq<Event>, e: Event)
    requires Grew(s, t, events) && Grew(t, u, [e])
    ensures Grew(s, u, events + [e])
  {
  }

  lemma {:induction false} FedKeeps(s: Sys, w: Witness, events: seq<Event>)
    requires Inv(s, w)
    ensures Inv(Fed(s, events), w) && Grew(s, Fed(s, events), events)
  {
    if events == [] {
      assert Inserts(events) == [];
    } else {
      var init, e := events[..|events| - 1], events[|events| - 1];
      var t := Fed(s, init);
      FedKeeps(s, w, init);
      FedSnoc(s, events);
      EnqueueKeeps(t, w, e);
      OneInsert(t, e);
      GrewTwice(s, t, Do(t, Enqueue(e)), init, e);
      assert init + [e] == events;
    }
  }

  /** What a claim in a ready state does to the lengths. */
  lemma ClaimTakes(s: Sys, w: Witness, order: seq<Event>) returns (v: Witness)
    requires Ready(s, w) && Permutation(order, Due(s))
    ensures var t := Do(s, Claim(order));
            && Inv(t, v)
            && |order| == Take(s.limit, |s.queue|)
            && t.accepted == s.accepted && t.folded == s.folded && t.limit == s.limit
            && (if order == [] then t == s && v == w else t.proc == Claimed(s.proc.mem, order))
  {
    v := ClaimKeeps(s, w, order);
    InvParts(s, w);
    ClaimMarksBlock(s.queue, s.proc.mem.next, s.limit);
    PermutationLength(order, Due(s));
    if order == [] {
      v := w;
    }
  }

  lemma ApplyGrows(s: Sys, w: Witness, now: int) returns (v: Witness)
    requires Inv(s, w) && s.proc.Claimed?
    ensures var t := Do(s, Apply(now));
            && Inv(t, v) && t.proc.Folded?
            && |t.folded| == |s.folded| + |s.proc.events|
            && t.accepted == s.accepted && t.limit == s.limit
  {
    v := ApplyKeeps(s, w, now);
    InvParts(s, w);
    var after := ApplyStep(s, w, now, Events(s.queue[..w.claimed]));
  }

  lemma NothingToDo(s: Sys, now: int)
    requires s.proc.Idle?
    ensures Do(s, Apply(now)) == s && Do(s, Ack) == s
  {
  }

  lemma AckReadies(s: Sys, w: Witness) returns (v: Witness)
    requires Inv(s, w) && s.proc.Folded?
    ensures var t := Do(s, Ack);
            Ready(t, v) && t.accepted == s.accepted && t.folded == s.folded && t.limit == s.limit
  {
    v := AckKeeps(s, w);
  }

  /** When nothing is in flight the queue is as long as there are events left to fold. */
  lemma QueueLength(s: Sys, w: Witness)
    requires Ready(s, w)
    ensures |s.queue| == |s.accepted| - |s.folded|
  {
    InvParts(s, w);
    assert |Events(s.queue)| == |s.queue|;
  }

  /** The first half of a turn: some rows are claimed, if any are queued, and the producer goes on. */
  ghost predicate Halfway(s: Sys, t: Sys, turn: Turn) {
    && t.accepted == s.accepted + turn.first + turn.second && t.folded == s.folded && t.limit == s.limit
    && |turn.order| == Take(s.limit, |s.queue| + |turn.first|)
    && (if turn.order == [] then t.proc.Idle? else t.proc.Claimed? && t.proc.events == turn.order)
  }

  lemma TurnClaims(s: Sys, w: Witness, turn: Turn) returns (v: Witness)
    requires Ready(s, w) && Takes(s, turn)
    ensures var t := Fed(Do(Fed(s, turn.first), Claim(turn.order)), turn.second);
            Inv(t, v) && Halfway(s, t, turn)
  {
    var s1 := Fed(s, turn.first);
    FedKeeps(s, w, turn.first);
    v := ClaimTakes(s1, w, turn.order);
    FedKeeps(Do(s1, Claim(turn.order)), v, turn.second);
  }

  /** The second half: what was claimed is folded and acknowledged. */
  lemma TurnFolds(t: Sys, w: Witness, turn: Turn) returns (v: Witness)
    requires Inv(t, w) && (if turn.order == [] then t.proc.Idle? else t.proc.Claimed? && t.proc.events == turn.order)
    ensures var u := Do(Fed(Do(t, Apply(turn.now)), turn.third), Ack);
            && Ready(u, v)
            && u.accepted == t.accepted + turn.third && u.limit == t.limit
            && |u.folded| == |t.folded| + |turn.order|
  {
    var t1 := Do(t, Apply(turn.now));
    if turn.order == [] {
      v := w;
      NothingToDo(t, turn.now);
      FedKeeps(t1, v, turn.third);
      NothingToDo(Fed(t1, turn.third), turn.now);
    } else {
      v := ApplyGrows(t, w, turn.now);
      FedKeeps(t1, v, turn.third);
      v := AckReadies(Fed(t1, turn.third), v);
    }
  }

  /**
   * A tick folds the oldest events, as many as the limit allows of what is queued when it claims, whatever
   * order the rows come back in and whatever the producer inserts meanwhile.
   */
  lemma TickFolds(s: Sys, w: Witness, turn: Turn) returns (v: Witness)
    requires Ready(s, w) && Takes(s, turn)
    ensures var t := AfterTurn(s, turn);
            && Ready(t, v)
            && t.accepted == s.accepted + turn.first + turn.second + turn.third && t.limit == s.limit
            && |t.folded| == |s.folded| + Take(s.limit, |s.queue| + |turn.first|)
            && |t.queue| == |t.accepted| - |t.folded|
  {
    v := TurnClaims(s, w, turn);
    v := TurnFolds(Fed(Do(Fed(s, turn.first), Claim(turn.order)), turn.second), v, turn);
    QueueLength(AfterTurn(s, turn), v);
  }

  ghost function AfterTurns(s: Sys, turns: seq<Turn>): Sys {
    if turns == [] then s else AfterTurn(AfterTurns(s, turns[..|turns| - 1]), turns[|turns| - 1])
  }

  ghost predicate AllTake(s: Sys, turns: seq<Turn>) {
    turns == [] ||
    (AllTake(s, turns[..|turns| - 1]) && Takes(AfterTurns(s, turns[..|turns| - 1]), turns[|turns| - 1]))
  }

  function Min(a: int, b: int): int {
    if a <= b then a else b
  }

  lemma OneBatchMore(folded: nat, ticks: nat, limit: nat, n: nat, before: nat, after: nat, available: nat)
    requires before >= Min(n, folded + ticks * limit) && available >= n - before
    requires after == before + Take(limit, available)
    ensures after >= Min(n, folded + (ticks + 1) * limit)
  {
    assert (ticks + 1) * limit == ticks * limit + limit;
  }

  /** How far a state is: at least n events are in, of which `done` at least are folded; nothing is in flight. */
  ghost predicate AtLeast(t: Sys, w: Witness, limit: int, n: nat, done: int) {
    && Ready(t, w) && t.limit == limit
    && |t.queue| == |t.accepted| - |t.folded| && |t.accepted| >= n
    && |t.folded| >= Min(n, done)
  }

  lemma TurnGets(u: Sys, w: Witness, turn: Turn, limit: nat, n: nat, folded: nat, ticks: nat) returns (v: Witness)
    requires AtLeast(u, w, limit, n, folded + ticks * limit) && Takes(u, turn)
    ensures AtLeast(AfterTurn(u, turn), v, limit, n, folded + (ticks + 1) * limit)
  {
    v := TickFolds(u, w, turn);
    OneBatchMore(folded, ticks, limit, n, |u.folded|, |AfterTurn(u, turn).folded|, |u.queue| + |turn.first|);
  }

  lemma TurnsInit(s: Sys, turns: seq<Turn>, n: nat)
    requires |turns| == n + 1 && AllTake(s, turns)
    ensures AllTake(s, turns[..n]) && Takes(AfterTurns(s, turns[..n]), turns[n])
    ensures AfterTurns(s, turns) == AfterTurn(AfterTurns(s, turns[..n]), turns[n])
  {
  }

  /** After m ticks with limit l at least the first m * l events that were waiting are folded, inserts or not. */
  lemma {:induction false} FoldedAtLeast(s: Sys, w: Witness, turns: seq<Turn>) returns (v: Witness)
    requires Ready(s, w) && AllTake(s, turns) && s.limit >= 1
    ensures AtLeast(AfterTurns(s, turns), v, s.limit, |s.accepted|, |s.folded| + |turns| * s.limit)
  {
    if turns == [] {
      v := w;
      QueueLength(s, w);
    } else {
      var n := |turns| - 1;
      TurnsInit(s, turns, n);
      v := FoldedAtLeast(s, w, turns[..n]);
      v := TurnGets(AfterTurns(s, turns[..n]), v, turns[n], s.limit, |s.accepted|, |s.folded|, n);
    }
  }

  /** A crash, and a startup without error. */
  ghost function Restarted(s: Sys, ids: seq<int>, limit: int): Sys {
    Run(Do(s, Crash), CleanStartup(ids, limit))
  }

  lemma RestartReadies(steps: seq<Step>, ids: seq<int>, limit: int) returns (v: Witness)
    requires Enumerates(ids, ClaimIds(Run(Init(), steps).queue))
    ensures var s := Run(Init(), steps);
            var t := Restarted(s, ids, limit);
            Ready(t, v) && t.accepted == s.accepted && t.folded == s.folded && t.limit == limit
  {
    var s := Run(Init(), steps);
    var w := RunKeeps(steps);
    CrashKeeps(s, w);
    v := StartupRecovers(Do(s, Crash), w, ids, limit);
  }

  /**
   * Bounded wait: in any run, after any restart with a limit of at least 1, the accepted event at position p
   * is folded within ceil((p + 1 - cursor) / limit) ticks, however many events the producer inserts meanwhile.
   */
  lemma WaitIsBounded(steps: seq<Step>, ids: seq<int>, limit: int, turns: seq<Turn>, p: nat)
    requires limit >= 1 && p < |Run(Init(), steps).accepted|
    requires Enumerates(ids, ClaimIds(Run(Init(), steps).queue))
    requires AllTake(Restarted(Run(Init(), steps), ids, limit), turns)
    requires p + 1 - |Run(Init(), steps).folded| <= |turns| * limit
    ensures p < |AfterTurns(Restarted(Run(Init(), steps), ids, limit), turns).folded|
  {
    var v := RestartReadies(steps, ids, limit);
    v := FoldedAtLeast(Restarted(Run(Init(), steps), ids, limit), v, turns);
  }

  // ---------------------------------------------------------------- ticks alone

  /** The producer inserts nothing. */
  predicate Quiet(turns: seq<Turn>) {
    forall i :: 0 <= i < |turns| ==> turns[i].first == turns[i].second == turns[i].third == []
  }

  function Left(queued: nat, ticks: nat, limit: nat): nat {
    if queued <= ticks * limit then 0 else queued - ticks * limit
  }

  lemma LeftStep(queued: nat, ticks: nat, limit: nat)
    ensures Left(queued, ticks + 1, limit) == Left(queued, ticks, limit) - Take(limit, Left(queued, ticks, limit))
  {
    assert (ticks + 1) * limit == ticks * limit + limit;
  }

  /** Nothing came in, nothing is in flight, and this many events are queued. */
  ghost predicate Waiting(t: Sys, w: Witness, limit: int, accepted: seq<Event>, queued: nat) {
    && Ready(t, w) && t.limit == limit && t.accepted == accepted
    && |t.queue| == |t.accepted| - |t.folded| == queued
  }

  lemma QuietTurn(u: Sys, w: Witness, turn: Turn, limit: nat, accepted: seq<Event>, queued: nat, ticks: nat)
      returns (v: Witness)
    requires Waiting(u, w, limit, accepted, Left(queued, ticks, limit)) && Takes(u, turn)
    requires turn.first == turn.second == turn.third == []
    ensures Waiting(AfterTurn(u, turn), v, limit, accepted, Left(queued, ticks + 1, limit))
  {
    v := TickFolds(u, w, turn);
    LeftStep(queued, ticks, limit);
  }

  /** After m ticks with limit n, exactly the events beyond the first m * n are left. */
  lemma {:induction false} TicksDrain(s: Sys, w: Witness, turns: seq<Turn>) returns (v: Witness)
    requires Ready(s, w) && AllTake(s, turns) && Quiet(turns) && s.limit >= 1
    ensures Waiting(AfterTurns(s, turns), v, s.limit, s.accepted, Left(|s.queue|, |turns|, s.limit))
  {
    if turns == [] {
      v := w;
      QueueLength(s, w);
    } else {
      var n := |turns| - 1;
      TurnsInit(s, turns, n);
      v := TicksDrain(s, w, turns[..n]);
      v := QuietTurn(AfterTurns(s, turns[..n]), v, turns[n], s.limit, s.accepted, |s.queue|, n);
    }
  }

  /**
   * From any reachable state, a restart and m undisturbed ticks empty the queue exactly if m batches
   * can hold what was not folded; then every accepted event has been folded.
   */
  lemma DrainsFromAnywhere(steps: seq<Step>, ids: seq<int>, limit: int, turns: seq<Turn>)
    requires limit >= 1 && Quiet(turns)
    requires Enumerates(ids, ClaimIds(Run(Init(), steps).queue))
    requires AllTake(Restarted(Run(Init(), steps), ids, limit), turns)
    ensures var s := Run(Init(), steps);
            var t := AfterTurns(Restarted(s, ids, limit), turns);
            && t.accepted == s.accepted
            && (t.queue == [] <==> |s.accepted| - |s.folded| <= |turns| * limit)
            && (t.queue == [] <==> |t.folded| == |t.accepted|)
  {
    var up := Restarted(Run(Init(), steps), ids, limit);
    var v := RestartReadies(steps, ids, limit);
    QueueLength(up, v);
    v := TicksDrain(up, v, turns);
  }

  // ---------------------------------------------------------------- the event loop drains

  function TurnOf(t: Timer, order: seq<Event>): Turn {
    Turn([], order, [], t.now, [])
  }

  function TurnsOf(timers: seq<Timer>, orders: seq<seq<Event>>): seq<Turn>
    requires |timers| == |orders|
  {
    seq(|timers|, i requires 0 <= i < |timers| => TurnOf(timers[i], orders[i]))
  }

  /** A tick of the driver that does not fail is a turn with no inserts. */
  lemma TickIsTurn(s: Sys, t: Timer, order: seq<Event>)
    requires Ticks(s, order) && !TickFails(s, t)
    ensures Takes(s, TurnOf(t, order)) && AfterTick(s, t, order) == AfterTurn(s, TurnOf(t, order))
  {
    NothingFed(s);
    NothingFed(Do(s, Claim(order)));
    NothingFed(Do(Do(s, Claim(order)), Apply(t.now)));
    PermutationLength(order, Due(s));
    if order == [] {
      NothingToDo(s, t.now);
    } else {
      assert Committed(s, t, order) + [] == [Claim(order), Apply(t.now), Ack];
      RunThree(s, Claim(order), Apply(t.now), Ack);
    }
  }

  lemma NothingFed(s: Sys)
    ensures Fed(s, []) == s
  {
    assert Inserts([]) == [];
  }

  lemma LastTick(s: Sys, timers: seq<Timer>, orders: seq<seq<Event>>, n: nat)
    requires |timers| == |orders| == n + 1 && AllTick(s, timers, orders)
    ensures var b := After(s, timers[..n], orders[..n]);
            && AllTick(s, timers[..n], orders[..n]) && Ticks(b, orders[n]) && !TickFails(b, timers[n])
            && After(s, timers, orders) == AfterTick(b, timers[n], orders[n])
  {
  }

  lemma LastTurn(s: Sys, turns: seq<Turn>, turn: Turn)
    requires AllTake(s, turns) && Takes(AfterTurns(s, turns), turn)
    ensures AllTake(s, turns + [turn])
    ensures AfterTurns(s, turns + [turn]) == AfterTurn(AfterTurns(s, turns), turn)
  {
    assert (turns + [turn])[..|turns|] == turns;
  }

  lemma TurnsSnoc(timers: seq<Timer>, orders: seq<seq<Event>>, n: nat)
    requires |timers| == |orders| == n + 1
    ensures TurnsOf(timers, orders) == TurnsOf(timers[..n], orders[..n]) + [TurnOf(timers[n], orders[n])]
  {
  }

  lemma {:induction false} LoopIsTurns(s: Sys, timers: seq<Timer>, orders: seq<seq<Event>>)
    requires |timers| == |orders| && AllTick(s, timers, orders)
    ensures AllTake(s, TurnsOf(timers, orders)) && After(s, timers, orders) == AfterTurns(s, TurnsOf(timers, orders))
  {
    if timers == [] {
      assert TurnsOf(timers, orders) == [];
    } else {
      var n := |timers| - 1;
      LastTick(s, timers, orders, n);
      LoopIsTurns(s, timers[..n], orders[..n]);
      TickIsTurn(After(s, timers[..n], orders[..n]), timers[n], orders[n]);
      LastTurn(s, TurnsOf(timers[..n], orders[..n]), TurnOf(timers[n], orders[n]));
      TurnsSnoc(timers, orders, n);
    }
  }

  /** The event loop, as long as no tick fails, leaves exactly the events beyond the first m * n after m ticks. */
  lemma LoopDrains(s: Sys, w: Witness, timers: seq<Timer>, orders: seq<seq<Event>>)
    requires |timers| == |orders| && AllTick(s, timers, orders) && Ready(s, w) && s.limit >= 1
    ensures |After(s, timers, orders).queue| == Left(|s.queue|, |timers|, s.limit)
  {
    LoopIsTurns(s, timers, orders);
    var v := TicksDrain(s, w, TurnsOf(timers, orders));
  }

  // ---------------------------------------------------------------- a tick on a queue with claims

  /** The events of rows that already carry this batch's id. */
  function Stale(rows: seq<Row>, batch: int): seq<Event> {
    if rows == [] then []
    else
      var r := rows[|rows| - 1];
      Stale(rows[..|rows| - 1], batch) + (if r.claim == Some(batch) then [r.event] else [])
  }

  lemma {:induction false} StaleIff(rows: seq<Row>, batch: int)
    ensures Stale(rows, batch) == [] <==> batch !in ClaimIds(rows)
  {
    if rows != [] {
      var init, r := rows[..|rows| - 1], rows[|rows| - 1];
      StaleIff(init, batch);
      assert forall x :: x in rows <==> x in init || x == r;
    }
  }

  lemma EventsSnoc(rows: seq<Row>, r: Row)
    ensures multiset(Events(rows + [r])) == multiset(Events(rows)) + multiset{r.event}
  {
    assert Events(rows + [r]) == Events(rows) + [r.event];
  }

  lemma AckSnoc(marked: seq<Row>, m: Row, batch: int)
    ensures multiset(Events(AckRows(marked + [m], batch)))
            == multiset(Events(AckRows(marked, batch)))
               + (if m.claim == Some(batch) then multiset{} else multiset{m.event})
  {
    assert (marked + [m])[..|marked|] == marked;
    EventsSnoc(AckRows(marked, batch), m);
    assert AckRows(marked, batch) + [] == AckRows(marked, batch);
  }

  lemma PickedSnoc(rows: seq<Row>, limit: int, init: seq<Row>, r: Row)
    ensures multiset(PickedEvents(rows, limit, init + [r]))
            == multiset(PickedEvents(rows, limit, init))
               + (if Picked(rows, limit, r) then multiset{r.event} else multiset{})
  {
    assert (init + [r])[..|init|] == init;
  }

  lemma StaleSnoc(init: seq<Row>, r: Row, batch: int)
    ensures multiset(Stale(init + [r], batch))
            == multiset(Stale(init, batch)) + (if r.claim == Some(batch) then multiset{r.event} else multiset{})
  {
    assert (init + [r])[..|init|] == init;
  }

  /** Up to row n: what stays, what was handed out and what was stale make up everything. */
  ghost predicate Accounted(rows: seq<Row>, batch: int, limit: int, init: seq<Row>, marked: seq<Row>) {
    multiset(Events(AckRows(marked, batch))) + multiset(PickedEvents(rows, limit, init)) + multiset(Stale(init, batch))
    == multiset(Events(init))
  }

  lemma AccountRow(rows: seq<Row>, batch: int, limit: int, init: seq<Row>, r: Row, marked: seq<Row>, m: Row)
    requires m == if Picked(rows, limit, r) then r.(claim := Some(batch)) else r
    requires Accounted(rows, batch, limit, init, marked)
    ensures Accounted(rows, batch, limit, init + [r], marked + [m])
  {
    EventsSnoc(init, r);
    AckSnoc(marked, m, batch);
    PickedSnoc(rows, limit, init, r);
    StaleSnoc(init, r, batch);
    AddsUp(multiset(Events(AckRows(marked, batch))), multiset(PickedEvents(rows, limit, init)),
           multiset(Stale(init, batch)), multiset(Events(init)),
           if m.claim == Some(batch) then multiset{} else multiset{r.event},
           if Picked(rows, limit, r) then multiset{r.event} else multiset{},
           if r.claim == Some(batch) then multiset{r.event} else multiset{}, multiset{r.event});
  }

  lemma AddsUp(a: multiset<Event>, b: multiset<Event>, c: multiset<Event>, all: multiset<Event>,
               x: multiset<Event>, y: multiset<Event>, z: multiset<Event>, one: multiset<Event>)
    requires a + b + c == all && x + y + z == one
    ensures a + x + (b + y) + (c + z) == all + one
  {
  }

  lemma TakeOne<T>(s: seq<T>, n: nat)
    requires 0 < n <= |s|
    ensures s[..n] == s[..n - 1] + [s[n - 1]]
  {
  }

  lemma {:induction false} TickAccounts(rows: seq<Row>, batch: int, limit: int, marked: seq<Row>, n: nat)
    requires n <= |rows| && marked == ClaimRows(rows, batch, limit)
    ensures Accounted(rows, batch, limit, rows[..n], marked[..n])
  {
    if n > 0 {
      TickAccounts(rows, batch, limit, marked, n - 1);
      AccountRow(rows, batch, limit, rows[..n - 1], rows[n - 1], marked[..n - 1], marked[n - 1]);
      TakeOne(rows, n);
      TakeOne(marked, n);
    }
  }

  /**
   * Claiming and acknowledging a batch, on any queue at all: every event that leaves the queue is among
   * those handed to Apply exactly if no row carried the batch's id before. So a tick whose claim committed
   * but which then failed must not be followed by another one without recovery.
   */
  lemma TickConservesIff(rows: seq<Row>, batch: int, limit: int)
    ensures multiset(Events(AckRows(ClaimRows(rows, batch, limit), batch)))
            + multiset(PickedEvents(rows, limit, rows)) == multiset(Events(rows))
            <==> batch !in ClaimIds(rows)
  {
    var marked := ClaimRows(rows, batch, limit);
    TickAccounts(rows, batch, limit, marked, |rows|);
    assert rows[..|rows|] == rows && marked[..|rows|] == marked;
    StaleIff(rows, batch);
    LeftOver(multiset(Events(AckRows(marked, batch))) + multiset(PickedEvents(rows, limit, rows)),
             Stale(rows, batch), multiset(Events(rows)));
  }

  /**
   * The failing case: a claim committed but reported an error, and the same process ticked again. The second
   * claim hands out the later event only, and the acknowledgement deletes both.
   */
  lemma ErringTickLoses(lost: Event, later: Event)
    ensures var rows := EnqueueRow(ClaimRows([Row(1, lost, None)], 1, 1), later);
            && rows == [Row(1, lost, Some(1)), Row(2, later, None)]
            && PickedEvents(rows, 1, rows) == [later]
            && AckRows(ClaimRows(rows, 1, 1), 1) == []
  {
    var first, claimed := [Row(1, lost, None)], [Row(1, lost, Some(1))];
    var rows := claimed + [Row(2, later, None)];
    var marked := claimed + [Row(2, later, Some(1))];
    assert first[..0] == claimed[..0] == [];
    assert Picked(first, 1, first[0]);
    assert ClaimRows(first, 1, 1) == claimed;
    assert EnqueueRow(claimed, later) == rows;
    assert rows[..1] == marked[..1] == claimed;
    assert OlderUnclaimed(claimed, 2) == 0;
    assert ClaimRows(rows, 1, 1) == marked;
    assert PickedEvents(rows, 1, claimed) == [];
    assert AckRows(claimed, 1) == [];
  }

  lemma LeftOver(kept: multiset<Event>, stale: seq<Event>, all: multiset<Event>)
    requires kept + multiset(stale) == all
    ensures kept == all <==> stale == []
  {
    if stale != [] {
      assert stale[0] in multiset(stale);
      assert kept[stale[0]] < all[stale[0]];
    }
  }
}
