/**
 * The queue table shared by the producer and the worker: its statements as functions on rows,
 * and the worker's side of it as a class whose methods run one statement each.
 */
module Queue {
  import opened Common
  import opened Sequences

  datatype Event = Event(
    siteId: string,
    pageUrl: string,
    lcpMs: real,
    tsMs: int,
    sessionId: string,
    receivedAtMs: int)

  /** `claim` is the claim_id column; None is NULL. */
  datatype Row = Row(id: int, event: Event, claim: Option<int>)

  // ---------------------------------------------------------------- statements

  function MaxId(rows: seq<Row>): int
    requires rows != []
  {
    var last := rows[|rows| - 1].id;
    if |rows| == 1 then last
    else
      var rest := MaxId(rows[..|rows| - 1]);
      if last >= rest then last else rest
  }

  /** SQLite's choice of rowid: one past the largest in the table, or 1 for an empty table. */
  function NextId(rows: seq<Row>): int {
    if rows == [] then 1 else MaxId(rows) + 1
  }

  function EnqueueRow(rows: seq<Row>, e: Event): seq<Row> {
    rows + [Row(NextId(rows), e, None)]
  }

  /** How many unclaimed rows have an id below `id`. */
  function OlderUnclaimed(rows: seq<Row>, id: int): nat {
    if rows == [] then 0
    else
      var r := rows[|rows| - 1];
      OlderUnclaimed(rows[..|rows| - 1], id) + (if r.claim.None? && r.id < id then 1 else 0)
  }

  /** Row `r` is among the first `limit` unclaimed rows by id; a negative LIMIT is no limit. */
  predicate Picked(rows: seq<Row>, limit: int, r: Row) {
    r.claim.None? && (limit < 0 || OlderUnclaimed(rows, r.id) < limit)
  }

  function ClaimRows(rows: seq<Row>, batch: int, limit: int): seq<Row> {
    seq(|rows|, i requires 0 <= i < |rows| =>
      if Picked(rows, limit, rows[i]) then rows[i].(claim := Some(batch)) else rows[i])
  }

  /** The events of the rows among `some` that a claim on `rows` picks. */
  function PickedEvents(rows: seq<Row>, limit: int, some: seq<Row>): seq<Event> {
    if some == [] then []
    else
      var r := some[|some| - 1];
      PickedEvents(rows, limit, some[..|some| - 1]) + (if Picked(rows, limit, r) then [r.event] else [])
  }

  function AckRows(rows: seq<Row>, batch: int): seq<Row> {
    if rows == [] then []
    else
      var r := rows[|rows| - 1];
      AckRows(rows[..|rows| - 1], batch) + (if r.claim == Some(batch) then [] else [r])
  }

  function UnclaimRows(rows: seq<Row>, batch: int): seq<Row> {
    seq(|rows|, i requires 0 <= i < |rows| =>
      if rows[i].claim == Some(batch) then rows[i].(claim := None) else rows[i])
  }

  function ClaimIds(rows: seq<Row>): set<int> {
    set r | r in rows && r.claim.Some? :: r.claim.value
  }

  /** The ids in some order, each once. */
  ghost predicate Enumerates(ids: seq<int>, all: set<int>) {
    && (forall i :: i in ids <==> i in all)
    && |ids| == |all|
  }

  function Unclaimed(rows: seq<Row>): seq<Row> {
    if rows == [] then []
    else
      var r := rows[|rows| - 1];
      Unclaimed(rows[..|rows| - 1]) + (if r.claim.None? then [r] else [])
  }

  function Events(rows: seq<Row>): seq<Event> {
    seq(|rows|, i requires 0 <= i < |rows| => rows[i].event)
  }

  // ---------------------------------------------------------------- arrival order is id order

  predicate IdsIncreasing(rows: seq<Row>) {
    forall i, j :: 0 <= i < j < |rows| ==> rows[i].id < rows[j].id
  }

  lemma {:induction false} MaxIdIsMax(rows: seq<Row>)
    requires rows != []
    ensures forall i :: 0 <= i < |rows| ==> rows[i].id <= MaxId(rows)
    ensures exists i :: 0 <= i < |rows| && rows[i].id == MaxId(rows)
  {
    if |rows| > 1 {
      var init := rows[..|rows| - 1];
      MaxIdIsMax(init);
      var i :| 0 <= i < |init| && init[i].id == MaxId(init);
      assert rows[i] == init[i];
      assert rows[|rows| - 1].id == MaxId(rows) || rows[i].id == MaxId(rows);
      assert forall j :: 0 <= j < |init| ==> rows[j] == init[j];
    } else {
      assert rows[0].id == MaxId(rows);
    }
  }

  /** Ids come back: once the table has drained, the next row is number 1 again. */
  lemma {:induction false} IdsComeBack(rows: seq<Row>, batch: int, e: Event)
    requires forall i :: 0 <= i < |rows| ==> rows[i].claim == Some(batch)
    ensures EnqueueRow(AckRows(rows, batch), e) == [Row(1, e, None)]
  {
    if rows != [] {
      IdsComeBack(rows[..|rows| - 1], batch, e);
    }
  }

  /** A new row gets the largest id even though ids of deleted rows are used again. */
  lemma EnqueueKeepsOrder(rows: seq<Row>, e: Event)
    requires IdsIncreasing(rows)
    ensures IdsIncreasing(EnqueueRow(rows, e))
  {
    if rows != [] {
      MaxIdIsMax(rows);
    }
  }

  lemma {:induction false} OlderIsEarlier(rows: seq<Row>, i: nat)
    requires IdsIncreasing(rows) && i < |rows|
    ensures OlderUnclaimed(rows, rows[i].id) == |Unclaimed(rows[..i])|
  {
    var init := rows[..|rows| - 1];
    if i < |init| {
      OlderIsEarlier(init, i);
      assert init[..i] == rows[..i];
    } else {
      assert rows[..i] == init;
      AllOlder(init, rows[i].id);
    }
  }

  lemma {:induction false} AllOlder(rows: seq<Row>, id: int)
    requires forall i :: 0 <= i < |rows| ==> rows[i].id < id
    ensures OlderUnclaimed(rows, id) == |Unclaimed(rows)|
  {
    if rows != [] {
      AllOlder(rows[..|rows| - 1], id);
    }
  }

  function Take(limit: int, available: nat): nat {
    if limit < 0 || available <= limit then available else limit
  }

  lemma {:induction false} PickedPrefix(rows: seq<Row>, limit: int, n: nat)
    requires IdsIncreasing(rows) && n <= |rows|
    ensures PickedEvents(rows, limit, rows[..n]) == Events(Unclaimed(rows[..n])[..Take(limit, |Unclaimed(rows[..n])|)])
  {
    if n > 0 {
      PickedPrefix(rows, limit, n - 1);
      OlderIsEarlier(rows, n - 1);
      assert rows[..n][..n - 1] == rows[..n - 1];
      var before, r := Unclaimed(rows[..n - 1]), rows[n - 1];
      if r.claim.None? && Picked(rows, limit, r) {
        assert before[..|before|] == before;
        assert (before + [r])[..|before| + 1] == before + [r];
        assert Events(before + [r]) == Events(before) + [r.event];
      } else if r.claim.None? {
        assert (before + [r])[..Take(limit, |before| + 1)] == before[..Take(limit, |before|)];
      }
    }
  }

  /** A claim takes the oldest unclaimed events, by arrival, up to the limit. */
  lemma ClaimTakesOldest(rows: seq<Row>, limit: int)
    requires IdsIncreasing(rows)
    ensures PickedEvents(rows, limit, rows) == Events(Unclaimed(rows)[..Take(limit, |Unclaimed(rows)|)])
  {
    PickedPrefix(rows, limit, |rows|);
    assert rows[..|rows|] == rows;
  }

  lemma {:induction false} AckKeepsOrder(rows: seq<Row>, batch: int)
    requires IdsIncreasing(rows)
    ensures IdsIncreasing(AckRows(rows, batch))
    ensures forall r :: r in AckRows(rows, batch) <==> r in rows && r.claim != Some(batch)
  {
    if rows != [] {
      var init, r := rows[..|rows| - 1], rows[|rows| - 1];
      AckKeepsOrder(init, batch);
      assert rows == init + [r];
      assert forall x :: x in AckRows(init, batch) ==> x.id < r.id;
    }
  }

  // ---------------------------------------------------------------- what the statements do to any table

  /** Freeing a batch clears its own claim and nothing else. */
  lemma UnclaimClears(rows: seq<Row>, batch: int)
    ensures var after := UnclaimRows(rows, batch);
            && |after| == |rows|
            && forall i :: 0 <= i < |rows| ==>
              && after[i].id == rows[i].id && after[i].event == rows[i].event
              && after[i].claim == if rows[i].claim == Some(batch) then None else rows[i].claim
  {
  }

  /** Acknowledging keeps exactly the rows that do not carry the batch id, in their order. */
  lemma {:induction false} AckFilters(rows: seq<Row>, batch: int, keep: Row -> bool)
    requires forall r :: keep(r) <==> r.claim != Some(batch)
    ensures Filtered(rows, keep, AckRows(rows, batch))
  {
    if rows == [] {
      FilteredNone(keep);
    } else {
      AckFilters(rows[..|rows| - 1], batch, keep);
      FilteredLast(rows, keep, AckRows(rows[..|rows| - 1], batch), AckRows(rows, batch));
    }
  }

  /** The unclaimed rows, in their order. */
  lemma {:induction false} UnclaimedFilters(rows: seq<Row>, keep: Row -> bool)
    requires forall r :: keep(r) <==> r.claim == None
    ensures Filtered(rows, keep, Unclaimed(rows))
  {
    if rows == [] {
      FilteredNone(keep);
    } else {
      UnclaimedFilters(rows[..|rows| - 1], keep);
      FilteredLast(rows, keep, Unclaimed(rows[..|rows| - 1]), Unclaimed(rows));
    }
  }

  lemma {:induction false} OlderMonotone(rows: seq<Row>, a: int, b: int)
    requires a <= b
    ensures OlderUnclaimed(rows, a) <= OlderUnclaimed(rows, b)
  {
    if rows != [] {
      OlderMonotone(rows[..|rows| - 1], a, b);
    }
  }

  /** A claim marks unclaimed rows only, and none that is younger than a row it leaves. */
  lemma ClaimMarksOldest(rows: seq<Row>, batch: int, limit: int)
    ensures var after := ClaimRows(rows, batch, limit);
            && |after| == |rows|
            && (forall i :: 0 <= i < |rows| ==>
              after[i] == rows[i] || (rows[i].claim.None? && after[i] == rows[i].(claim := Some(batch))))
            && (forall i, j :: 0 <= i < |rows| && 0 <= j < |rows| && after[i] != rows[i] && after[j].claim.None? ==>
              rows[i].id < rows[j].id)
  {
    var after := ClaimRows(rows, batch, limit);
    forall i, j | 0 <= i < |rows| && 0 <= j < |rows| && after[i] != rows[i] && after[j].claim.None?
      ensures rows[i].id < rows[j].id
    {
      if rows[j].id <= rows[i].id {
        OlderMonotone(rows, rows[j].id, rows[i].id);
      }
    }
  }

  /** The rows among `some` that a claim on `rows` marks. */
  function MarkedRows(rows: seq<Row>, limit: int, some: seq<Row>): seq<Row> {
    if some == [] then []
    else
      var r := some[|some| - 1];
      MarkedRows(rows, limit, some[..|some| - 1]) + (if Picked(rows, limit, r) then [r] else [])
  }

  /** A claim hands out the events of exactly the rows it marks. */
  lemma {:induction false} PickedAreMarked(rows: seq<Row>, limit: int, some: seq<Row>, keep: Row -> bool)
    requires forall r :: keep(r) <==> Picked(rows, limit, r)
    ensures Filtered(some, keep, MarkedRows(rows, limit, some))
    ensures PickedEvents(rows, limit, some) == Events(MarkedRows(rows, limit, some))
  {
    if some == [] {
      FilteredNone(keep);
    } else {
      var marked := MarkedRows(rows, limit, some[..|some| - 1]);
      PickedAreMarked(rows, limit, some[..|some| - 1], keep);
      FilteredLast(some, keep, marked, MarkedRows(rows, limit, some));
      assert Events(marked + [some[|some| - 1]]) == Events(marked) + [some[|some| - 1].event];
    }
  }

  // ---------------------------------------------------------------- the worker's handle

  class Queue {
    var rows: seq<Row>

    /** Opens a volume: the rows an earlier process left, or an empty table on a fresh one. */
    constructor Open(volume: Option<seq<Row>>)
      ensures volume.None? ==> rows == []
      ensures volume.Some? ==> rows == volume.value
    {
      match volume {
        case None => rows := [];
        case Some(left) => rows := left;
      }
    }

    /** The producer's insert; claim_id is left NULL. */
    method Enqueue(e: Event, fault: Fault) returns (failed: bool)
      modifies this
      ensures failed == (fault != NoFault)
      ensures rows == if fault == LostBeforeCommit then old(rows) else EnqueueRow(old(rows), e)
      ensures fault != LostBeforeCommit ==>
        && |rows| == |old(rows)| + 1 && rows[..|old(rows)|] == old(rows)
        && rows[|old(rows)|].event == e && rows[|old(rows)|].claim == None
        && (old(rows) == [] ==> rows[0].id == 1)
        && (forall i :: 0 <= i < |old(rows)| ==> old(rows)[i].id < rows[|old(rows)|].id)
        && (old(rows) != [] ==> exists i :: 0 <= i < |old(rows)| && old(rows)[i].id + 1 == rows[|old(rows)|].id)
    {
      if rows != [] {
        MaxIdIsMax(rows);
      }
      if fault != LostBeforeCommit {
        rows := EnqueueRow(rows, e);
      }
      failed := fault != NoFault;
    }

    /** Marks the oldest unclaimed rows and returns their events, in no particular order. */
    method Claim(batch: int, limit: int, fault: Fault) returns (failed: bool, events: seq<Event>)
      modifies this
      ensures failed == (fault != NoFault)
      ensures rows == if fault == LostBeforeCommit then old(rows) else ClaimRows(old(rows), batch, limit)
      ensures if failed then events == [] else Permutation(events, PickedEvents(old(rows), limit, old(rows)))
    {
      var returned := PickedEvents(rows, limit, rows);
      if fault != LostBeforeCommit {
        rows := ClaimRows(rows, batch, limit);
      }
      events := [];
      if fault != NoFault {
        return true, events;
      }
      ghost var all := returned;
      while returned != []
        modifies {}
        invariant multiset(events) + multiset(returned) == multiset(all)
        decreases |returned|
      {
        var i :| 0 <= i < |returned|;
        WithoutAtMultiset(returned, i);
        events := events + [returned[i]];
        returned := WithoutAt(returned, i);
      }
      failed := false;
    }

    method Ack(batch: int, fault: Fault) returns (failed: bool)
      modifies this
      ensures failed == (fault != NoFault)
      ensures rows == if fault == LostBeforeCommit then old(rows) else AckRows(old(rows), batch)
    {
      if fault != LostBeforeCommit {
        rows := AckRows(rows, batch);
      }
      failed := fault != NoFault;
    }

    method Unclaim(batch: int, fault: Fault) returns (failed: bool)
      modifies this
      ensures failed == (fault != NoFault)
      ensures rows == if fault == LostBeforeCommit then old(rows) else UnclaimRows(old(rows), batch)
    {
      if fault != LostBeforeCommit {
        rows := UnclaimRows(rows, batch);
      }
      failed := fault != NoFault;
    }

    /** The distinct claim ids, in no particular order. */
    method InFlight(fault: Fault) returns (failed: bool, ids: seq<int>)
      ensures failed == (fault != NoFault)
      ensures if failed then ids == [] else Enumerates(ids, ClaimIds(rows))
    {
      ids := [];
      if fault != NoFault {
        return true, ids;
      }
      var remaining := ClaimIds(rows);
      while remaining != {}
        invariant remaining <= ClaimIds(rows)
        invariant Enumerates(ids, ClaimIds(rows) - remaining)
        decreases remaining
      {
        assert exists id :: id in remaining by {
          if forall id :: id !in remaining {
            assert false;
          }
        }
        var id :| id in remaining;
        ids := ids + [id];
        assert ClaimIds(rows) - (remaining - {id}) == (ClaimIds(rows) - remaining) + {id};
        remaining := remaining - {id};
      }
      failed := false;
    }

    method Depth(fault: Fault) returns (failed: bool, n: nat)
      ensures failed == (fault != NoFault)
      ensures n == if failed then 0 else |Unclaimed(rows)|
    {
      n := 0;
      if fault != NoFault {
        return true, n;
      }
      for i := 0 to |rows|
        invariant n == |Unclaimed(rows[..i])|
      {
        assert rows[..i + 1][..i] == rows[..i];
        if rows[i].claim.None? {
          n := n + 1;
        }
      }
      assert rows[..|rows|] == rows;
      failed := false;
    }
  }
}
