/** The worker's operational counters and the ring of recent flush durations. */
module Stats {
  import opened Sequences

  const RING_SIZE: nat := 256

  /** Flush percentiles are in milliseconds. */
  datatype Snapshot = Figures(
    eventsConsumedTotal: nat,
    batchesApplied: nat,
    queueDepth: nat,
    lastFlushMs: int,
    flushP50Ms: real,
    flushP95Ms: real)

  // ---------------------------------------------------------------- the ring

  /** The last RING_SIZE entries, or all of them. */
  function Recent(history: seq<int>): seq<int> {
    if |history| <= RING_SIZE then history else history[|history| - RING_SIZE..]
  }

  /** Entry i is in its slot. */
  predicate InSlot(ring: seq<int>, history: seq<int>, i: nat)
    requires |ring| == RING_SIZE && i < |history|
  {
    ring[i % RING_SIZE] == history[i]
  }

  /** Each of the recent entries is in its slot. */
  predicate RingHolds(ring: seq<int>, history: seq<int>) {
    && |ring| == RING_SIZE
    && forall i: nat :: |history| - RING_SIZE <= i < |history| ==> InSlot(ring, history, i)
  }

  function Filled(history: seq<int>): nat {
    if |history| <= RING_SIZE then |history| else RING_SIZE
  }

  /** The filled slots are the recent entries, turned by the write position. */
  lemma RingIsRecent(ring: seq<int>, history: seq<int>)
    requires RingHolds(ring, history)
    ensures Permutation(ring[..Filled(history)], Recent(history))
  {
    var n := |history|;
    if n <= RING_SIZE {
      forall i | 0 <= i < n
        ensures ring[..n][i] == history[i]
      {
        assert InSlot(ring, history, i);
      }
      assert ring[..n] == history;
    } else {
      var p := n % RING_SIZE;
      RingTurned(ring, history, p);
      assert ring == ring[..p] + ring[p..];
      assert ring[..RING_SIZE] == ring;
    }
  }

  lemma RingTurned(ring: seq<int>, history: seq<int>, p: nat)
    requires RingHolds(ring, history) && |history| > RING_SIZE && p == |history| % RING_SIZE
    ensures ring[p..] + ring[..p] == Recent(history)
  {
    var turned, from := ring[p..] + ring[..p], |history| - RING_SIZE;
    forall t | 0 <= t < RING_SIZE
      ensures turned[t] == history[from + t]
    {
      SlotOf(|history|, t);
      assert InSlot(ring, history, from + t);
    }
  }

  lemma SlotOf(n: nat, t: nat)
    requires n > RING_SIZE && t < RING_SIZE
    ensures var p := n % RING_SIZE;
            (n - RING_SIZE + t) % RING_SIZE == if t < RING_SIZE - p then p + t else p + t - RING_SIZE
  {
  }

  /** Writing the next entry replaces the oldest one. */
  lemma RingStep(ring: seq<int>, history: seq<int>, d: int)
    requires RingHolds(ring, history)
    ensures RingHolds(ring[|history| % RING_SIZE := d], history + [d])
  {
    var n := |history|;
    var written, longer := ring[n % RING_SIZE := d], history + [d];
    forall i: nat | |longer| - RING_SIZE <= i < |longer|
      ensures InSlot(written, longer, i)
    {
      if i < n {
        SlotsDiffer(i, n);
        assert InSlot(ring, history, i);
      }
    }
  }

  lemma SlotsDiffer(i: nat, n: nat)
    requires i < n < i + RING_SIZE
    ensures i % RING_SIZE != n % RING_SIZE
  {
  }

  // ---------------------------------------------------------------- percentiles

  /** Whole microseconds of a duration in nanoseconds, rounded toward zero. */
  function Micros(d: int): int {
    if d >= 0 then d / 1000 else -(-d / 1000)
  }

  function Millis(d: int): real {
    Micros(d) as real / 1000.0
  }

  function RankIndex(n: nat, p: nat): (i: nat)
    requires n > 0 && p <= 100
    ensures i < n
  {
    RankBounded(n - 1, p);
    (n - 1) * p / 100
  }

  lemma RankBounded(m: nat, p: nat)
    requires p <= 100
    ensures 0 <= m * p <= m * 100
    ensures m * p / 100 <= m
  {
    assert m * p <= m * 100;
  }

  /** The p-th percentile of the recent durations; 0 when there are none. */
  function DurationPercentile(history: seq<int>, p: nat): real
    requires p <= 100
  {
    OrderedSorts(Recent(history));
    PermutationLength(Ordered(Recent(history)), Recent(history));
    if history == [] then 0.0 else Millis(Ordered(Recent(history))[RankIndex(|Recent(history)|, p)])
  }

  /** `v` milliseconds are the duration `d` in nanoseconds, cut to whole microseconds toward zero. */
  predicate InMillis(v: real, d: int) {
    && (v * 1000.0).Floor as real == v * 1000.0
    && (d >= 0 ==> 1000000.0 * v <= d as real < 1000000.0 * v + 1000.0)
    && (d < 0 ==> 1000000.0 * v - 1000.0 < d as real <= 1000000.0 * v)
  }

  /** `d` is one of the durations, with at most p percent of the others below it and more than that not above it. */
  predicate Ranked(durs: seq<int>, d: int, p: nat) {
    d in durs && 100 * Below(durs, d) <= (|durs| - 1) * p < 100 * AtMost(durs, d)
  }

  /** `v` reports the p-th percentile of these durations, or 0 if there are none. */
  ghost predicate Reports(v: real, durs: seq<int>, p: nat) {
    if durs == [] then v == 0.0 else exists d :: Ranked(durs, d, p) && InMillis(v, d)
  }

  lemma MillisMeaning(d: int)
    ensures InMillis(Millis(d), d)
  {
    var m := Micros(d);
    assert Millis(d) * 1000.0 == m as real;
    assert d >= 0 ==> 1000 * m <= d < 1000 * m + 1000;
    assert d < 0 ==> 1000 * m - 1000 < d <= 1000 * m;
  }

  lemma RankMeaning(n: nat, p: nat)
    requires n > 0 && p <= 100
    ensures 100 * RankIndex(n, p) <= (n - 1) * p < 100 * (RankIndex(n, p) + 1)
  {
  }

  lemma PercentileMeaning(history: seq<int>, p: nat)
    requires p <= 100
    ensures Reports(DurationPercentile(history, p), Recent(history), p)
  {
    if history != [] {
      var durs := Recent(history);
      var s := Ordered(durs);
      OrderedSorts(durs);
      PermutationLength(s, durs);
      var k := RankIndex(|durs|, p);
      RankMeaning(|durs|, p);
      SmallerRank(s, k, s[k]);
      GreaterRank(s, k, s[k]);
      RanksPermutation(s, durs, s[k]);
      MillisMeaning(s[k]);
      assert s[k] in multiset(s);
      assert Ranked(durs, s[k], p);
    }
  }

  lemma MillisMonotone(a: int, b: int)
    requires a <= b
    ensures Millis(a) <= Millis(b)
  {
    MicrosMonotone(a, b);
    ScaleMonotone(Micros(a), Micros(b));
  }

  lemma MicrosMonotone(a: int, b: int)
    requires a <= b
    ensures Micros(a) <= Micros(b)
  {
  }

  lemma ScaleMonotone(a: int, b: int)
    requires a <= b
    ensures a as real / 1000.0 <= b as real / 1000.0
  {
  }

  lemma RankMonotone(n: nat, p: nat, q: nat)
    requires n > 0 && p <= q <= 100
    ensures RankIndex(n, p) <= RankIndex(n, q)
  {
    ProductMonotone(n - 1, p, q);
    DivMonotone((n - 1) * p, (n - 1) * q);
  }

  lemma ProductMonotone(m: nat, p: nat, q: nat)
    requires p <= q
    ensures m * p <= m * q
  {
  }

  lemma DivMonotone(a: nat, b: nat)
    requires a <= b
    ensures a / 100 <= b / 100
  {
  }

  lemma DurationsMonotone(history: seq<int>, p: nat, q: nat)
    requires p <= q <= 100
    ensures DurationPercentile(history, p) <= DurationPercentile(history, q)
  {
    if history != [] {
      var s := Ordered(Recent(history));
      OrderedSorts(Recent(history));
      PermutationLength(s, Recent(history));
      var i, j := RankIndex(|s|, p), RankIndex(|s|, q);
      RankMonotone(|s|, p, q);
      MillisMonotone(s[i], s[j]);
    }
  }

  lemma LastFlushes(history: seq<int>)
    ensures Recent(history) == if |history| <= 256 then history else history[|history| - 256..]
  {
  }

  /** Sorting the filled slots of the ring is sorting the recent durations. */
  lemma SortedSlots(ring: seq<int>, history: seq<int>)
    requires RingHolds(ring, history)
    ensures Ordered(ring[..Filled(history)]) == Ordered(Recent(history))
    ensures |Ordered(Recent(history))| == |Recent(history)| == Filled(history)
  {
    OrderedSorts(ring[..Filled(history)]);
    OrderedSorts(Recent(history));
    RingIsRecent(ring, history);
    SortedIsUnique(Ordered(ring[..Filled(history)]), Ordered(Recent(history)));
    PermutationLength(Ordered(Recent(history)), Recent(history));
  }

  /** Reads one percentile off the sorted durations. */
  method ReadOff(sorted: seq<int>, p: nat, ghost history: seq<int>, ghost durs: seq<int>) returns (v: real)
    requires p <= 100 && durs == Recent(history) && sorted == Ordered(durs) && |sorted| == |durs|
    ensures v == DurationPercentile(history, p)
    ensures Reports(v, durs, p)
  {
    PercentileMeaning(history, p);
    v := if sorted == [] then 0.0 else Millis(sorted[RankIndex(|sorted|, p)]);
  }

  /** The two reported figures, read off the sorted recent durations. */
  method ReadFigures(sorted: seq<int>, ghost history: seq<int>) returns (p50: real, p95: real)
    requires sorted == Ordered(Recent(history)) && |sorted| == |Recent(history)|
    ensures p50 == DurationPercentile(history, 50) && p95 == DurationPercentile(history, 95)
    ensures var n := |history|;
            var durs := if n <= 256 then history else history[n - 256..];
            Reports(p50, durs, 50) && Reports(p95, durs, 95)
    ensures p50 <= p95
  {
    DurationsMonotone(history, 50, 95);
    LastFlushes(history);
    p50 := ReadOff(sorted, 50, history, Recent(history));
    p95 := ReadOff(sorted, 95, history, Recent(history));
  }

  class Stats {
    var eventsConsumed: nat
    var batchesApplied: nat
    var lastTickUnix: int
    var lastFlushMs: int
    var nDurs: nat
    const durs: array<int>
    /** All durations recorded since the process started. */
    ghost var history: seq<int>

    ghost predicate Valid()
      reads this, durs
    {
      durs.Length == RING_SIZE && nDurs == |history| && RingHolds(durs[..], history)
    }

    constructor (now: int)
      ensures Valid() && fresh(durs)
      ensures eventsConsumed == batchesApplied == 0 && history == [] && lastTickUnix == now && lastFlushMs == 0
    {
      eventsConsumed, batchesApplied, lastTickUnix, lastFlushMs, nDurs := 0, 0, now, 0, 0;
      durs := new int[RING_SIZE](i => 0);
      history := [];
    }

    method SawTick(now: int)
      modifies this`lastTickUnix
      ensures lastTickUnix == now
    {
      lastTickUnix := now;
    }

    method SawFlush(nowMs: int, events: nat, d: int)
      requires Valid()
      modifies this, durs
      ensures Valid() && history == old(history) + [d]
      ensures eventsConsumed == old(eventsConsumed) + events && batchesApplied == old(batchesApplied) + 1
      ensures lastFlushMs == nowMs && lastTickUnix == old(lastTickUnix)
    {
      RingStep(durs[..], history, d);
      eventsConsumed := eventsConsumed + events;
      batchesApplied := batchesApplied + 1;
      lastFlushMs := nowMs;
      durs[nDurs % RING_SIZE] := d;
      nDurs := nDurs + 1;
      history := history + [d];
    }

    /** Reads percentiles off a sorted copy; the ring itself is not changed. */
    method Snapshot(queueDepth: nat) returns (snap: Snapshot)
      requires Valid()
      ensures snap == Figures(eventsConsumed, batchesApplied, queueDepth, lastFlushMs,
                               DurationPercentile(history, 50), DurationPercentile(history, 95))
      ensures var n := |history|;
              var durs := if n <= 256 then history else history[n - 256..];
              Reports(snap.flushP50Ms, durs, 50) && Reports(snap.flushP95Ms, durs, 95)
      ensures snap.flushP50Ms <= snap.flushP95Ms
    {
      var n := if nDurs <= RING_SIZE then nDurs else RING_SIZE;
      var sorted := Ordered(durs[..n]);
      assert durs[..][..n] == durs[..n] && n == Filled(history);
      SortedSlots(durs[..], history);
      var p50, p95 := ReadFigures(sorted, history);
      snap := Figures(eventsConsumed, batchesApplied, queueDepth, lastFlushMs, p50, p95);
    }
  }
}
