/** What the bins and the percentile read-off mean. */
module HistogramTheory {
  import opened Powers
  import opened Histogram

  // ---------------------------------------------------------------- one bin

  lemma EdgeStep(b: nat)
    ensures EdgePow(b + 1) == EdgePow(b) * SPAN
  {
    var p, r := Pow(MIN_MS, NUM_BINS), Pow(SPAN, b);
    assert p * (SPAN * r) == p * r * SPAN;
  }

  lemma EdgeBounds(b: nat)
    requires b <= NUM_BINS
    ensures 0 < Pow(MIN_MS, NUM_BINS) == EdgePow(0) <= EdgePow(b) <= Pow(MAX_MS, NUM_BINS)
  {
    PowPositive(MIN_MS, NUM_BINS);
    PowPositive(SPAN, b);
    PowExponentMonotone(SPAN, b, NUM_BINS);
    MulMonotone(Pow(MIN_MS, NUM_BINS), Pow(MIN_MS, NUM_BINS), 1, Pow(SPAN, b));
    MulMonotone(Pow(MIN_MS, NUM_BINS), Pow(MIN_MS, NUM_BINS), Pow(SPAN, b), Pow(SPAN, NUM_BINS));
    PowProduct(MIN_MS, SPAN, NUM_BINS);
    assert MIN_MS * SPAN == MAX_MS;
  }

  /** A value lies between the edges of its bin; below the first and in the last bin only one edge binds. */
  lemma BinEdges(ms: nat)
    ensures ms >= MIN_MS ==> EdgePow(BinFor(ms)) <= Pow(ms, NUM_BINS)
    ensures BinFor(ms) < NUM_BINS - 1 ==> Pow(ms, NUM_BINS) < EdgePow(BinFor(ms) + 1)
  {
    EdgeBounds(0);
    if ms <= MIN_MS {
      PowMonotone(ms, MIN_MS, NUM_BINS);
      EdgeStep(0);
      if ms == MIN_MS {
        assert EdgePow(0) == Pow(MIN_MS, NUM_BINS);
      }
    } else {
      PowMonotone(MIN_MS, ms, NUM_BINS);
    }
  }

  lemma BinMonotone(a: int, b: int)
    requires a <= b
    ensures BinFor(a) <= BinFor(b)
  {
    if a > MIN_MS {
      PowMonotone(a, b, NUM_BINS);
    }
  }

  lemma UpperIsNearest(b: nat)
    requires b < NUM_BINS
    ensures NearestUpper(UpperMs(b), b)
  {
    var u := UpperMs(b);
    EdgeBounds(b + 1);
    PowPositive(2, NUM_BINS);
    MulMonotone(1, Pow(2, NUM_BINS), 1, EdgePow(b + 1));
    if u == 0 {
      PowMonotone(1, 1, NUM_BINS);
      PowOfOne(NUM_BINS);
      assert false;
    }
    if u == MAX_MS {
      PowProduct(2, MAX_MS, NUM_BINS);
      MulMonotone(Pow(2, NUM_BINS), Pow(2, NUM_BINS), EdgePow(b + 1), Pow(MAX_MS, NUM_BINS));
      PowStrict(2 * MAX_MS, 2 * MAX_MS + 1, NUM_BINS);
    }
  }

  lemma {:induction false} PowOfOne(e: nat)
    ensures Pow(1, e) == 1
  {
    if e > 0 {
      PowOfOne(e - 1);
    }
  }

  /** `q` lies in bin `b`: not below its lower edge 50 * 600^(b/128), nor at its upper one; the end bins are open. */
  predicate InBin(q: nat, b: nat) {
    && b < 128
    && (b > 0 ==> Pow(50, 128) * Pow(600, b) <= Pow(q, 128))
    && (b < 127 ==> Pow(q, 128) < Pow(50, 128) * Pow(600, b + 1))
  }

  /** `u` is the integer nearest to the upper edge of bin `b`. */
  predicate RoundsUpper(u: nat, b: nat) {
    u > 0 && Pow(2 * u - 1, 128) <= Pow(2, 128) * (Pow(50, 128) * Pow(600, b + 1)) < Pow(2 * u + 1, 128)
  }

  lemma EdgeLiterally(b: nat)
    ensures EdgePow(b) == Pow(50, 128) * Pow(600, b)
  {
  }

  lemma BinLiterally(q: nat)
    ensures InBin(q, BinFor(q))
  {
    BinEdges(q);
    EdgeLiterally(BinFor(q));
    EdgeLiterally(BinFor(q) + 1);
  }

  lemma UpperLiterally(b: nat)
    requires b < 128
    ensures RoundsUpper(UpperMs(b), b)
  {
    UpperIsNearest(b);
    EdgeLiterally(b + 1);
  }

  lemma UpperMonotone(b: nat, c: nat)
    requires b <= c < NUM_BINS
    ensures UpperMs(b) <= UpperMs(c)
  {
    var u, v := UpperMs(b), UpperMs(c);
    UpperIsNearest(b);
    UpperIsNearest(c);
    PowExponentMonotone(SPAN, b + 1, c + 1);
    MulMonotone(Pow(MIN_MS, NUM_BINS), Pow(MIN_MS, NUM_BINS), Pow(SPAN, b + 1), Pow(SPAN, c + 1));
    MulMonotone(Pow(2, NUM_BINS), Pow(2, NUM_BINS), EdgePow(b + 1), EdgePow(c + 1));
    PowReflects(2 * u - 1, 2 * v + 1, NUM_BINS);
  }

  /** The reported edge never understates a value up to MAX_MS, and understates every larger one. */
  lemma UpperCoversIff(q: nat)
    ensures q <= UpperMs(BinFor(q)) <==> q <= MAX_MS
  {
    if q <= MAX_MS {
      UpperIsNearest(BinFor(q));
      BelowUpperEdge(q);
      NearestCovers(UpperMs(BinFor(q)), BinFor(q), q);
    }
  }

  lemma NearestCovers(u: nat, b: nat, q: nat)
    requires NearestUpper(u, b) && Pow(q, NUM_BINS) <= EdgePow(b + 1)
    ensures q <= u
  {
    MulMonotone(Pow(2, NUM_BINS), Pow(2, NUM_BINS), Pow(q, NUM_BINS), EdgePow(b + 1));
    PowProduct(2, q, NUM_BINS);
    PowReflects(2 * q, 2 * u + 1, NUM_BINS);
  }

  lemma BelowUpperEdge(q: nat)
    requires q <= MAX_MS
    ensures Pow(q, NUM_BINS) <= EdgePow(BinFor(q) + 1)
  {
    BinEdges(q);
    if BinFor(q) == NUM_BINS - 1 {
      PowMonotone(q, MAX_MS, NUM_BINS);
      PowProduct(MIN_MS, SPAN, NUM_BINS);
      assert MIN_MS * SPAN == MAX_MS;
    }
  }

  /** u - 1/2 <= q * SPAN^(1/128), cleared of roots and fractions. */
  predicate WithinOneBin(u: nat, q: nat) {
    u > 0 && Pow(2 * u - 1, NUM_BINS) <= SPAN * Pow(2 * q, NUM_BINS)
  }

  /** The reported edge overstates a value by at most one bin ratio exactly from MIN_MS on. */
  lemma UpperWithinOneBinIff(q: nat)
    ensures WithinOneBin(UpperMs(BinFor(q)), q) <==> q >= MIN_MS
  {
    if q >= MIN_MS {
      var b := BinFor(q);
      UpperIsNearest(b);
      BinEdges(q);
      EdgeStep(b);
      PowProduct(2, q, NUM_BINS);
      ScaledBound(Pow(2, NUM_BINS), EdgePow(b), Pow(q, NUM_BINS));
    } else {
      BelowFirstBin(q);
    }
  }

  lemma BelowFirstBin(q: nat)
    requires q < MIN_MS
    ensures !WithinOneBin(UpperMs(BinFor(q)), q)
  {
    UpperIsNearest(BinFor(q));
    NearestOverstates(UpperMs(BinFor(q)), BinFor(q), q);
  }

  lemma NearestOverstates(u: nat, b: nat, q: nat)
    requires q < MIN_MS && b == 0 && NearestUpper(u, b)
    ensures !WithinOneBin(u, q)
  {
    FirstEdge(b);
    EdgeNumbers();
    Overstates(u, q, NUM_BINS);
  }

  /** The first upper edge rounds to at least 53, which is more than one bin ratio above 49. */
  lemma Overstates(u: nat, q: nat, e: nat)
    requires Pow(105, e) <= SPAN * Pow(100, e) < Pow(2 * u + 1, e)
    requires SPAN * Pow(98, e) < Pow(105, e) && q < MIN_MS
    ensures u > 0 && SPAN * Pow(2 * q, e) < Pow(2 * u - 1, e)
  {
    PowReflects(105, 2 * u + 1, e);
    PowMonotone(105, 2 * u - 1, e);
    PowMonotone(2 * q, 98, e);
  }

  /** The first reported edge, at least: every value below the range is read as that. */
  lemma FirstUpper(u: nat, b: nat)
    requires b == 0 && NearestUpper(u, b)
    ensures u >= 53
  {
    FirstEdge(b);
    EdgeNumbers();
    AboveFirst(u, NUM_BINS);
  }

  lemma AboveFirst(u: nat, e: nat)
    requires Pow(105, e) <= SPAN * Pow(100, e) < Pow(2 * u + 1, e)
    ensures u >= 53
  {
    PowReflects(105, 2 * u + 1, e);
  }

  /** From the top of the range on, the reported edge is the top of the range. */
  lemma TopUpper(q: nat)
    requires q >= MAX_MS
    ensures UpperMs(BinFor(q)) == MAX_MS
  {
    UpperCoversIff(MAX_MS);
    BinMonotone(MAX_MS, q);
    UpperMonotone(BinFor(MAX_MS), BinFor(q));
  }

  lemma FirstEdge(b: nat)
    requires b == 0
    ensures Pow(2, NUM_BINS) * EdgePow(b + 1) == SPAN * Pow(100, NUM_BINS)
  {
    EdgeStep(b);
    EdgeBounds(b);
    PowProduct(2, MIN_MS, NUM_BINS);
    assert 2 * MIN_MS == 100;
    ScaledBound(Pow(2, NUM_BINS), EdgePow(b), Pow(MIN_MS, NUM_BINS));
  }

  /** 1.05^128 <= 600 < (105/98)^128, by repeated squaring. */
  lemma EdgeNumbers()
    ensures Pow(105, NUM_BINS) <= SPAN * Pow(100, NUM_BINS)
    ensures SPAN * Pow(98, NUM_BINS) < Pow(105, NUM_BINS)
  {
    SquareRatio(105, 100, 1, 105, 100, 11025, 10000) by { PowOne(105); PowOne(100); }
    SquareRatio(105, 100, 2, 11025, 10000, 1216, 1000);
    SquareRatio(105, 100, 4, 1216, 1000, 1479, 1000);
    SquareRatio(105, 100, 8, 1479, 1000, 2188, 1000);
    SquareRatio(105, 100, 16, 2188, 1000, 4788, 1000);
    SquareRatio(105, 100, 32, 4788, 1000, 22925, 1000);
    SquareRatio(105, 100, 64, 22925, 1000, 600, 1);

    SquareRatio(98, 105, 1, 14, 15, 196, 225) by { PowOne(98); PowOne(105); }
    SquareRatio(98, 105, 2, 196, 225, 1000, 1315);
    SquareRatio(98, 105, 4, 1000, 1315, 1000, 1729);
    SquareRatio(98, 105, 8, 1000, 1729, 1000, 2989);
    SquareRatio(98, 105, 16, 1000, 2989, 1000, 8934);
    SquareRatio(98, 105, 32, 1000, 8934, 10, 798);
    SquareRatio(98, 105, 64, 10, 798, 1, 601);
    PowPositive(105, NUM_BINS);
    PowPositive(98, NUM_BINS);
  }

  lemma PowOne(a: nat)
    ensures Pow(a, 1) == a
  {
    assert Pow(a, 0) == 1;
  }

  lemma ScaledBound(two: nat, edge: nat, power: nat)
    requires edge <= power
    ensures two * (edge * SPAN) <= SPAN * (two * power)
    ensures edge == power ==> two * (edge * SPAN) == SPAN * (two * power)
  {
    MulMonotone(two, two, edge, power);
    assert two * (edge * SPAN) == SPAN * (two * edge);
  }
}
