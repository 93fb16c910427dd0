/**
 * The LCP histogram: 128 log-spaced bins of 32-bit counters.
 *
 * The specification functions work on values (`Hist`); the methods work in place on the
 * 128-slot counter array, as the worker does, and are proved against those functions.
 * Bin edges are irrational, so they are read through their 128th powers, which are integers.
 */
module Histogram {
  import opened Common
  import opened Powers

  const NUM_BINS: nat := 128
  const MIN_MS: nat := 50
  const MAX_MS: nat := 30000
  /** MAX_MS / MIN_MS: the whole range, in multiples of its lower end. */
  const SPAN: nat := 600
  const BLOB_SIZE: nat := NUM_BINS * 4
  const WORD: nat := 0x1_0000_0000

  type uint32 = x: nat | x < WORD
  type byte = x: nat | x < 256
  type Hist = h: seq<uint32> | |h| == NUM_BINS witness seq(NUM_BINS, i => 0)

  function Empty(): Hist {
    seq(NUM_BINS, i => 0)
  }

  // ---------------------------------------------------------------- bin edges

  /** The 128th power of bin `b`'s lower edge, MIN_MS * SPAN^(b / 128). */
  function EdgePow(b: nat): nat {
    Pow(MIN_MS, NUM_BINS) * Pow(SPAN, b)
  }

  /** The largest bin at or below `b` whose lower edge is at most `ms`. */
  function BinAtMost(ms: nat, b: nat): (r: nat)
    ensures r <= b
    ensures r == 0 || EdgePow(r) <= Pow(ms, NUM_BINS)
    ensures forall c :: r < c <= b ==> Pow(ms, NUM_BINS) < EdgePow(c)
  {
    if b == 0 || EdgePow(b) <= Pow(ms, NUM_BINS) then b else BinAtMost(ms, b - 1)
  }

  function BinFor(ms: int): (b: nat)
    ensures b < NUM_BINS
  {
    if ms <= MIN_MS then 0 else BinAtMost(ms, NUM_BINS - 1)
  }

  /** `u` is the integer nearest to bin `b`'s upper edge. */
  predicate NearestUpper(u: nat, b: nat) {
    u > 0 && Pow(2 * u - 1, NUM_BINS) <= Pow(2, NUM_BINS) * EdgePow(b + 1) < Pow(2 * u + 1, NUM_BINS)
  }

  /** The largest u at or below `cap` that does not round past the upper edge of bin `b`. */
  function RoundedAtMost(b: nat, cap: nat): (u: nat)
    ensures u <= cap
    ensures u == 0 || Pow(2 * u - 1, NUM_BINS) <= Pow(2, NUM_BINS) * EdgePow(b + 1)
    ensures u < cap ==> Pow(2, NUM_BINS) * EdgePow(b + 1) < Pow(2 * u + 1, NUM_BINS)
  {
    if cap == 0 || Pow(2 * cap - 1, NUM_BINS) <= Pow(2, NUM_BINS) * EdgePow(b + 1) then cap
    else RoundedAtMost(b, cap - 1)
  }

  function UpperMs(b: nat): nat {
    RoundedAtMost(b, MAX_MS)
  }

  // ---------------------------------------------------------------- values

  function Bump(h: Hist, b: nat): Hist
    requires b < NUM_BINS
  {
    h[b := (h[b] + 1) % WORD]
  }

  function Merged(a: Hist, b: Hist): Hist {
    seq(NUM_BINS, i requires 0 <= i < NUM_BINS => (a[i] + b[i]) % WORD)
  }

  /** The histogram of a list of millisecond values. */
  function HistOf(ms: seq<int>): Hist {
    if ms == [] then Empty() else Bump(HistOf(ms[..|ms| - 1]), BinFor(ms[|ms| - 1]))
  }

  /** The number of values that fall into the first `n` bins. */
  function CumTo(h: seq<nat>, n: nat): nat
    requires n <= |h|
  {
    if n == 0 then 0 else CumTo(h, n - 1) + h[n - 1]
  }

  function CountOf(h: Hist): nat {
    CumTo(h, NUM_BINS)
  }

  /** Bins 0..b hold at least three quarters of the values. */
  predicate Reached(h: Hist, b: nat)
    requires b < NUM_BINS
  {
    4 * CumTo(h, b + 1) >= 3 * CountOf(h)
  }

  /** The first bin from `i` on at which three quarters of the values are reached. */
  function RankBin(h: Hist, i: nat): (b: nat)
    requires i < NUM_BINS
    ensures i <= b < NUM_BINS
    ensures b == NUM_BINS - 1 || Reached(h, b)
    ensures forall j :: i <= j < b ==> !Reached(h, j)
    decreases NUM_BINS - i
  {
    if i == NUM_BINS - 1 || Reached(h, i) then i else RankBin(h, i + 1)
  }

  lemma FirstReached(h: Hist, i: nat)
    requires i < NUM_BINS && Reached(h, i)
    requires forall j :: 0 <= j < i ==> !Reached(h, j)
    ensures RankBin(h, 0) == i
  {
  }

  function P75(h: Hist): nat {
    if CountOf(h) == 0 then 0 else UpperMs(RankBin(h, 0))
  }

  // ---------------------------------------------------------------- the stored form

  /** Byte `j` of the little-endian form of `w`. */
  function ByteOf(w: uint32, j: nat): byte
    requires j < 4
  {
    if j == 0 then w % 256
    else if j == 1 then w / 256 % 256
    else if j == 2 then w / 0x1_0000 % 256
    else w / 0x100_0000
  }

  function WordOf(b0: byte, b1: byte, b2: byte, b3: byte): uint32 {
    b0 + 256 * b1 + 0x1_0000 * b2 + 0x100_0000 * b3
  }

  function Encoded(h: Hist): (blob: seq<byte>)
    ensures |blob| == BLOB_SIZE
  {
    seq(BLOB_SIZE, i requires 0 <= i < BLOB_SIZE => ByteOf(h[i / 4], i % 4))
  }

  function Decoded(blob: seq<byte>): Option<Hist> {
    if |blob| != BLOB_SIZE then None
    else Some(seq(NUM_BINS, i requires 0 <= i < NUM_BINS =>
      WordOf(blob[4 * i], blob[4 * i + 1], blob[4 * i + 2], blob[4 * i + 3])))
  }

  lemma WordRoundTrip(w: uint32)
    ensures WordOf(ByteOf(w, 0), ByteOf(w, 1), ByteOf(w, 2), ByteOf(w, 3)) == w
  {
    var w1, w2 := w / 256, w / 0x1_0000;
    assert w2 == w1 / 256;
    assert w / 0x100_0000 == w2 / 256;
    assert w == 256 * w1 + w % 256;
    assert w1 == 256 * w2 + w1 % 256;
    assert w2 == 256 * (w2 / 256) + w2 % 256;
  }

  lemma ByteRoundTrip(b0: byte, b1: byte, b2: byte, b3: byte)
    ensures var w := WordOf(b0, b1, b2, b3);
            ByteOf(w, 0) == b0 && ByteOf(w, 1) == b1 && ByteOf(w, 2) == b2 && ByteOf(w, 3) == b3
  {
    var w := WordOf(b0, b1, b2, b3);
    assert w == b0 + 256 * (b1 + 256 * (b2 + 256 * b3));
    assert w / 256 == b1 + 256 * (b2 + 256 * b3);
    assert w / 0x1_0000 == b2 + 256 * b3;
  }

  lemma EncodedWord(h: Hist, i: nat)
    requires i < NUM_BINS
    ensures var blob := Encoded(h);
            && blob[4 * i] == ByteOf(h[i], 0) && blob[4 * i + 1] == ByteOf(h[i], 1)
            && blob[4 * i + 2] == ByteOf(h[i], 2) && blob[4 * i + 3] == ByteOf(h[i], 3)
  {
    assert 4 * i / 4 == (4 * i + 1) / 4 == (4 * i + 2) / 4 == (4 * i + 3) / 4 == i;
    assert 4 * i % 4 == 0 && (4 * i + 1) % 4 == 1 && (4 * i + 2) % 4 == 2 && (4 * i + 3) % 4 == 3;
  }

  lemma DecodedWord(blob: seq<byte>, i: nat)
    requires |blob| == BLOB_SIZE && i < NUM_BINS
    ensures Decoded(blob).Some?
    ensures Decoded(blob).value[i] == WordOf(blob[4 * i], blob[4 * i + 1], blob[4 * i + 2], blob[4 * i + 3])
  {
  }

  lemma WordAgain(w: uint32, b0: byte, b1: byte, b2: byte, b3: byte)
    requires b0 == ByteOf(w, 0) && b1 == ByteOf(w, 1) && b2 == ByteOf(w, 2) && b3 == ByteOf(w, 3)
    ensures WordOf(b0, b1, b2, b3) == w
  {
    WordRoundTrip(w);
  }

  lemma DecodeAfterEncode(h: Hist)
    ensures Decoded(Encoded(h)) == Some(h)
  {
    var blob := Encoded(h);
    var d := Decoded(blob).value;
    forall i | 0 <= i < NUM_BINS
      ensures d[i] == h[i]
    {
      EncodedWord(h, i);
      DecodedWord(blob, i);
      WordAgain(h[i], blob[4 * i], blob[4 * i + 1], blob[4 * i + 2], blob[4 * i + 3]);
    }
    assert d == h;
  }

  /** Counter `i` is stored in four bytes from offset 4 i on, the least significant first. */
  lemma LittleEndian(h: Hist, i: nat)
    requires i < 128
    ensures var blob := Encoded(h);
            && |blob| == 512
            && h[i] as int == blob[4 * i] as int + 256 * (blob[4 * i + 1] as int)
                              + 65536 * (blob[4 * i + 2] as int) + 16777216 * (blob[4 * i + 3] as int)
  {
    var blob := Encoded(h);
    EncodedWord(h, i);
    WordAgain(h[i], blob[4 * i], blob[4 * i + 1], blob[4 * i + 2], blob[4 * i + 3]);
  }

  lemma EncodeAfterDecode(blob: seq<byte>)
    ensures Decoded(blob).Some? <==> |blob| == BLOB_SIZE
    ensures Decoded(blob).Some? ==> Encoded(Decoded(blob).value) == blob
  {
    if |blob| == BLOB_SIZE {
      var h := Decoded(blob).value;
      forall i | 0 <= i < BLOB_SIZE
        ensures Encoded(h)[i] == blob[i]
      {
        var k := i / 4;
        ByteRoundTrip(blob[4 * k], blob[4 * k + 1], blob[4 * k + 2], blob[4 * k + 3]);
      }
      assert Encoded(h) == blob;
    }
  }

  lemma {:induction false} NothingCounted(h: seq<nat>, n: nat)
    requires n <= |h| && forall i :: 0 <= i < |h| ==> h[i] == 0
    ensures CumTo(h, n) == 0
  {
    if n > 0 {
      NothingCounted(h, n - 1);
    }
  }

  // ---------------------------------------------------------------- in place

  method Add(h: array<uint32>, ms: int)
    requires h.Length == NUM_BINS
    modifies h
    ensures h[..] == Bump(old(h[..]), BinFor(ms))
    ensures var b := BinFor(ms);
            forall i :: 0 <= i < 128 ==>
              h[i] as int == if i == b then (old(h[i]) as int + 1) % 4294967296 else old(h[i]) as int
  {
    var b := BinFor(ms);
    h[b] := (h[b] + 1) % WORD;
  }

  method Merge(h: array<uint32>, o: Hist)
    requires h.Length == NUM_BINS
    modifies h
    ensures h[..] == Merged(old(h[..]), o)
    ensures forall i :: 0 <= i < 128 ==> h[i] as int == (old(h[i]) as int + o[i] as int) % 4294967296
  {
    for i := 0 to NUM_BINS
      invariant forall j :: 0 <= j < i ==> h[j] == (old(h[j]) + o[j]) % WORD
      invariant forall j :: i <= j < NUM_BINS ==> h[j] == old(h[j])
    {
      h[i] := (h[i] + o[i]) % WORD;
    }
    assert h[..] == Merged(old(h[..]), o);
  }

  method Count(h: array<uint32>) returns (n: nat)
    requires h.Length == NUM_BINS
    ensures n == CountOf(h[..])
  {
    n := 0;
    for i := 0 to NUM_BINS
      invariant n == CumTo(h[..], i)
    {
      n := n + h[i];
    }
  }

  /** Reads the 75th percentile off the counters; 0 for an empty histogram. */
  method ReadP75(h: array<uint32>) returns (ms: nat)
    requires h.Length == NUM_BINS
    ensures ms == P75(h[..])
    ensures (forall i :: 0 <= i < 128 ==> h[i] == 0) ==> ms == 0
  {
    if forall i :: 0 <= i < NUM_BINS ==> h[i] == 0 {
      NothingCounted(h[..], NUM_BINS);
    }
    var total := Count(h);
    if total == 0 {
      return 0;
    }
    var cum: nat := 0;
    ghost var bins: Hist := h[..];
    for i := 0 to NUM_BINS
      invariant cum == CumTo(bins, i)
      invariant forall j :: 0 <= j < i ==> !Reached(bins, j)
    {
      cum := cum + h[i];
      if 4 * cum >= 3 * total {
        FirstReached(bins, i);
        return UpperMs(i);
      }
    }
    return UpperMs(NUM_BINS - 1);
  }

  method Encode(h: array<uint32>) returns (blob: array<byte>)
    requires h.Length == NUM_BINS
    ensures fresh(blob) && blob[..] == Encoded(h[..])
    ensures blob.Length == 512
    ensures forall i :: 0 <= i < 128 ==>
      h[i] as int == blob[4 * i] as int + 256 * (blob[4 * i + 1] as int)
                     + 65536 * (blob[4 * i + 2] as int) + 16777216 * (blob[4 * i + 3] as int)
  {
    blob := new byte[BLOB_SIZE];
    for i := 0 to NUM_BINS
      invariant forall j :: 0 <= j < 4 * i ==> blob[j] == ByteOf(h[j / 4], j % 4)
    {
      blob[4 * i] := ByteOf(h[i], 0);
      blob[4 * i + 1] := ByteOf(h[i], 1);
      blob[4 * i + 2] := ByteOf(h[i], 2);
      blob[4 * i + 3] := ByteOf(h[i], 3);
    }
    assert blob[..] == Encoded(h[..]);
    forall i | 0 <= i < 128
      ensures h[i] as int == blob[4 * i] as int + 256 * (blob[4 * i + 1] as int)
                             + 65536 * (blob[4 * i + 2] as int) + 16777216 * (blob[4 * i + 3] as int)
    {
      LittleEndian(h[..], i);
      assert blob[..][4 * i] == blob[4 * i];
    }
  }

  method Decode(blob: seq<byte>) returns (h: Option<Hist>)
    ensures h == Decoded(blob)
    ensures h.Some? <==> |blob| == 512
    ensures h.Some? ==> forall i :: 0 <= i < 128 ==>
      h.value[i] as int == blob[4 * i] as int + 256 * (blob[4 * i + 1] as int)
                           + 65536 * (blob[4 * i + 2] as int) + 16777216 * (blob[4 * i + 3] as int)
  {
    if |blob| != BLOB_SIZE {
      return None;
    }
    var bins := new uint32[NUM_BINS];
    for i := 0 to NUM_BINS
      invariant forall j :: 0 <= j < i ==>
        bins[j] == WordOf(blob[4 * j], blob[4 * j + 1], blob[4 * j + 2], blob[4 * j + 3])
    {
      bins[i] := WordOf(blob[4 * i], blob[4 * i + 1], blob[4 * i + 2], blob[4 * i + 3]);
    }
    assert bins[..] == Decoded(blob).value;
    return Some(bins[..]);
  }
}
