/**
  The quality search of `optimize_chunks`: a bisection over the quality range 1..100
  against a byte budget, where each probe measures the largest encoded chunk.
  The encoder is the parameter `size(chunk, quality)`.
 */
module QualitySearch {
  import opened Types

  const MinQuality: int := 1
  const MaxQuality: int := 100

  function Max(a: nat, b: nat): nat {
    if a < b then b else a
  }

  /** The largest encoded size in one row of chunks, starting from 0. */
  function MaxInRow<C>(row: seq<C>, size: (C, int) -> nat, q: int): nat
  {
    if row == [] then 0
    else Max(MaxInRow(row[..|row| - 1], size, q), size(row[|row| - 1], q))
  }

  /** No chunk of the row encodes larger than the row maximum. */
  lemma {:induction false} MaxInRowBound<C>(row: seq<C>, size: (C, int) -> nat, q: int, c: nat)
    requires c < |row|
    ensures size(row[c], q) <= MaxInRow(row, size, q)
  {
    var last := |row| - 1;
    if c < last {
      MaxInRowBound(row[..last], size, q, c);
      assert row[..last][c] == row[c];
    }
  }

  /** `max_chunk_size` after a probe at quality q: the largest encoded size over all chunks, or 0. */
  function MaxChunkSize<C>(grid: seq<seq<C>>, size: (C, int) -> nat, q: int): nat
  {
    if grid == [] then 0
    else Max(MaxChunkSize(grid[..|grid| - 1], size, q), MaxInRow(grid[|grid| - 1], size, q))
  }

  /** No chunk encodes larger than the grid maximum. */
  lemma {:induction false} MaxChunkSizeBound<C>(grid: seq<seq<C>>, size: (C, int) -> nat, q: int, r: nat, c: nat)
    requires r < |grid| && c < |grid[r]|
    ensures size(grid[r][c], q) <= MaxChunkSize(grid, size, q)
  {
    var last := |grid| - 1;
    if r < last {
      MaxChunkSizeBound(grid[..last], size, q, r, c);
      assert grid[..last][r] == grid[r];
    } else {
      MaxInRowBound(grid[last], size, q, c);
    }
  }

  /** The row maximum is 0 or the size of one of the row's chunks. */
  lemma {:induction false} MaxInRowAttained<C>(row: seq<C>, size: (C, int) -> nat, q: int)
    ensures var m := MaxInRow(row, size, q);
      m == 0 || exists c :: 0 <= c < |row| && size(row[c], q) == m
  {
    if row != [] {
      var init := row[..|row| - 1];
      MaxInRowAttained(init, size, q);
      var m := MaxInRow(init, size, q);
      if m != 0 && m >= size(row[|row| - 1], q) {
        var c :| 0 <= c < |init| && size(init[c], q) == m;
        assert row[c] == init[c];
      }
    }
  }

  /** The grid maximum is 0 or the size of one of the chunks. */
  lemma {:induction false} MaxChunkSizeAttained<C>(grid: seq<seq<C>>, size: (C, int) -> nat, q: int)
    ensures var m := MaxChunkSize(grid, size, q);
      m == 0 || exists r, c :: 0 <= r < |grid| && 0 <= c < |grid[r]| && size(grid[r][c], q) == m
  {
    if grid != [] {
      var init := grid[..|grid| - 1];
      var last := |grid| - 1;
      MaxChunkSizeAttained(init, size, q);
      MaxInRowAttained(grid[last], size, q);
      var m := MaxChunkSize(init, size, q);
      var mr := MaxInRow(grid[last], size, q);
      if m != 0 && m >= mr {
        var r, c :| 0 <= r < |init| && 0 <= c < |init[r]| && size(init[r][c], q) == m;
        assert grid[r] == init[r];
      } else if mr != 0 {
        var c :| 0 <= c < |grid[last]| && size(grid[last][c], q) == mr;
      }
    }
  }

  /**
    A probe at quality q fits when `max_chunk_size <= budget`: the budget is not negative
    and every chunk encodes within it.
   */
  predicate Fits<C>(grid: seq<seq<C>>, size: (C, int) -> nat, budget: int, q: int)
  {
    MaxChunkSize(grid, size, q) <= budget
  }

  lemma FitsMeansEveryChunkFits<C>(grid: seq<seq<C>>, size: (C, int) -> nat, budget: int, q: int)
    ensures Fits(grid, size, budget, q) <==>
      0 <= budget && forall r, c :: 0 <= r < |grid| && 0 <= c < |grid[r]| ==> size(grid[r][c], q) <= budget
  {
    forall r, c | 0 <= r < |grid| && 0 <= c < |grid[r]|
      ensures size(grid[r][c], q) <= MaxChunkSize(grid, size, q)
    {
      MaxChunkSizeBound(grid, size, q, r, c);
    }
    if 0 <= budget && forall r, c :: 0 <= r < |grid| && 0 <= c < |grid[r]| ==> size(grid[r][c], q) <= budget {
      var m := MaxChunkSize(grid, size, q);
      MaxChunkSizeAttained(grid, size, q);
      if m != 0 {
        var r, c :| 0 <= r < |grid| && 0 <= c < |grid[r]| && size(grid[r][c], q) == m;
      }
    }
  }

  /**
    The probe of the loop as a predicate on qualities: quality q fits the budget. The
    bisection only ever asks this question, so the search below is stated for any such
    predicate `fits`.
   */
  function Probe<C>(grid: seq<seq<C>>, size: (C, int) -> nat, budget: int): int -> bool {
    q => Fits(grid, size, budget, q)
  }

  predicate InRange(q: int) {
    MinQuality <= q <= MaxQuality
  }

  /** The quality the search settled on (None: nothing fitted) and the number of probes made. */
  datatype Outcome = Outcome(quality: Option<int>, probes: nat)

  // ---------------------------------------------------------------------------
  // The search as written

  /**
    The loop of `optimize_chunks` from the state (lo, hi, best): probe mid = (lo + hi) // 2;
    when the probe does not fit continue in [mid + 1, hi], otherwise record mid and
    continue in [lo, mid - 1]. Whatever it returns is a quality in range that fits.
   */
  function SearchAsWritten(fits: int -> bool, lo: int, hi: int, best: Option<int>): Outcome
    decreases hi - lo
  {
    if lo > hi then Outcome(best, 0)
    else
      var mid := (lo + hi) / 2;
      var o := if !fits(mid)
               then SearchAsWritten(fits, mid + 1, hi, best)
               else SearchAsWritten(fits, lo, mid - 1, Some(mid));
      Outcome(o.quality, o.probes + 1)
  }

  /** The whole search: from [1, 100] with nothing recorded. */
  function OptimizeAsWritten(fits: int -> bool): Outcome {
    SearchAsWritten(fits, MinQuality, MaxQuality, None)
  }

  /**
    One iteration of the loop on a grid: with m the largest chunk size at the midpoint, the
    outcome from (lo, hi, best) is the outcome from the state the loop moves to.
   */
  lemma ProbeStep<C>(grid: seq<seq<C>>, size: (C, int) -> nat, budget: int, lo: int, hi: int, best: Option<int>, m: nat)
    requires lo <= hi && m == MaxChunkSize(grid, size, (lo + hi) / 2)
    ensures var fits := Probe(grid, size, budget);
      var mid := (lo + hi) / 2;
      SearchAsWritten(fits, lo, hi, best).quality ==
        if m > budget then SearchAsWritten(fits, mid + 1, hi, best).quality
        else SearchAsWritten(fits, lo, mid - 1, Some(mid)).quality
  {
    var fits := Probe(grid, size, budget);
    assert fits((lo + hi) / 2) <==> m <= budget;
    SearchAsWrittenStep(fits, lo, hi, best);
  }

  /**
    Remaining[p] bounds how many qualities of 1..100 the loop can still have to search
    after p probes: each probe leaves at most half of the interval minus its midpoint.
   */
  const Remaining: seq<int> := [127, 63, 31, 15, 7, 3, 1, 0]

  /**
    One bisection step: when [lo, hi] holds at most Remaining[p] qualities, fewer than 7
    probes have been made, and either half left after probing the midpoint holds at
    most Remaining[p + 1].
   */
  lemma HalvingStep(lo: int, hi: int, p: nat)
    requires p <= 7 && lo <= hi && hi - lo + 1 <= Remaining[p]
    ensures p < 7
    ensures var mid := (lo + hi) / 2;
      hi - (mid + 1) + 1 <= Remaining[p + 1] && (mid - 1) - lo + 1 <= Remaining[p + 1]
  {
    assert p < 7 ==> Remaining[p + 1] == (Remaining[p] - 1) / 2;
  }

  /** Whatever the search returns is a quality in range whose probe fitted. */
  lemma {:induction false} SearchAsWrittenFits(fits: int -> bool, lo: int, hi: int, best: Option<int>)
    requires MinQuality <= lo && hi <= MaxQuality
    requires best.Some? ==> InRange(best.value) && fits(best.value)
    ensures var r := SearchAsWritten(fits, lo, hi, best).quality;
      r.Some? ==> InRange(r.value) && fits(r.value)
    decreases hi - lo
  {
    if lo <= hi {
      var mid := (lo + hi) / 2;
      if fits(mid) {
        SearchAsWrittenFits(fits, lo, mid - 1, Some(mid));
      } else {
        SearchAsWrittenFits(fits, mid + 1, hi, best);
      }
    }
  }

  /** One iteration of the loop: the outcome from (lo, hi, best) is the outcome from the next state. */
  lemma SearchAsWrittenStep(fits: int -> bool, lo: int, hi: int, best: Option<int>)
    requires lo <= hi
    ensures var mid := (lo + hi) / 2;
      SearchAsWritten(fits, lo, hi, best).quality ==
        if fits(mid) then SearchAsWritten(fits, lo, mid - 1, Some(mid)).quality
        else SearchAsWritten(fits, mid + 1, hi, best).quality
  {}

  function Pow2(k: nat): (p: nat)
    ensures p >= 1
  {
    if k == 0 then 1 else 2 * Pow2(k - 1)
  }

  /** An interval of fewer than 2^k qualities is settled in at most k probes. */
  lemma {:induction false} SearchProbes(fits: int -> bool, lo: int, hi: int, best: Option<int>, k: nat)
    requires hi - lo + 1 < Pow2(k)
    ensures SearchAsWritten(fits, lo, hi, best).probes <= k
    decreases hi - lo
  {
    if lo <= hi {
      var mid := (lo + hi) / 2;
      if !fits(mid) {
        SearchProbes(fits, mid + 1, hi, best, k - 1);
      } else {
        SearchProbes(fits, lo, mid - 1, Some(mid), k - 1);
      }
    }
  }

  /** The search always stops after at most 7 probes of the encoder. */
  lemma AtMostSevenProbes(fits: int -> bool)
    ensures OptimizeAsWritten(fits).probes <= 7
  {
    assert Pow2(7) == 128 by {
      assert Pow2(0) == 1 && Pow2(1) == 2 && Pow2(2) == 4 && Pow2(3) == 8;
      assert Pow2(4) == 16 && Pow2(5) == 32 && Pow2(6) == 64;
    }
    SearchProbes(fits, MinQuality, MaxQuality, None, 7);
  }

  /** Fitting is upward closed: a quality that fits stays fitting at every higher quality. */
  ghost predicate UpwardClosed(fits: int -> bool) {
    forall q, q' :: MinQuality <= q <= q' <= MaxQuality && fits(q) ==> fits(q')
  }

  /** Fitting is downward closed: encoded size never shrinks as quality grows. */
  ghost predicate DownwardClosed(fits: int -> bool) {
    forall q, q' :: MinQuality <= q <= q' <= MaxQuality && fits(q') ==> fits(q)
  }

  /** Growing sizes make the probe of a grid downward closed. */
  lemma GrowingSizeDownwardClosed<C>(grid: seq<seq<C>>, size: (C, int) -> nat, budget: int)
    requires forall ch, q, q' :: q <= q' ==> size(ch, q) <= size(ch, q')
    ensures DownwardClosed(Probe(grid, size, budget))
  {
    forall q, q' | MinQuality <= q <= q' <= MaxQuality && Fits(grid, size, budget, q')
      ensures Fits(grid, size, budget, q)
    {
      FitsMeansEveryChunkFits(grid, size, budget, q);
      FitsMeansEveryChunkFits(grid, size, budget, q');
    }
  }

  /** The least quality from q up to 100 that fits, if any: a plain upward scan. */
  function FirstFitFrom(fits: int -> bool, q: int): (r: Option<int>)
    decreases MaxQuality - q
  {
    if q > MaxQuality then None
    else if fits(q) then Some(q)
    else FirstFitFrom(fits, q + 1)
  }

  /** The scan finds the least fitting quality in [q, 100], and nothing exactly when none fits. */
  lemma {:induction false} FirstFitFromIsLeast(fits: int -> bool, q: int)
    ensures var r := FirstFitFrom(fits, q);
      (r.None? <==> forall p :: q <= p <= MaxQuality ==> !fits(p)) &&
      (r.Some? ==> q <= r.value <= MaxQuality && fits(r.value) && forall p :: q <= p < r.value ==> !fits(p))
    decreases MaxQuality - q
  {
    if q <= MaxQuality && !fits(q) {
      FirstFitFromIsLeast(fits, q + 1);
    }
  }

  /** Qualities that do not fit can be skipped. */
  lemma {:induction false} FirstFitSkip(fits: int -> bool, q: int, k: int)
    requires q <= k
    requires forall p :: q <= p < k ==> !fits(p)
    ensures FirstFitFrom(fits, q) == FirstFitFrom(fits, k)
    decreases k - q
  {
    if q < k {
      assert !fits(q);
      FirstFitSkip(fits, q + 1, k);
    }
  }

  /**
    With fitting upward closed, the search as written from a state the loop can reach
    (best is the quality just above hi, or nothing was recorded and hi is 100) ends on the
    first fitting quality from lo.
   */
  lemma {:induction false} SearchAsWrittenFirstFit(fits: int -> bool, lo: int, hi: int, best: Option<int>)
    requires UpwardClosed(fits)
    requires MinQuality <= lo <= hi + 1 && hi <= MaxQuality
    requires best.None? ==> hi == MaxQuality
    requires best.Some? ==> best.value == hi + 1 && InRange(best.value) && fits(best.value)
    ensures SearchAsWritten(fits, lo, hi, best).quality == FirstFitFrom(fits, lo)
    decreases hi - lo, 1
  {
    if lo > hi {
      assert SearchAsWritten(fits, lo, hi, best).quality == best == FirstFitFrom(fits, lo);
    } else if fits((lo + hi) / 2) {
      SearchAsWrittenAfterFit(fits, lo, hi, best);
    } else {
      SearchAsWrittenAfterMiss(fits, lo, hi, best);
    }
  }

  lemma {:induction false} SearchAsWrittenAfterFit(fits: int -> bool, lo: int, hi: int, best: Option<int>)
    requires UpwardClosed(fits)
    requires MinQuality <= lo <= hi <= MaxQuality && fits((lo + hi) / 2)
    ensures SearchAsWritten(fits, lo, hi, best).quality == FirstFitFrom(fits, lo)
    decreases hi - lo, 0
  {
    var mid := (lo + hi) / 2;
    SearchAsWrittenStep(fits, lo, hi, best);
    SearchAsWrittenFirstFit(fits, lo, mid - 1, Some(mid));
  }

  lemma {:induction false} SearchAsWrittenAfterMiss(fits: int -> bool, lo: int, hi: int, best: Option<int>)
    requires UpwardClosed(fits)
    requires MinQuality <= lo <= hi <= MaxQuality && !fits((lo + hi) / 2)
    requires best.None? ==> hi == MaxQuality
    requires best.Some? ==> best.value == hi + 1 && InRange(best.value) && fits(best.value)
    ensures SearchAsWritten(fits, lo, hi, best).quality == FirstFitFrom(fits, lo)
    decreases hi - lo, 0
  {
    var mid := (lo + hi) / 2;
    SearchAsWrittenStep(fits, lo, hi, best);
    assert forall p :: lo <= p <= mid ==> !fits(p);
    FirstFitSkip(fits, lo, mid + 1);
    SearchAsWrittenFirstFit(fits, mid + 1, hi, best);
  }

  /**
    When fitting is upward closed the search as written returns the LEAST fitting quality,
    and reports failure exactly when no quality in 1..100 fits.
   */
  lemma AsWrittenFindsLeastFitting(fits: int -> bool)
    requires UpwardClosed(fits)
    ensures OptimizeAsWritten(fits).quality == FirstFitFrom(fits, MinQuality)
    ensures var r := OptimizeAsWritten(fits).quality;
      (r.None? <==> forall q :: MinQuality <= q <= MaxQuality ==> !fits(q)) &&
      (r.Some? ==> InRange(r.value) && fits(r.value) &&
                   forall q :: MinQuality <= q < r.value ==> !fits(q))
  {
    SearchAsWrittenFirstFit(fits, MinQuality, MaxQuality, None);
    FirstFitFromIsLeast(fits, MinQuality);
  }

  lemma {:induction false} AsWrittenAllFit(fits: int -> bool, lo: int, hi: int, best: Option<int>)
    requires lo <= hi + 1 && best == Some(hi + 1)
    requires forall q :: lo <= q <= hi ==> fits(q)
    ensures SearchAsWritten(fits, lo, hi, best).quality == Some(lo)
    decreases hi - lo
  {
    if lo <= hi {
      var mid := (lo + hi) / 2;
      AsWrittenAllFit(fits, lo, mid - 1, Some(mid));
    }
  }

  lemma {:induction false} AsWrittenNoneFit(fits: int -> bool, lo: int, hi: int, best: Option<int>)
    requires forall q :: lo <= q <= hi ==> !fits(q)
    ensures SearchAsWritten(fits, lo, hi, best).quality == best
    decreases hi - lo
  {
    if lo <= hi {
      var mid := (lo + hi) / 2;
      assert !fits(mid);
      AsWrittenNoneFit(fits, mid + 1, hi, best);
    }
  }

  /**
    Under the usual encoder behaviour (size never shrinks as quality grows) the search as
    written depends only on the first probe: it returns quality 1 when quality 50 fits and
    reports failure when quality 50 does not fit, even if a lower quality would.
   */
  lemma AsWrittenUnderGrowingSize(fits: int -> bool)
    requires DownwardClosed(fits)
    ensures OptimizeAsWritten(fits).quality == if fits(50) then Some(1) else None
  {
    if fits(50) {
      AsWrittenAllFit(fits, 1, 49, Some(50));
    } else {
      AsWrittenNoneFit(fits, 51, 100, None);
    }
  }

  // ---------------------------------------------------------------------------
  // The search as intended

  /**
    The bisection with the branches the right way round: after a probe that fits, record
    it and look at higher qualities; after a miss, look at lower ones.
   */
  function SearchHighest(fits: int -> bool, lo: int, hi: int, best: Option<int>): Outcome
    decreases hi - lo
  {
    if lo > hi then Outcome(best, 0)
    else
      var mid := (lo + hi) / 2;
      var o := if !fits(mid)
               then SearchHighest(fits, lo, mid - 1, best)
               else SearchHighest(fits, mid + 1, hi, Some(mid));
      Outcome(o.quality, o.probes + 1)
  }

  function OptimizeIntended(fits: int -> bool): Outcome {
    SearchHighest(fits, MinQuality, MaxQuality, None)
  }

  /** Whatever the corrected search returns is a quality in range whose probe fitted. */
  lemma {:induction false} SearchHighestFits(fits: int -> bool, lo: int, hi: int, best: Option<int>)
    requires MinQuality <= lo && hi <= MaxQuality
    requires best.Some? ==> InRange(best.value) && fits(best.value)
    ensures var r := SearchHighest(fits, lo, hi, best).quality;
      r.Some? ==> InRange(r.value) && fits(r.value)
    decreases hi - lo
  {
    if lo <= hi {
      var mid := (lo + hi) / 2;
      if fits(mid) {
        SearchHighestFits(fits, mid + 1, hi, Some(mid));
      } else {
        SearchHighestFits(fits, lo, mid - 1, best);
      }
    }
  }

  lemma SearchHighestStep(fits: int -> bool, lo: int, hi: int, best: Option<int>)
    requires lo <= hi
    ensures var mid := (lo + hi) / 2;
      SearchHighest(fits, lo, hi, best).quality ==
        if fits(mid) then SearchHighest(fits, mid + 1, hi, Some(mid)).quality
        else SearchHighest(fits, lo, mid - 1, best).quality
  {}

  /** The greatest quality from 1 up to q that fits, if any: a plain downward scan. */
  function LastFitUpTo(fits: int -> bool, q: int): (r: Option<int>)
    decreases q - MinQuality
  {
    if q < MinQuality then None
    else if fits(q) then Some(q)
    else LastFitUpTo(fits, q - 1)
  }

  /** The scan finds the greatest fitting quality in [1, q], and nothing exactly when none fits. */
  lemma {:induction false} LastFitUpToIsGreatest(fits: int -> bool, q: int)
    ensures var r := LastFitUpTo(fits, q);
      (r.None? <==> forall p :: MinQuality <= p <= q ==> !fits(p)) &&
      (r.Some? ==> MinQuality <= r.value <= q && fits(r.value) && forall p :: r.value < p <= q ==> !fits(p))
    decreases q - MinQuality
  {
    if q >= MinQuality && !fits(q) {
      LastFitUpToIsGreatest(fits, q - 1);
    }
  }

  lemma {:induction false} LastFitSkip(fits: int -> bool, k: int, q: int)
    requires k <= q
    requires forall p :: k < p <= q ==> !fits(p)
    ensures LastFitUpTo(fits, q) == LastFitUpTo(fits, k)
    decreases q - k
  {
    if k < q {
      assert !fits(q);
      LastFitSkip(fits, k, q - 1);
    }
  }

  /**
    With fitting downward closed, the corrected search from a state the loop can reach
    (best is the quality just below lo, or nothing was recorded and lo is 1) ends on the
    last fitting quality up to hi.
   */
  lemma {:induction false} SearchHighestLastFit(fits: int -> bool, lo: int, hi: int, best: Option<int>)
    requires DownwardClosed(fits)
    requires MinQuality <= lo <= hi + 1 && hi <= MaxQuality
    requires best.None? ==> lo == MinQuality
    requires best.Some? ==> best.value == lo - 1 && InRange(best.value) && fits(best.value)
    ensures SearchHighest(fits, lo, hi, best).quality == LastFitUpTo(fits, hi)
    decreases hi - lo, 1
  {
    if lo > hi {
      assert SearchHighest(fits, lo, hi, best).quality == best == LastFitUpTo(fits, hi);
    } else if fits((lo + hi) / 2) {
      SearchHighestAfterFit(fits, lo, hi, best);
    } else {
      SearchHighestAfterMiss(fits, lo, hi, best);
    }
  }

  lemma {:induction false} SearchHighestAfterFit(fits: int -> bool, lo: int, hi: int, best: Option<int>)
    requires DownwardClosed(fits)
    requires MinQuality <= lo <= hi <= MaxQuality && fits((lo + hi) / 2)
    ensures SearchHighest(fits, lo, hi, best).quality == LastFitUpTo(fits, hi)
    decreases hi - lo, 0
  {
    var mid := (lo + hi) / 2;
    SearchHighestStep(fits, lo, hi, best);
    SearchHighestLastFit(fits, mid + 1, hi, Some(mid));
  }

  lemma {:induction false} SearchHighestAfterMiss(fits: int -> bool, lo: int, hi: int, best: Option<int>)
    requires DownwardClosed(fits)
    requires MinQuality <= lo <= hi <= MaxQuality && !fits((lo + hi) / 2)
    requires best.None? ==> lo == MinQuality
    requires best.Some? ==> best.value == lo - 1 && InRange(best.value) && fits(best.value)
    ensures SearchHighest(fits, lo, hi, best).quality == LastFitUpTo(fits, hi)
    decreases hi - lo, 0
  {
    var mid := (lo + hi) / 2;
    SearchHighestStep(fits, lo, hi, best);
    assert forall p :: mid <= p <= hi ==> !fits(p);
    LastFitSkip(fits, mid - 1, hi);
    SearchHighestLastFit(fits, lo, mid - 1, best);
  }

  /**
    When size never shrinks as quality grows, the corrected search returns the HIGHEST
    quality in 1..100 that fits, and reports failure exactly when none fits.
   */
  lemma IntendedFindsHighestFitting(fits: int -> bool)
    requires DownwardClosed(fits)
    ensures OptimizeIntended(fits).quality == LastFitUpTo(fits, MaxQuality)
    ensures var r := OptimizeIntended(fits).quality;
      (r.None? <==> forall q :: MinQuality <= q <= MaxQuality ==> !fits(q)) &&
      (r.Some? ==> InRange(r.value) && fits(r.value) &&
                   forall q :: r.value < q <= MaxQuality ==> !fits(q))
  {
    SearchHighestLastFit(fits, MinQuality, MaxQuality, None);
    LastFitUpToIsGreatest(fits, MaxQuality);
  }

  /** A looser budget never yields a lower quality from the corrected search. */
  lemma IntendedMonotoneInBudget<C>(grid: seq<seq<C>>, size: (C, int) -> nat, b1: int, b2: int)
    requires b1 <= b2
    requires DownwardClosed(Probe(grid, size, b1)) && DownwardClosed(Probe(grid, size, b2))
    requires OptimizeIntended(Probe(grid, size, b1)).quality.Some?
    ensures OptimizeIntended(Probe(grid, size, b2)).quality.Some?
    ensures OptimizeIntended(Probe(grid, size, b1)).quality.value <= OptimizeIntended(Probe(grid, size, b2)).quality.value
  {
    IntendedFindsHighestFitting(Probe(grid, size, b1));
    IntendedFindsHighestFitting(Probe(grid, size, b2));
    var q1 := OptimizeIntended(Probe(grid, size, b1)).quality.value;
    assert Fits(grid, size, b1, q1);
    assert Probe(grid, size, b2)(q1);
  }

  // ---------------------------------------------------------------------------
  // A concrete input on which the two differ

  /** One chunk whose encoding takes 30 bytes per quality step. */
  function LinearSize(chunk: int, q: int): nat {
    if q < 0 then 0 else 30 * q
  }

  /** The grid of that one chunk fits a 1 KB budget exactly at the qualities up to 34. */
  lemma LinearFits(q: int)
    requires 0 <= q
    ensures Probe([[0]], LinearSize, 1024)(q) <==> q <= 34
  {
    var grid: seq<seq<int>> := [[0]];
    assert grid[..0] == [] && grid[0][..0] == [];
    assert MaxInRow(grid[0], LinearSize, q) == 30 * q;
    assert MaxChunkSize(grid, LinearSize, q) == 30 * q;
  }

  /**
    With a budget of 1 KB (max_size = 1) and one chunk of 30*q bytes, qualities 1..34 fit,
    yet the search as written reports failure, while the corrected search returns 34.
   */
  lemma AsWrittenMissesFeasibleBudget()
    ensures Fits([[0]], LinearSize, 1 * 1024, 34)
    ensures OptimizeAsWritten(Probe([[0]], LinearSize, 1 * 1024)).quality == None
    ensures OptimizeIntended(Probe([[0]], LinearSize, 1 * 1024)).quality == Some(34)
  {
    var fits := Probe([[0]], LinearSize, 1024);
    forall q, q' | MinQuality <= q <= q' <= MaxQuality && fits(q')
      ensures fits(q)
    {
      LinearFits(q);
      LinearFits(q');
    }
    LinearFits(34);
    LinearFits(35);
    LinearFits(50);
    AsWrittenUnderGrowingSize(fits);
    IntendedFindsHighestFitting(fits);
    var r := OptimizeIntended(fits).quality;
    LinearFits(r.value);
  }
}
