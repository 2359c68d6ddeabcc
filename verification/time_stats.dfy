/**
  The diagnostic loop `timeStats`: for every frame popped it takes the absolute
  difference in milliseconds between this frame's time stamp and the previous
  one, maps it to one of `bins` buckets over `[diffMin_ms, diffMax_ms]`, and
  counts it there; at the end it reports one line per bucket.

  Floating-point values are modelled as reals. The conversion of the scaled
  delta to `int` truncates toward zero, as a C++ float-to-int conversion does.
 */
module TimeStats {
  import opened Mocap

  /** The parameters `diffMin_ms`, `diffMax_ms` and `bins`. */
  datatype StatsConfig = StatsConfig(diffMinMs: real, diffMaxMs: real, bins: int) {
    /** A non-empty range and at least one bucket. */
    predicate Valid() {
      diffMinMs < diffMaxMs && 0 < bins
    }
  }

  /** The default arguments: 0.5 ms, 7.0 ms, 100 bins. */
  const DefaultConfig := StatsConfig(0.5, 7.0, 100)

  /** The histogram and the `current` time stamp carried from one pop to the next. */
  datatype StatsState = StatsState(hist: seq<nat>, current: Timespec)

  datatype StatsRun = StatsRun(state: StatsState, consumed: nat)

  /** One report line: bucket midpoint in milliseconds, and its count. */
  datatype ReportLine = ReportLine(midpointMs: real, count: nat)

  function Abs(x: real): (a: real)
    ensures 0.0 <= a
    ensures a == x || a == -x
  {
    if x < 0.0 then -x else x
  }

  /** A time stamp as milliseconds. */
  function Millis(t: Timespec): real {
    t.tvSec as real * 1000.0 + t.tvNsec as real / 1000000.0
  }

  /**
    `diff_ms`: the seconds and nanoseconds differences combined, then made
    non-negative. It is the distance between the two stamps in milliseconds.
   */
  function DeltaMs(prev: Timespec, current: Timespec): (d: real)
    ensures 0.0 <= d
    ensures d == Millis(current) - Millis(prev) || d == Millis(prev) - Millis(current)
  {
    Abs((current.tvSec as real - prev.tvSec as real) * 1000.0
        + (current.tvNsec as real - prev.tvNsec as real) / 1000000.0)
  }

  /** The delta does not depend on which stamp came first, and is zero between equal stamps. */
  lemma DeltaMsSymmetric(a: Timespec, b: Timespec)
    ensures DeltaMs(a, b) == DeltaMs(b, a)
    ensures DeltaMs(a, a) == 0.0
  {
  }

  /** C++ conversion of a floating value to `int`: truncation toward zero. */
  function TruncToInt(x: real): (n: int)
    ensures 0.0 <= x ==> 0 <= n && n as real <= x < n as real + 1.0
    ensures x < 0.0 ==> n <= 0 && n as real - 1.0 < x <= n as real
  {
    if 0.0 <= x then x.Floor else -((-x).Floor)
  }

  /** `(diff_ms - diffMin_ms) / (diffMax_ms - diffMin_ms) * (bins + 1)`, before truncation. */
  function Scaled(cfg: StatsConfig, d: real): real
    requires cfg.Valid()
  {
    (d - cfg.diffMinMs) / (cfg.diffMaxMs - cfg.diffMinMs) * (cfg.bins + 1) as real
  }

  /** The bucket a delta is counted in: the truncated scaled delta, clamped to `[0, bins-1]`. */
  function Bucket(cfg: StatsConfig, d: real): (b: int)
    requires cfg.Valid()
    ensures 0 <= b < cfg.bins
  {
    var raw := TruncToInt(Scaled(cfg, d));
    if raw < 0 then 0
    else if raw >= cfg.bins then cfg.bins - 1
    else raw
  }

  /**
    The delta at which the scaled value reaches `k`. The `(bins + 1)` factor
    makes consecutive edges `(max - min) / (bins + 1)` apart.
   */
  function Edge(cfg: StatsConfig, k: int): real
    requires cfg.Valid()
  {
    cfg.diffMinMs + k as real * (cfg.diffMaxMs - cfg.diffMinMs) / (cfg.bins + 1) as real
  }

  /**
    The interval of deltas bucket `b` collects: from its own edge (unbounded
    below for bucket 0) to the next edge (unbounded above for the last bucket).
   */
  predicate InBucket(cfg: StatsConfig, d: real, b: int)
    requires cfg.Valid()
  {
    && 0 <= b < cfg.bins
    && (b == 0 || Edge(cfg, b) <= d)
    && (b == cfg.bins - 1 || d < Edge(cfg, b + 1))
  }

  /** The scaled delta reaches `k` exactly when the delta reaches the `k`-th edge. */
  lemma ScaledReachesEdge(cfg: StatsConfig, d: real, k: int)
    requires cfg.Valid()
    ensures Scaled(cfg, d) >= k as real <==> d >= Edge(cfg, k)
  {
    var w := cfg.diffMaxMs - cfg.diffMinMs;
    var n := (cfg.bins + 1) as real;
    var x := d - Edge(cfg, k);
    assert Scaled(cfg, d) - k as real == x * (n / w);
    assert n / w > 0.0;
    if x >= 0.0 {
      assert x * (n / w) >= 0.0;
    } else {
      assert x * (n / w) < 0.0;
    }
  }

  /** Edges strictly increase with their index. */
  lemma EdgeIncreasing(cfg: StatsConfig, j: int, k: int)
    requires cfg.Valid() && j < k
    ensures Edge(cfg, j) < Edge(cfg, k)
  {
    var step := (cfg.diffMaxMs - cfg.diffMinMs) / (cfg.bins + 1) as real;
    assert step > 0.0;
    assert Edge(cfg, j) == cfg.diffMinMs + j as real * step;
    assert Edge(cfg, k) == cfg.diffMinMs + k as real * step;
    assert (k - j) as real * step > 0.0;
  }

  /** For a positive `k`, the bucket is at least `k` exactly when `k` is a bucket and the delta reaches edge `k`. */
  lemma BucketAtLeast(cfg: StatsConfig, d: real, k: int)
    requires cfg.Valid() && 1 <= k
    ensures Bucket(cfg, d) >= k <==> k < cfg.bins && d >= Edge(cfg, k)
  {
    ScaledReachesEdge(cfg, d, k);
    var s := Scaled(cfg, d);
    var raw := TruncToInt(s);
    if s >= 0.0 {
      assert raw >= k <==> s >= k as real;
    } else {
      assert raw <= 0;
    }
  }

  /** Bucket `b` is chosen exactly for the deltas in its interval. */
  lemma BucketInterval(cfg: StatsConfig, d: real, b: int)
    requires cfg.Valid()
    ensures Bucket(cfg, d) == b <==> InBucket(cfg, d, b)
  {
    if 0 <= b < cfg.bins {
      BucketAtLeast(cfg, d, b + 1);
      if b >= 1 {
        BucketAtLeast(cfg, d, b);
      }
    }
  }

  /** A delta at or below the minimum goes to bucket 0. */
  lemma BucketAtOrBelowMin(cfg: StatsConfig, d: real)
    requires cfg.Valid() && d <= cfg.diffMinMs
    ensures Bucket(cfg, d) == 0
  {
    BucketAtLeast(cfg, d, 1);
    EdgeIncreasing(cfg, 0, 1);
  }

  /** A delta at or above the maximum goes to the last bucket. */
  lemma BucketAtOrAboveMax(cfg: StatsConfig, d: real)
    requires cfg.Valid() && cfg.diffMaxMs <= d
    ensures Bucket(cfg, d) == cfg.bins - 1
  {
    if cfg.bins > 1 {
      BucketAtLeast(cfg, d, cfg.bins - 1);
      EdgeIncreasing(cfg, cfg.bins - 1, cfg.bins + 1);
      assert Edge(cfg, cfg.bins + 1) == cfg.diffMaxMs;
    }
  }

  /** A larger delta never lands in a lower bucket. */
  lemma BucketMonotone(cfg: StatsConfig, d1: real, d2: real)
    requires cfg.Valid() && d1 <= d2
    ensures Bucket(cfg, d1) <= Bucket(cfg, d2)
  {
    var k := Bucket(cfg, d1);
    if k >= 1 {
      BucketAtLeast(cfg, d1, k);
      BucketAtLeast(cfg, d2, k);
    }
  }

  /** With the default parameters a 3.75 ms delta scales to 50.5 and lands in bucket 50. */
  lemma DefaultBucketExample()
    ensures Bucket(DefaultConfig, 3.75) == 50
  {
    assert Scaled(DefaultConfig, 3.75) == 50.5;
    assert TruncToInt(50.5) == 50;
  }

  /** Sum of all counts. */
  function Sum(h: seq<nat>): nat
    decreases |h|
  {
    if |h| == 0 then 0 else h[0] + Sum(h[1..])
  }

  /** Replacing one count changes the sum by the difference. */
  lemma {:induction false} SumUpdate(h: seq<nat>, b: int, v: nat)
    requires 0 <= b < |h|
    ensures Sum(h[b := v]) + h[b] == Sum(h) + v
    decreases |h|
  {
    if b > 0 {
      assert h[b := v][1..] == h[1..][b - 1 := v];
      SumUpdate(h[1..], b - 1, v);
    } else {
      assert h[b := v][1..] == h[1..];
    }
  }

  /** The histogram after `memset(hist, 0, ...)`. */
  function Zeros(n: nat): (z: seq<nat>)
    ensures |z| == n
    ensures forall i :: 0 <= i < n ==> z[i] == 0
    ensures Sum(z) == 0
    decreases n
  {
    if n == 0 then [] else [0] + Zeros(n - 1)
  }

  /** `hist[bin] += 1`: one bucket gains one count, every other bucket keeps its count. */
  function Increment(h: seq<nat>, b: int): (r: seq<nat>)
    requires 0 <= b < |h|
    ensures |r| == |h|
    ensures r[b] == h[b] + 1
    ensures forall i :: 0 <= i < |h| && i != b ==> r[i] == h[i]
    ensures Sum(r) == Sum(h) + 1
  {
    SumUpdate(h, b, h[b] + 1);
    h[b := h[b] + 1]
  }

  /** How a frame stamped `current`, following one stamped `prev`, is mapped to a bucket index. */
  type Binning = (Timespec, Timespec) -> int

  /** There is a bucket, and every pair of stamps is mapped to one of the `bins` buckets. */
  ghost predicate Fits(cfg: StatsConfig, binOf: Binning) {
    0 < cfg.bins && forall prev: Timespec, current: Timespec :: 0 <= binOf(prev, current) < cfg.bins
  }

  /**
    The mapping the code applies: the bucket of the delta between the two
    stamps. Each pair goes to the bucket whose interval holds its delta.
   */
  function CodeBinning(cfg: StatsConfig): (binOf: Binning)
    requires cfg.Valid()
    ensures Fits(cfg, binOf)
    ensures forall prev: Timespec, current: Timespec :: InBucket(cfg, DeltaMs(prev, current), binOf(prev, current))
  {
    var binOf := (prev: Timespec, current: Timespec) => Bucket(cfg, DeltaMs(prev, current));
    assert forall prev: Timespec, current: Timespec :: InBucket(cfg, DeltaMs(prev, current), binOf(prev, current)) by {
      forall prev: Timespec, current: Timespec
        ensures InBucket(cfg, DeltaMs(prev, current), binOf(prev, current))
      {
        var d := DeltaMs(prev, current);
        BucketInterval(cfg, d, Bucket(cfg, d));
      }
    }
    binOf
  }

  /** One valid pop with time stamp `stamp`: count the delta from the current stamp, then adopt `stamp`. */
  function StatsStep(cfg: StatsConfig, binOf: Binning, s: StatsState, stamp: Timespec): (r: StatsState)
    requires Fits(cfg, binOf) && |s.hist| == cfg.bins
    ensures |r.hist| == cfg.bins
    ensures r.current == stamp
  {
    StatsState(Increment(s.hist, binOf(s.current, stamp)), stamp)
  }

  /**
    What one step counts: the bucket of the pair (previous stamp, new stamp)
    gains one, every other bucket keeps its count, and the total grows by one.
   */
  lemma StatsStepSpec(cfg: StatsConfig, binOf: Binning, s: StatsState, stamp: Timespec)
    requires Fits(cfg, binOf) && |s.hist| == cfg.bins
    ensures var r := StatsStep(cfg, binOf, s, stamp);
            var b := binOf(s.current, stamp);
            r.hist[b] == s.hist[b] + 1 &&
            (forall i :: 0 <= i < cfg.bins && i != b ==> r.hist[i] == s.hist[i]) &&
            Sum(r.hist) == Sum(s.hist) + 1
  {
  }

  /**
    The histogram and `current` after counting the given stamps one after
    another, each delta measured from the stamp before it (the first from
    the starting `current`).
   */
  function Counted(cfg: StatsConfig, binOf: Binning, s: StatsState, stamps: seq<Timespec>): (r: StatsState)
    requires Fits(cfg, binOf) && |s.hist| == cfg.bins
    ensures |r.hist| == cfg.bins
    ensures |stamps| == 0 ==> r == s
    ensures |stamps| > 0 ==> r.current == stamps[|stamps| - 1]
    decreases |stamps|
  {
    if |stamps| == 0 then s
    else Counted(cfg, binOf, StatsStep(cfg, binOf, s, stamps[0]), stamps[1..])
  }

  /** Counting two runs of stamps in turn is counting them together. */
  lemma {:induction false} CountedAppend(cfg: StatsConfig, binOf: Binning, s: StatsState, a: seq<Timespec>, b: seq<Timespec>)
    requires Fits(cfg, binOf) && |s.hist| == cfg.bins
    ensures Counted(cfg, binOf, s, a + b) == Counted(cfg, binOf, Counted(cfg, binOf, s, a), b)
    decreases |a|
  {
    if |a| > 0 {
      assert (a + b)[0] == a[0];
      assert (a + b)[1..] == a[1..] + b;
      CountedAppend(cfg, binOf, StatsStep(cfg, binOf, s, a[0]), a[1..], b);
    } else {
      assert a + b == b;
    }
  }

  /** One inner `while (true)` of `timeStats`: pop and count until `valid` is false. */
  function StatsDrain(cfg: StatsConfig, binOf: Binning, s: StatsState, polls: seq<Poll>): (r: StatsRun)
    requires Fits(cfg, binOf) && |s.hist| == cfg.bins
    ensures |r.state.hist| == cfg.bins
    ensures r.consumed <= |polls|
    decreases |polls|
  {
    if |polls| == 0 then StatsRun(s, 0)
    else match polls[0]
      case NoFrame => StatsRun(s, 1)
      case Popped(_, stamp) =>
        var rest := StatsDrain(cfg, binOf, StatsStep(cfg, binOf, s, stamp), polls[1..]);
        StatsRun(rest.state, 1 + rest.consumed)
  }

  /** A stats drain consumes what a relay drain would, and counts one delta per frame popped. */
  lemma {:induction false} StatsDrainSpec(cfg: StatsConfig, binOf: Binning, s: StatsState, polls: seq<Poll>)
    requires Fits(cfg, binOf) && |s.hist| == cfg.bins
    ensures var r := StatsDrain(cfg, binOf, s, polls);
            r.consumed == DrainLength(polls) &&
            Sum(r.state.hist) == Sum(s.hist) + ValidCount(polls[..r.consumed])
    decreases |polls|
  {
    var r := StatsDrain(cfg, binOf, s, polls);
    if |polls| > 0 {
      assert polls[..r.consumed] == [polls[0]] + polls[1..][..r.consumed - 1];
      FramesAppend([polls[0]], polls[1..][..r.consumed - 1]);
      if polls[0].Popped? {
        StatsDrainSpec(cfg, binOf, StatsStep(cfg, binOf, s, polls[0].stamp), polls[1..]);
      } else {
        assert polls[1..][..r.consumed - 1] == [];
      }
    }
  }

  /**
    A stats drain counts the stamps of the leading frames, in pop order, each
    from the stamp before it; the empty poll that ends it leaves `current`
    at the last valid stamp.
   */
  lemma {:induction false} StatsDrainCounts(cfg: StatsConfig, binOf: Binning, s: StatsState, polls: seq<Poll>)
    requires Fits(cfg, binOf) && |s.hist| == cfg.bins
    ensures StatsDrain(cfg, binOf, s, polls).state == Counted(cfg, binOf, s, Stamps(polls[..FirstGap(polls)]))
    decreases |polls|
  {
    if |polls| > 0 && polls[0].Popped? {
      var t := StatsStep(cfg, binOf, s, polls[0].stamp);
      var g := FirstGap(polls[1..]);
      var tail := Stamps(polls[1..][..g]);
      StatsDrainCounts(cfg, binOf, t, polls[1..]);
      assert FirstGap(polls) == 1 + g;
      assert polls[..1 + g] == [polls[0]] + polls[1..][..g];
      StampsAppend([polls[0]], polls[1..][..g]);
      assert Stamps(polls[..FirstGap(polls)]) == [polls[0].stamp] + tail;
      assert Counted(cfg, binOf, s, [polls[0].stamp] + tail) == Counted(cfg, binOf, t, tail) by {
        assert ([polls[0].stamp] + tail)[1..] == tail;
      }
    } else if |polls| > 0 {
      assert polls[..FirstGap(polls)] == [];
    }
  }

  /** The outer `while (Globals::run)` loop of `timeStats`, one flag observation per iteration. */
  function CollectStats(cfg: StatsConfig, binOf: Binning, runs: seq<bool>, polls: seq<Poll>, s: StatsState): (r: StatsRun)
    requires Fits(cfg, binOf) && |s.hist| == cfg.bins
    ensures |r.state.hist| == cfg.bins
    ensures r.consumed <= |polls|
    decreases |runs|
  {
    if |runs| == 0 || !runs[0] then StatsRun(s, 0)
    else
      var d := StatsDrain(cfg, binOf, s, polls);
      var rest := CollectStats(cfg, binOf, runs[1..], polls[d.consumed..], d.state);
      StatsRun(rest.state, d.consumed + rest.consumed)
  }

  /** Number of leading iterations that see the run flag set. */
  function LeadingRuns(runs: seq<bool>): (k: nat)
    ensures k <= |runs|
    ensures forall i :: 0 <= i < k ==> runs[i]
    ensures k < |runs| ==> !runs[k]
    decreases |runs|
  {
    if |runs| == 0 || !runs[0] then 0 else 1 + LeadingRuns(runs[1..])
  }

  /** The loop drains once per leading iteration that sees the flag set, and on no other. */
  lemma {:induction false} CollectStatsConsumed(cfg: StatsConfig, binOf: Binning, runs: seq<bool>, polls: seq<Poll>, s: StatsState)
    requires Fits(cfg, binOf) && |s.hist| == cfg.bins
    ensures CollectStats(cfg, binOf, runs, polls, s).consumed == DrainsLength(polls, LeadingRuns(runs))
    decreases |runs|
  {
    if |runs| > 0 && runs[0] {
      var d := StatsDrain(cfg, binOf, s, polls);
      StatsDrainSpec(cfg, binOf, s, polls);
      CollectStatsConsumed(cfg, binOf, runs[1..], polls[d.consumed..], d.state);
    }
  }

  /** A stats drain counts exactly the stamps among the polls it consumes. */
  lemma StatsDrainConsumedCounts(cfg: StatsConfig, binOf: Binning, s: StatsState, polls: seq<Poll>)
    requires Fits(cfg, binOf) && |s.hist| == cfg.bins
    ensures var d := StatsDrain(cfg, binOf, s, polls);
            d.state == Counted(cfg, binOf, s, Stamps(polls[..d.consumed]))
  {
    StatsDrainSpec(cfg, binOf, s, polls);
    StatsDrainCounts(cfg, binOf, s, polls);
    StampsOfDrain(polls);
  }

  /** Counting the stamps of one stretch of polls and then of the next is counting the stamps of both. */
  lemma CountedSplit(cfg: StatsConfig, binOf: Binning, s: StatsState, polls: seq<Poll>, mid: StatsState, a: nat, fin: StatsState, b: nat)
    requires Fits(cfg, binOf) && |s.hist| == cfg.bins && a + b <= |polls|
    requires mid == Counted(cfg, binOf, s, Stamps(polls[..a]))
    requires fin == Counted(cfg, binOf, mid, Stamps(polls[a..][..b]))
    ensures fin == Counted(cfg, binOf, s, Stamps(polls[..a + b]))
  {
    StampsSplit(polls, a, b);
    CountedAppend(cfg, binOf, s, Stamps(polls[..a]), Stamps(polls[a..][..b]));
  }

  /** The first outer iteration drains once, then the remaining iterations continue from there. */
  lemma CollectStatsUnfold(cfg: StatsConfig, binOf: Binning, runs: seq<bool>, polls: seq<Poll>, s: StatsState)
    requires Fits(cfg, binOf) && |s.hist| == cfg.bins && |runs| > 0 && runs[0]
    ensures var d := StatsDrain(cfg, binOf, s, polls);
            var rest := CollectStats(cfg, binOf, runs[1..], polls[d.consumed..], d.state);
            CollectStats(cfg, binOf, runs, polls, s) == StatsRun(rest.state, d.consumed + rest.consumed)
  {
  }

  /** One outer iteration: if the rest of the loop counts its stamps, so does the whole loop. */
  lemma CollectStatsCountsStep(cfg: StatsConfig, binOf: Binning, s: StatsState, polls: seq<Poll>, d: StatsRun, rest: StatsRun, r: StatsRun)
    requires Fits(cfg, binOf) && |s.hist| == cfg.bins && d.consumed + rest.consumed <= |polls|
    requires d.state == Counted(cfg, binOf, s, Stamps(polls[..d.consumed]))
    requires rest.state == Counted(cfg, binOf, d.state, Stamps(polls[d.consumed..][..rest.consumed]))
    requires r == StatsRun(rest.state, d.consumed + rest.consumed)
    ensures r.state == Counted(cfg, binOf, s, Stamps(polls[..r.consumed]))
  {
    var k := d.consumed + rest.consumed;
    assert r.consumed == k && r.state == rest.state;
    CountedSplit(cfg, binOf, s, polls, d.state, d.consumed, rest.state, rest.consumed);
    assert rest.state == Counted(cfg, binOf, s, Stamps(polls[..k]));
  }

  /**
    Over the whole loop the histogram counts the stamps of all frames popped,
    in pop order, each delta measured from the previous valid stamp, across
    empty polls and outer iterations alike.
   */
  lemma {:induction false} CollectStatsCounts(cfg: StatsConfig, binOf: Binning, runs: seq<bool>, polls: seq<Poll>, s: StatsState)
    requires Fits(cfg, binOf) && |s.hist| == cfg.bins
    ensures var r := CollectStats(cfg, binOf, runs, polls, s);
            r.state == Counted(cfg, binOf, s, Stamps(polls[..r.consumed]))
    decreases |runs|
  {
    var r := CollectStats(cfg, binOf, runs, polls, s);
    if |runs| > 0 && runs[0] {
      var d := StatsDrain(cfg, binOf, s, polls);
      var rest := CollectStats(cfg, binOf, runs[1..], polls[d.consumed..], d.state);
      CollectStatsCounts(cfg, binOf, runs[1..], polls[d.consumed..], d.state);
      CollectStatsUnfold(cfg, binOf, runs, polls, s);
      StatsDrainConsumedCounts(cfg, binOf, s, polls);
      CollectStatsCountsStep(cfg, binOf, s, polls, d, rest, r);
    } else {
      assert r == StatsRun(s, 0);
      assert polls[..0] == [];
      assert Stamps(polls[..0]) == [];
    }
  }

  /** Every frame popped before the flag is seen cleared adds exactly one count. */
  lemma {:induction false} CollectStatsCount(cfg: StatsConfig, binOf: Binning, runs: seq<bool>, polls: seq<Poll>, s: StatsState)
    requires Fits(cfg, binOf) && |s.hist| == cfg.bins
    ensures var r := CollectStats(cfg, binOf, runs, polls, s);
            Sum(r.state.hist) == Sum(s.hist) + ValidCount(polls[..r.consumed])
    decreases |runs|
  {
    if |runs| > 0 && runs[0] {
      var d := StatsDrain(cfg, binOf, s, polls);
      var rest := CollectStats(cfg, binOf, runs[1..], polls[d.consumed..], d.state);
      StatsDrainSpec(cfg, binOf, s, polls);
      CollectStatsCount(cfg, binOf, runs[1..], polls[d.consumed..], d.state);
      FramesSplit(polls, d.consumed, rest.consumed);
    }
  }

  /** Starting from the zeroed histogram, the counts add up to the number of frames popped. */
  lemma CountsFromZero(cfg: StatsConfig, binOf: Binning, runs: seq<bool>, polls: seq<Poll>, initial: Timespec)
    requires Fits(cfg, binOf)
    ensures var r := CollectStats(cfg, binOf, runs, polls, StatsState(Zeros(cfg.bins), initial));
            Sum(r.state.hist) == ValidCount(polls[..r.consumed])
  {
    CollectStatsCount(cfg, binOf, runs, polls, StatsState(Zeros(cfg.bins), initial));
  }

  /** Dividing a product by `n` is scaling one factor by the `n`-th part of the other. */
  lemma DivideProduct(x: real, y: real, n: real)
    requires n > 0.0
    ensures x * y / n == y * (x / n)
  {
    var w := x / n;
    assert x == w * n;
    assert x * y == (w * y) * n;
  }

  /** Positions `b`, `b + 1/2` and `b + 1` steps of positive width `w` past `lo` are in increasing order. */
  lemma StepsOrdered(lo: real, w: real, b: int, n: int)
    requires w > 0.0 && 0 <= b < n
    ensures lo + b as real * w < lo + (b as real + 0.5) * w < lo + (b + 1) as real * w
    ensures lo < lo + (b as real + 0.5) * w
    ensures lo + (b + 1) as real * w <= lo + n as real * w
  {
    assert (b as real + 0.5) * w == b as real * w + 0.5 * w;
    assert (b + 1) as real * w == b as real * w + w;
    assert n as real * w == (b + 1) as real * w + (n - b - 1) as real * w;
    assert (n - b - 1) as real * w >= 0.0;
    assert b as real * w >= 0.0;
  }

  /** The midpoint printed for bucket `b`: `min + (max - min) * (0.5 + b) / bins`. */
  function Midpoint(cfg: StatsConfig, b: int): (mid: real)
    requires cfg.Valid() && 0 <= b < cfg.bins
    ensures cfg.diffMinMs < mid < cfg.diffMaxMs
    ensures var w := (cfg.diffMaxMs - cfg.diffMinMs) / cfg.bins as real;
            cfg.diffMinMs + b as real * w < mid < cfg.diffMinMs + (b + 1) as real * w
  {
    var lo, width, n := cfg.diffMinMs, cfg.diffMaxMs - cfg.diffMinMs, cfg.bins as real;
    var w := width / n;
    var mid := lo + width * (0.5 + b as real) / n;
    DivideProduct(width, 0.5 + b as real, n);
    assert mid == lo + (b as real + 0.5) * w;
    StepsOrdered(lo, w, b, cfg.bins);
    assert n * w == width;
    assert lo + cfg.bins as real * w == cfg.diffMaxMs;
    mid
  }

  /**
    The printed midpoint divides by `bins` while the buckets are cut by
    `bins + 1`, so from the middle bucket on the printed value is not in the
    interval its bucket collects: with the defaults, bucket 50 is printed as
    3.7825 ms, which itself lands in bucket 51.
   */
  lemma MidpointOutsideItsBucket()
    ensures Midpoint(DefaultConfig, 50) == 3.7825
    ensures Bucket(DefaultConfig, 3.7825) == 51
    ensures !InBucket(DefaultConfig, Midpoint(DefaultConfig, 50), 50)
  {
    assert Scaled(DefaultConfig, 3.7825) == 51.005;
    assert TruncToInt(51.005) == 51;
    BucketInterval(DefaultConfig, 3.7825, 50);
  }

  /** The report loop `for (bin = 0; bin < bins; ++bin)`: one line per bucket, in bucket order. */
  method Report(cfg: StatsConfig, hist: seq<nat>) returns (lines: seq<ReportLine>)
    requires cfg.Valid() && |hist| == cfg.bins
    ensures |lines| == cfg.bins
    ensures forall b :: 0 <= b < cfg.bins ==> lines[b].count == hist[b]
    ensures forall b :: 0 <= b < cfg.bins ==> lines[b].midpointMs == Midpoint(cfg, b)
    ensures forall b :: 0 <= b < cfg.bins ==> cfg.diffMinMs < lines[b].midpointMs < cfg.diffMaxMs
    ensures forall b :: 0 <= b < cfg.bins - 1 ==> lines[b].midpointMs < lines[b + 1].midpointMs
  {
    lines := [];
    var bin := 0;
    while bin < cfg.bins
      invariant 0 <= bin <= cfg.bins
      invariant |lines| == bin
      invariant forall b :: 0 <= b < bin ==> lines[b] == ReportLine(Midpoint(cfg, b), hist[b])
    {
      lines := lines + [ReportLine(Midpoint(cfg, bin), hist[bin])];
      bin := bin + 1;
    }
    forall b | 0 <= b < cfg.bins - 1
      ensures lines[b].midpointMs < lines[b + 1].midpointMs
    {
      var w := (cfg.diffMaxMs - cfg.diffMinMs) / cfg.bins as real;
      assert Midpoint(cfg, b) < cfg.diffMinMs + (b + 1) as real * w < Midpoint(cfg, b + 1);
    }
  }

  /** One inner `while (true)` as the code runs it, popping from position `start`. */
  method DrainStats(cfg: StatsConfig, hist0: seq<nat>, current0: Timespec, polls: seq<Poll>, start: nat)
    returns (hist: seq<nat>, current: Timespec, consumed: nat)
    requires cfg.Valid() && |hist0| == cfg.bins && start <= |polls|
    ensures start <= consumed <= |polls|
    ensures StatsDrain(cfg, CodeBinning(cfg), StatsState(hist0, current0), polls[start..])
            == StatsRun(StatsState(hist, current), consumed - start)
  {
    hist, current, consumed := hist0, current0, start;
    while true
      invariant start <= consumed <= |polls|
      invariant |hist| == cfg.bins
      invariant var d := StatsDrain(cfg, CodeBinning(cfg), StatsState(hist, current), polls[consumed..]);
                StatsDrain(cfg, CodeBinning(cfg), StatsState(hist0, current0), polls[start..])
                == StatsRun(d.state, consumed - start + d.consumed)
      decreases |polls| - consumed
    {
      if consumed == |polls| {
        break;
      }
      var prev := current;
      var p := polls[consumed];
      assert polls[consumed..][1..] == polls[consumed + 1..];
      consumed := consumed + 1;
      if p.NoFrame? {
        break;
      }
      current := p.stamp;
      var diff := DeltaMs(prev, current);
      var bin := TruncToInt(Scaled(cfg, diff));
      if bin < 0 {
        bin := 0;
      } else if bin >= cfg.bins {
        bin := cfg.bins - 1;
      }
      hist := hist[bin := hist[bin] + 1];
    }
  }

  /**
    `timeStats` as the code runs it, from the zeroed histogram and an explicit
    initial `current` stamp. It computes exactly what `CollectStats` describes,
    so its counts add up to the number of frames popped.
   */
  method TimeStatsLoop(cfg: StatsConfig, runs: seq<bool>, polls: seq<Poll>, initial: Timespec)
    returns (hist: seq<nat>, consumed: nat)
    requires cfg.Valid()
    ensures consumed <= |polls|
    ensures |hist| == cfg.bins
    ensures var r := CollectStats(cfg, CodeBinning(cfg), runs, polls, StatsState(Zeros(cfg.bins), initial));
            hist == r.state.hist && consumed == r.consumed
    ensures Sum(hist) == ValidCount(polls[..consumed])
    ensures hist == Counted(cfg, CodeBinning(cfg), StatsState(Zeros(cfg.bins), initial), Stamps(polls[..consumed])).hist
  {
    hist, consumed := Zeros(cfg.bins), 0;
    var current := initial;
    var t := 0;
    while t < |runs| && runs[t]
      invariant t <= |runs| && consumed <= |polls| && |hist| == cfg.bins
      invariant var rest := CollectStats(cfg, CodeBinning(cfg), runs[t..], polls[consumed..], StatsState(hist, current));
                CollectStats(cfg, CodeBinning(cfg), runs, polls, StatsState(Zeros(cfg.bins), initial))
                == StatsRun(rest.state, consumed + rest.consumed)
      decreases |runs| - t
    {
      var start := consumed;
      hist, current, consumed := DrainStats(cfg, hist, current, polls, start);
      assert polls[start..][consumed - start..] == polls[consumed..];
      assert runs[t..][1..] == runs[t + 1..];
      t := t + 1;
    }
    CountsFromZero(cfg, CodeBinning(cfg), runs, polls, initial);
    CollectStatsCounts(cfg, CodeBinning(cfg), runs, polls, StatsState(Zeros(cfg.bins), initial));
  }
}
