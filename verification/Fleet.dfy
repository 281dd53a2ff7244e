/** The fleet-anomaly detector of one cohort (server/data-plane/fleet/engine.go):
    a window ring, moving-average baselines fed by the buckets that leave the ring,
    and the surge and velocity tests. Floating-point numbers are reals here. */
module Fleet {
  import opened WindowRing

  /** A risk bitset as the set of its bit positions. */
  type Bits = set<nat>

  datatype Signal = Signal(name: string, mask: Bits)

  /** bits & mask != 0 */
  predicate Matches(bits: Bits, mask: Bits) {
    bits * mask != {}
  }

  /** Durations are nanoseconds. */
  datatype Config = Config(
    window: int, buckets: int, surgeFactor: real, absoluteFloor: real, coldStartFloor: real, minSamples: int,
    alpha: real, velocityFactor: real, velocityMinVolume: int, velocityColdVolume: int, maxScopes: int,
    snapshotTtl: int, signals: seq<Signal>)

  /** What New guarantees of every configuration, whatever it was given. */
  predicate Valid(c: Config) {
    && c.buckets > 0 && c.surgeFactor > 1.0 && c.absoluteFloor > 0.0 && c.coldStartFloor > 0.0
    && c.minSamples > 0 && 0.0 < c.alpha <= 1.0 && c.velocityFactor > 1.0
    && c.velocityMinVolume > 0 && c.velocityColdVolume > 0 && |c.signals| > 0
    && c.window > 0 && c.maxScopes > 0 && c.snapshotTtl >= 0
  }

  const SECOND: int := 1_000_000_000

  const DEFAULT_SIGNALS: seq<Signal> :=
    [Signal("root_jailbreak", {0}), Signal("emulator", {2}), Signal("hooking", {3}), Signal("app_tamper", {4}),
     Signal("attestation_fail", {5}), Signal("device_integrity", {8}), Signal("app_unrecognized", {9})]

  function IntOr(x: int, d: int): (r: int)
    ensures d > 0 ==> r > 0 && (x > 0 ==> r == x)
  {
    if x <= 0 then d else x
  }

  function RealOr(x: real, floor: real, d: real): (r: real)
    ensures d > floor ==> r > floor && (x > floor ==> r == x)
  {
    if x <= floor then d else x
  }

  /** New: every unset or out-of-range field takes its default. A negative snapshot time
      to live means no caching. */
  function New(c: Config): (r: Config)
    ensures Valid(r)
    ensures Valid(c) && c.snapshotTtl > 0 ==> r == c
    ensures r.snapshotTtl == 0 <==> c.snapshotTtl < 0
  {
    Config(
      IntOr(c.window, 300 * SECOND), IntOr(c.buckets, 10), RealOr(c.surgeFactor, 1.0, 3.0),
      RealOr(c.absoluteFloor, 0.0, 0.15), RealOr(c.coldStartFloor, 0.0, 0.30), IntOr(c.minSamples, 50),
      if c.alpha <= 0.0 || c.alpha > 1.0 then 0.2 else c.alpha, RealOr(c.velocityFactor, 1.0, 4.0),
      IntOr(c.velocityMinVolume, 200), IntOr(c.velocityColdVolume, 500), IntOr(c.maxScopes, 200_000),
      if c.snapshotTtl == 0 then SECOND else if c.snapshotTtl < 0 then 0 else c.snapshotTtl,
      if |c.signals| == 0 then DEFAULT_SIGNALS else c.signals)
  }

  /** The width of a bucket is never zero, so the epoch of a time is always defined. */
  function BucketSize(c: Config): (r: int)
    requires Valid(c)
    ensures r >= 1 && (c.window >= c.buckets ==> r * c.buckets <= c.window)
  {
    var size := c.window / c.buckets;
    if size <= 0 then 1 else size
  }

  /** A bucket's vector: the total first, then one count per watched signal. */
  function Width(c: Config): nat { |c.signals| + 1 }

  datatype Arrival = Arrival(epoch: int, bits: Bits)

  function Increments(c: Config, bits: Bits): (v: seq<nat>)
    ensures |v| == Width(c) && v[0] == 1
    ensures forall i :: 0 <= i < |c.signals| ==> v[i + 1] == if Matches(bits, c.signals[i].mask) then 1 else 0
  {
    [1] + seq(|c.signals|, i requires 0 <= i < |c.signals| => if Matches(bits, c.signals[i].mask) then 1 else 0)
  }

  function ObsOf(c: Config, a: Arrival): Obs {
    Obs(a.epoch, Increments(c, a.bits))
  }

  datatype Ewma = Ewma(value: real, seeded: bool)

  datatype Scope = Scope(ring: seq<Bucket>, baseline: seq<Ewma>, volume: Ewma)

  predicate Fits(c: Config, s: Scope) {
    Shaped(s.ring, Width(c)) && |s.ring| == c.buckets && |s.baseline| == |c.signals|
  }

  function NewScope(c: Config): (s: Scope)
    requires Valid(c)
    ensures Fits(c, s)
  {
    Scope(NewRing(c.buckets, Width(c)), seq(|c.signals|, i => Ewma(0.0, false)), Ewma(0.0, false))
  }

  function FoldEwma(e: Ewma, sample: real, alpha: real): Ewma {
    if !e.seeded then Ewma(sample, true) else Ewma(alpha * sample + (1.0 - alpha) * e.value, true)
  }

  function Rate(b: Bucket, i: nat): real
    requires i + 1 < |b.sums| && b.sums[0] > 0
  {
    b.sums[i + 1] as real / b.sums[0] as real
  }

  function FoldRates(c: Config, baseline: seq<Ewma>, b: Bucket): (r: seq<Ewma>)
    requires |baseline| == |c.signals| && |b.sums| == Width(c) && b.sums[0] > 0
    ensures |r| == |baseline|
    ensures forall i :: 0 <= i < |r| ==> r[i] == FoldEwma(baseline[i], Rate(b, i), c.alpha)
  {
    seq(|baseline|, i requires 0 <= i < |baseline| => FoldEwma(baseline[i], Rate(b, i), c.alpha))
  }

  /** The slot is recycled and held a completed bucket with traffic. */
  predicate Retires(c: Config, s: Scope, ep: int)
    requires Valid(c) && Fits(c, s)
  {
    var b := s.ring[Slot(ep, c.buckets)];
    b.epoch != ep && b.epoch != 0 && b.sums[0] > 0
  }

  function Record(c: Config, s: Scope, a: Arrival): (r: Scope)
    requires Valid(c) && Fits(c, s)
    ensures Fits(c, r)
  {
    var b := s.ring[Slot(a.epoch, c.buckets)];
    var ring := Observe(s.ring, ObsOf(c, a), Width(c));
    if Retires(c, s, a.epoch)
    then Scope(ring, FoldRates(c, s.baseline, b), FoldEwma(s.volume, b.sums[0] as real, c.alpha))
    else Scope(ring, s.baseline, s.volume)
  }

  // ---- Runs ----

  function History(c: Config, h: seq<Arrival>): (r: seq<Obs>)
    ensures |r| == |h| && HistoryOf(r, Width(c))
  {
    seq(|h|, k requires 0 <= k < |h| => ObsOf(c, h[k]))
  }

  function After(c: Config, h: seq<Arrival>): (s: Scope)
    requires Valid(c)
    ensures Fits(c, s)
  {
    if h == [] then NewScope(c) else Record(c, After(c, h[..|h| - 1]), h[|h| - 1])
  }

  /** The buckets folded into the baselines along a run, oldest first. */
  function Folded(c: Config, h: seq<Arrival>): (r: seq<Bucket>)
    requires Valid(c)
    ensures forall k :: 0 <= k < |r| ==> |r[k].sums| == Width(c) && r[k].sums[0] > 0 && r[k].epoch != 0
  {
    if h == [] then []
    else
      var s := After(c, h[..|h| - 1]);
      var ep := h[|h| - 1].epoch;
      Folded(c, h[..|h| - 1]) + (if Retires(c, s, ep) then [s.ring[Slot(ep, c.buckets)]] else [])
  }

  lemma {:induction false} HistoryFront(c: Config, h: seq<Arrival>)
    requires h != []
    ensures History(c, h)[..|h| - 1] == History(c, h[..|h| - 1])
    ensures History(c, h)[|h| - 1] == ObsOf(c, h[|h| - 1])
  {
  }

  lemma {:induction false} AfterRing(c: Config, h: seq<Arrival>)
    requires Valid(c)
    ensures After(c, h).ring == Run(c.buckets, Width(c), History(c, h))
  {
    if h == [] {
    } else {
      AfterRing(c, h[..|h| - 1]);
      HistoryFront(c, h);
    }
  }

  /** The moving average of a list of samples, oldest first. */
  function EwmaOf(samples: seq<real>, alpha: real): Ewma {
    if samples == [] then Ewma(0.0, false)
    else FoldEwma(EwmaOf(samples[..|samples| - 1], alpha), samples[|samples| - 1], alpha)
  }

  function Rates(bs: seq<Bucket>, i: nat): (r: seq<real>)
    requires forall k :: 0 <= k < |bs| ==> i + 1 < |bs[k].sums| && bs[k].sums[0] > 0
    ensures |r| == |bs| && forall k :: 0 <= k < |bs| ==> r[k] == Rate(bs[k], i)
  {
    seq(|bs|, k requires 0 <= k < |bs| => Rate(bs[k], i))
  }

  function Volumes(bs: seq<Bucket>): (r: seq<real>)
    requires forall k :: 0 <= k < |bs| ==> |bs[k].sums| > 0
    ensures |r| == |bs| && forall k :: 0 <= k < |bs| ==> r[k] == bs[k].sums[0] as real
  {
    seq(|bs|, k requires 0 <= k < |bs| => bs[k].sums[0] as real)
  }

  lemma {:induction false} EwmaSnoc(samples: seq<real>, x: real, alpha: real)
    ensures EwmaOf(samples + [x], alpha) == FoldEwma(EwmaOf(samples, alpha), x, alpha)
  {
    assert (samples + [x])[..|samples|] == samples;
  }

  lemma {:induction false} FoldedSnoc(c: Config, bs: seq<Bucket>, b: Bucket, s: Scope)
    requires Valid(c) && Fits(c, s) && |b.sums| == Width(c) && b.sums[0] > 0
    requires forall k :: 0 <= k < |bs| ==> |bs[k].sums| == Width(c) && bs[k].sums[0] > 0
    requires AreAverages(c, s, bs)
    ensures AreAverages(c, Scope(s.ring, FoldRates(c, s.baseline, b), FoldEwma(s.volume, b.sums[0] as real, c.alpha)),
      bs + [b])
  {
    hide FoldEwma;
    assert Volumes(bs + [b]) == Volumes(bs) + [b.sums[0] as real];
    EwmaSnoc(Volumes(bs), b.sums[0] as real, c.alpha);
    forall i | 0 <= i < |c.signals|
      ensures FoldRates(c, s.baseline, b)[i] == EwmaOf(Rates(bs + [b], i), c.alpha)
    {
      assert Rates(bs + [b], i) == Rates(bs, i) + [Rate(b, i)];
      EwmaSnoc(Rates(bs, i), Rate(b, i), c.alpha);
    }
  }

  predicate AreAverages(c: Config, s: Scope, bs: seq<Bucket>)
    requires Valid(c) && Fits(c, s)
    requires forall k :: 0 <= k < |bs| ==> |bs[k].sums| == Width(c) && bs[k].sums[0] > 0
  {
    && (forall i :: 0 <= i < |c.signals| ==> s.baseline[i] == EwmaOf(Rates(bs, i), c.alpha))
    && s.volume == EwmaOf(Volumes(bs), c.alpha)
  }

  /** Every baseline is the moving average of the buckets folded so far, in order. */
  lemma {:induction false} BaselinesOfFolded(c: Config, h: seq<Arrival>)
    requires Valid(c)
    ensures AreAverages(c, After(c, h), Folded(c, h))
  {
    if h == [] {
    } else {
      hide EwmaOf, FoldRates, FoldEwma, Observe;
      var front, ep := h[..|h| - 1], h[|h| - 1].epoch;
      BaselinesOfFolded(c, front);
      var s, bs := After(c, front), Folded(c, front);
      if Retires(c, s, ep) {
        FoldedSnoc(c, bs, s.ring[Slot(ep, c.buckets)], s);
      } else {
        assert Folded(c, h) == bs;
      }
    }
  }

  // ---- Conservation ----

  function FoldedTotal(bs: seq<Bucket>, j: nat): nat
    requires forall k :: 0 <= k < |bs| ==> j < |bs[k].sums|
  {
    if bs == [] then 0 else FoldedTotal(bs[..|bs| - 1], j) + bs[|bs| - 1].sums[j]
  }

  /** No arrival carries the epoch the ring uses for an empty slot. */
  predicate NonZeroEpochs(h: seq<Arrival>) {
    forall k :: 0 <= k < |h| ==> h[k].epoch != 0
  }

  predicate BucketOk(b: Bucket) {
    && |b.sums| > 0
    && (forall j :: 0 <= j < |b.sums| ==> b.sums[j] <= b.sums[0])
    && (b.epoch == 0 ==> b.sums[0] == 0)
  }

  lemma {:induction false} RecordOk(c: Config, s: Scope, a: Arrival)
    requires Valid(c) && Fits(c, s) && a.epoch != 0 && forall i :: 0 <= i < c.buckets ==> BucketOk(s.ring[i])
    ensures forall i :: 0 <= i < c.buckets ==> BucketOk(Record(c, s, a).ring[i])
  {
    assert BucketOk(s.ring[Slot(a.epoch, c.buckets)]);
  }

  lemma {:induction false} BucketsOk(c: Config, h: seq<Arrival>)
    requires Valid(c) && NonZeroEpochs(h)
    ensures forall i :: 0 <= i < c.buckets ==> BucketOk(After(c, h).ring[i])
    ensures forall k :: 0 <= k < |Folded(c, h)| ==> BucketOk(Folded(c, h)[k])
  {
    if h == [] {
    } else {
      hide BucketOk, Record, Retires;
      var front := h[..|h| - 1];
      BucketsOk(c, front);
      RecordOk(c, After(c, front), h[|h| - 1]);
    }
  }

  lemma {:induction false} ConservedStep(c: Config, s: Scope, a: Arrival, j: nat)
    requires Valid(c) && Fits(c, s) && j < Width(c) && forall i :: 0 <= i < c.buckets ==> BucketOk(s.ring[i])
    ensures Total(Record(c, s, a).ring, j, Width(c), c.buckets)
          + (if Retires(c, s, a.epoch) then s.ring[Slot(a.epoch, c.buckets)].sums[j] else 0)
         == Total(s.ring, j, Width(c), c.buckets) + Increments(c, a.bits)[j]
  {
    hide Total;
    var w, i := Width(c), Slot(a.epoch, c.buckets);
    var b, o := s.ring[i], ObsOf(c, a);
    assert BucketOk(b);
    TotalUpdate(s.ring, i, Bucket(o.epoch, Add(Held(b, o.epoch, w), o.incs)), j, w, c.buckets);
  }

  /** Nothing is lost between the ring and the baselines: the sums in the ring plus the
      sums of the folded buckets are the sums of everything observed, whatever the
      order of the epochs. */
  lemma {:induction false} Conserved(c: Config, h: seq<Arrival>, j: nat)
    requires Valid(c) && NonZeroEpochs(h) && j < Width(c)
    ensures Total(After(c, h).ring, j, Width(c), c.buckets) + FoldedTotal(Folded(c, h), j)
         == HistoryTotal(History(c, h), j, Width(c))
  {
    hide Total, Record, Retires, BucketOk;
    if h == [] {
      TotalNewRing(c.buckets, j, Width(c), c.buckets);
    } else {
      var front, a := h[..|h| - 1], h[|h| - 1];
      Conserved(c, front, j);
      HistoryFront(c, h);
      BucketsOk(c, front);
      ConservedStep(c, After(c, front), a, j);
      if Retires(c, After(c, front), a.epoch) {
        assert Folded(c, h)[..|Folded(c, h)| - 1] == Folded(c, front);
      } else {
        assert Folded(c, h) == Folded(c, front);
      }
    }
  }

  lemma {:induction false} ArrivalsCounted(c: Config, h: seq<Arrival>)
    requires Valid(c)
    ensures HistoryTotal(History(c, h), 0, Width(c)) == |h|
  {
    if h == [] {
    } else {
      ArrivalsCounted(c, h[..|h| - 1]);
      HistoryFront(c, h);
    }
  }

  /** Ring totals plus folded totals are the number of arrivals. */
  lemma {:induction false} ArrivalsConserved(c: Config, h: seq<Arrival>)
    requires Valid(c) && NonZeroEpochs(h)
    ensures Total(After(c, h).ring, 0, Width(c), c.buckets) + FoldedTotal(Folded(c, h), 0) == |h|
  {
    Conserved(c, h, 0);
    ArrivalsCounted(c, h);
  }

  // ---- Bounds on the moving average ----

  lemma {:induction false} Between(alpha: real, x: real, y: real, bound: real)
    requires 0.0 < alpha <= 1.0
    ensures x >= bound && y >= bound ==> alpha * x + (1.0 - alpha) * y >= bound
    ensures x <= bound && y <= bound ==> alpha * x + (1.0 - alpha) * y <= bound
  {
    var u, v := x - bound, y - bound;
    assert alpha * x + (1.0 - alpha) * y - bound == alpha * u + (1.0 - alpha) * v;
    if u >= 0.0 && v >= 0.0 {
      MulNonNegative(alpha, u);
      MulNonNegative(1.0 - alpha, v);
    }
    if u <= 0.0 && v <= 0.0 {
      MulNonNegative(alpha, -u);
      MulNonNegative(1.0 - alpha, -v);
      assert alpha * -u == -(alpha * u) && (1.0 - alpha) * -v == -((1.0 - alpha) * v);
    }
  }

  lemma {:induction false} MulNonNegative(x: real, y: real)
    requires x >= 0.0 && y >= 0.0
    ensures x * y >= 0.0
  {
  }

  lemma {:induction false} EwmaAtLeast(samples: seq<real>, alpha: real, lo: real)
    requires 0.0 < alpha <= 1.0 && forall k :: 0 <= k < |samples| ==> samples[k] >= lo
    ensures EwmaOf(samples, alpha).seeded <==> samples != []
    ensures EwmaOf(samples, alpha).seeded ==> EwmaOf(samples, alpha).value >= lo
  {
    if samples == [] {
    } else {
      var front, last := samples[..|samples| - 1], samples[|samples| - 1];
      EwmaAtLeast(front, alpha, lo);
      Between(alpha, last, EwmaOf(front, alpha).value, lo);
    }
  }

  lemma {:induction false} EwmaAtMost(samples: seq<real>, alpha: real, hi: real)
    requires 0.0 < alpha <= 1.0 && forall k :: 0 <= k < |samples| ==> samples[k] <= hi
    ensures EwmaOf(samples, alpha).seeded ==> EwmaOf(samples, alpha).value <= hi
  {
    if samples == [] {
    } else {
      var front, last := samples[..|samples| - 1], samples[|samples| - 1];
      EwmaAtMost(front, alpha, hi);
      Between(alpha, last, EwmaOf(front, alpha).value, hi);
    }
  }

  lemma {:induction false} RateRange(b: Bucket, i: nat)
    requires BucketOk(b) && i + 1 < |b.sums| && b.sums[0] > 0
    ensures 0.0 <= Rate(b, i) <= 1.0
  {
    var n, d := b.sums[i + 1] as real, b.sums[0] as real;
    assert n <= d;
    DivLess(n, d);
  }

  lemma {:induction false} DivLess(n: real, d: real)
    requires 0.0 <= n <= d && d > 0.0
    ensures 0.0 <= n / d <= 1.0
  {
  }

  /** A seeded signal baseline is a rate, and a seeded volume baseline is at least one arrival. */
  lemma {:induction false} BaselineRanges(c: Config, h: seq<Arrival>)
    requires Valid(c) && NonZeroEpochs(h)
    ensures forall i :: 0 <= i < |c.signals| && After(c, h).baseline[i].seeded ==>
      0.0 <= After(c, h).baseline[i].value <= 1.0
    ensures After(c, h).volume.seeded ==> After(c, h).volume.value >= 1.0
  {
    var bs := Folded(c, h);
    BaselinesOfFolded(c, h);
    BucketsOk(c, h);
    EwmaAtLeast(Volumes(bs), c.alpha, 1.0);
    forall i | 0 <= i < |c.signals| && After(c, h).baseline[i].seeded
      ensures 0.0 <= After(c, h).baseline[i].value <= 1.0
    {
      forall k | 0 <= k < |bs| ensures 0.0 <= Rates(bs, i)[k] <= 1.0 {
        RateRange(bs[k], i);
      }
      EwmaAtLeast(Rates(bs, i), c.alpha, 0.0);
      EwmaAtMost(Rates(bs, i), c.alpha, 1.0);
    }
  }
}
