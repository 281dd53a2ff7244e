/** The surge and velocity tests over a cohort's window: what is reported, when a
    quiet cohort is never reported, and when a surging one always is. */
module FleetAssess {
  import opened WindowRing
  import opened Fleet

  datatype SignalAssessment = SignalAssessment(name: string, currentRate: real, baseline: real, surgeRatio: real)

  datatype Assessment = Assessment(
    anomalous: bool, signals: seq<SignalAssessment>, velocitySurge: bool, velocityRatio: real, observed: nat)

  /** The window sum of the total (j = 0) or of signal j - 1. */
  function Window(c: Config, s: Scope, ep: int, j: nat): nat
    requires Valid(c) && Fits(c, s) && j < Width(c)
  {
    WindowSum(s.ring, ep, j, Width(c), c.buckets)
  }

  function CurrentRate(c: Config, s: Scope, ep: int, i: nat): real
    requires Valid(c) && Fits(c, s) && i < |c.signals| && Window(c, s, ep, 0) > 0
  {
    Window(c, s, ep, i + 1) as real / Window(c, s, ep, 0) as real
  }

  predicate SignalTrips(c: Config, s: Scope, ep: int, i: nat)
    requires Valid(c) && Fits(c, s) && i < |c.signals|
  {
    && Window(c, s, ep, 0) >= c.minSamples
    && (var cur := CurrentRate(c, s, ep, i);
        var bl := s.baseline[i];
        if !bl.seeded then cur >= c.coldStartFloor
        else cur >= c.absoluteFloor && cur >= bl.value * c.surgeFactor)
  }

  function Detail(c: Config, s: Scope, ep: int, i: nat): SignalAssessment
    requires Valid(c) && Fits(c, s) && i < |c.signals| && Window(c, s, ep, 0) > 0
  {
    var cur, bl := CurrentRate(c, s, ep, i), s.baseline[i];
    SignalAssessment(c.signals[i].name, cur, bl.value, if bl.seeded && bl.value > 0.0 then cur / bl.value else 0.0)
  }

  /** The details of the signals below `k` that trip, in order. */
  function Tripped(c: Config, s: Scope, ep: int, k: nat): seq<SignalAssessment>
    requires Valid(c) && Fits(c, s) && k <= |c.signals|
  {
    if k == 0 then []
    else Tripped(c, s, ep, k - 1) + (if SignalTrips(c, s, ep, k - 1) then [Detail(c, s, ep, k - 1)] else [])
  }

  function Projected(c: Config, s: Scope): real {
    s.volume.value * c.buckets as real
  }

  predicate VelocityTrips(c: Config, s: Scope, ep: int)
    requires Valid(c) && Fits(c, s)
  {
    var total := Window(c, s, ep, 0);
    if s.volume.seeded
    then total >= c.velocityMinVolume && total as real >= Projected(c, s) * c.velocityFactor
    else total >= c.velocityColdVolume
  }

  function Assess(c: Config, s: Scope, ep: int): Assessment
    requires Valid(c) && Fits(c, s)
  {
    var total := Window(c, s, ep, 0);
    var signals := Tripped(c, s, ep, |c.signals|);
    var surge := VelocityTrips(c, s, ep);
    Assessment(signals != [] || surge, signals, surge,
               if s.volume.seeded && Projected(c, s) > 0.0 then total as real / Projected(c, s) else 0.0, total)
  }

  lemma {:induction false} TrippedExists(c: Config, s: Scope, ep: int, k: nat)
    requires Valid(c) && Fits(c, s) && k <= |c.signals|
    ensures Tripped(c, s, ep, k) != [] <==> exists i :: 0 <= i < k && SignalTrips(c, s, ep, i)
  {
    hide SignalTrips;
    if k == 0 {
    } else {
      TrippedExists(c, s, ep, k - 1);
      if Tripped(c, s, ep, k - 1) != [] {
        var i :| 0 <= i < k - 1 && SignalTrips(c, s, ep, i);
        assert 0 <= i < k;
      } else if SignalTrips(c, s, ep, k - 1) {
        assert 0 <= k - 1 < k;
      }
    }
  }

  // ---- Quiet cohorts ----

  function Scaled(x: real, k: nat): real {
    x * k as real
  }

  lemma {:induction false} ScaledAdds(x: real, t: nat, u: nat)
    ensures Scaled(x, t + u) == Scaled(x, t) + Scaled(x, u) && Scaled(x, 0) == 0.0
  {
    assert (t + u) as real == t as real + u as real;
  }

  /** A bucket's rate of signal `i` is at most `hi`; an empty bucket's always is. */
  predicate RateAtMost(b: Bucket, i: nat, hi: real)
    requires i + 1 < |b.sums|
  {
    b.sums[i + 1] as real <= Scaled(hi, b.sums[0])
  }

  lemma {:induction false} WindowRateAtMost(ring: seq<Bucket>, q: int, i: nat, w: nat, k: nat, hi: real)
    requires Shaped(ring, w) && i + 1 < w && k <= |ring|
    requires forall n :: 0 <= n < |ring| ==> RateAtMost(ring[n], i, hi)
    ensures WindowSum(ring, q, i + 1, w, k) as real <= Scaled(hi, WindowSum(ring, q, 0, w, k))
  {
    hide Scaled;
    ScaledAdds(hi, 0, 0);
    if k == 0 {
    } else {
      WindowRateAtMost(ring, q, i, w, k - 1, hi);
      assert RateAtMost(ring[k - 1], i, hi);
      ScaledAdds(hi, WindowSum(ring, q, 0, w, k - 1), ring[k - 1].sums[0]);
    }
  }

  lemma {:induction false} WindowTotalAtMost(ring: seq<Bucket>, q: int, w: nat, k: nat, hi: real)
    requires Shaped(ring, w) && w > 0 && k <= |ring| && hi >= 0.0
    requires forall n :: 0 <= n < |ring| ==> ring[n].sums[0] as real <= hi
    ensures WindowSum(ring, q, 0, w, k) as real <= Scaled(hi, k)
  {
    hide Scaled;
    MulSucc(hi, k);
    if k == 0 {
    } else {
      WindowTotalAtMost(ring, q, w, k - 1, hi);
      assert ring[k - 1].sums[0] as real <= hi;
      var before := WindowSum(ring, q, 0, w, k - 1);
      assert WindowSum(ring, q, 0, w, k) <= before + ring[k - 1].sums[0];
      hide WindowSum;
    }
  }

  lemma {:induction false} MulSucc(x: real, k: nat)
    ensures Scaled(x, k) == if k == 0 then 0.0 else Scaled(x, k - 1) + x
  {
    if k > 0 {
      assert k as real == (k - 1) as real + 1.0;
    }
  }

  lemma {:induction false} DivAtMost(n: real, d: real, hi: real)
    requires d > 0.0 && n <= hi * d
    ensures n / d <= hi
  {
    assert n / d * d == n;
    if n / d > hi {
      MulLess(hi, n / d, d);
    }
  }

  lemma {:induction false} MulLess(x: real, y: real, d: real)
    requires x < y && d > 0.0
    ensures x * d < y * d
  {
    assert (y - x) * d == y * d - x * d;
  }

  /** A seeded signal whose folded rates are all at least `lo` and whose ring rates are
      all at most `hi` is not reported while `hi` is below the surge multiple of `lo`. */
  lemma {:induction false} QuietSignal(c: Config, h: seq<Arrival>, ep: int, i: nat, lo: real, hi: real)
    requires Valid(c) && i < |c.signals| && After(c, h).baseline[i].seeded
    requires forall k :: 0 <= k < |Folded(c, h)| ==> Rate(Folded(c, h)[k], i) >= lo
    requires forall n :: 0 <= n < c.buckets ==> RateAtMost(After(c, h).ring[n], i, hi)
    requires hi < c.surgeFactor * lo
    ensures !SignalTrips(c, After(c, h), ep, i)
  {
    hide After, Folded, WindowSum, Rate, EwmaOf;
    var s := After(c, h);
    BaselinesOfFolded(c, h);
    EwmaAtLeast(Rates(Folded(c, h), i), c.alpha, lo);
    QuietWindow(c, s, ep, i, lo, hi);
  }

  lemma {:induction false} QuietWindow(c: Config, s: Scope, ep: int, i: nat, lo: real, hi: real)
    requires Valid(c) && Fits(c, s) && i < |c.signals| && s.baseline[i].seeded && s.baseline[i].value >= lo
    requires forall n :: 0 <= n < c.buckets ==> RateAtMost(s.ring[n], i, hi)
    requires hi < c.surgeFactor * lo
    ensures !SignalTrips(c, s, ep, i)
  {
    hide WindowSum, RateAtMost;
    var total := Window(c, s, ep, 0);
    if total >= c.minSamples {
      WindowRateAtMost(s.ring, ep, i, Width(c), c.buckets, hi);
      QuietRate(Window(c, s, ep, i + 1) as real, total as real, s.baseline[i].value, c.surgeFactor, lo, hi);
    }
  }

  lemma {:induction false} QuietRate(hits: real, total: real, value: real, surge: real, lo: real, hi: real)
    requires total > 0.0 && hits <= hi * total && value >= lo && surge > 0.0 && hi < surge * lo
    ensures hits / total < value * surge
  {
    DivAtMost(hits, total, hi);
    SurgeScales(surge, lo, value);
  }

  lemma {:induction false} SurgeScales(f: real, x: real, y: real)
    requires f > 0.0 && x <= y
    ensures f * x <= f * y
  {
    assert f * y - f * x == f * (y - x);
    MulNonNegative(f, y - x);
  }

  /** The same for volume: steady bucket volumes never raise a velocity anomaly. */
  lemma {:induction false} QuietVolume(c: Config, h: seq<Arrival>, ep: int, lo: real, hi: real)
    requires Valid(c) && After(c, h).volume.seeded && hi >= 0.0
    requires forall k :: 0 <= k < |Folded(c, h)| ==> Folded(c, h)[k].sums[0] as real >= lo
    requires forall n :: 0 <= n < c.buckets ==> After(c, h).ring[n].sums[0] as real <= hi
    requires hi < c.velocityFactor * lo
    ensures !VelocityTrips(c, After(c, h), ep)
  {
    hide After, Folded, WindowSum, EwmaOf;
    var s := After(c, h);
    BaselinesOfFolded(c, h);
    EwmaAtLeast(Volumes(Folded(c, h)), c.alpha, lo);
    WindowTotalAtMost(s.ring, ep, Width(c), c.buckets, hi);
    QuietTotal(Window(c, s, ep, 0) as real, c.buckets as real, s.volume.value, c.velocityFactor, lo, hi);
  }

  lemma {:induction false} QuietTotal(total: real, n: real, value: real, factor: real, lo: real, hi: real)
    requires n > 0.0 && factor > 0.0 && total <= hi * n && value >= lo && hi < factor * lo
    ensures total < value * n * factor
  {
    MulLess(hi, factor * lo, n);
    SurgeScales(factor, lo, value);
    SurgeScales(n, factor * lo, factor * value);
    assert n * (factor * value) == value * n * factor;
  }

  /** A cohort that is quiet in every signal and in volume is reported clean. */
  lemma {:induction false} QuietFleet(
    c: Config, h: seq<Arrival>, ep: int, lo: seq<real>, hi: seq<real>, loVol: real, hiVol: real)
    requires Valid(c) && |lo| == |hi| == |c.signals| && hiVol >= 0.0
    requires After(c, h).volume.seeded && forall i :: 0 <= i < |c.signals| ==> After(c, h).baseline[i].seeded
    requires forall i, k :: 0 <= i < |lo| && 0 <= k < |Folded(c, h)| ==> Rate(Folded(c, h)[k], i) >= lo[i]
    requires forall i, n :: 0 <= i < |hi| && 0 <= n < c.buckets ==> RateAtMost(After(c, h).ring[n], i, hi[i])
    requires forall i :: 0 <= i < |lo| ==> hi[i] < c.surgeFactor * lo[i]
    requires forall k :: 0 <= k < |Folded(c, h)| ==> Folded(c, h)[k].sums[0] as real >= loVol
    requires forall n :: 0 <= n < c.buckets ==> After(c, h).ring[n].sums[0] as real <= hiVol
    requires hiVol < c.velocityFactor * loVol
    ensures !Assess(c, After(c, h), ep).anomalous
  {
    hide After, Folded, SignalTrips, VelocityTrips, RateAtMost;
    QuietVolume(c, h, ep, loVol, hiVol);
    forall i | 0 <= i < |c.signals| ensures !SignalTrips(c, After(c, h), ep, i) {
      QuietSignal(c, h, ep, i, lo[i], hi[i]);
    }
    TrippedExists(c, After(c, h), ep, |c.signals|);
  }

  // ---- Surging cohorts ----

  lemma {:induction false} WindowOfHistory(c: Config, h: seq<Arrival>, ep: int, j: nat)
    requires Valid(c) && Timely(History(c, h), c.buckets) && UpTo(History(c, h), ep) && j < Width(c)
    ensures Window(c, After(c, h), ep, j) == CountIn(History(c, h), ep, c.buckets, j, Width(c))
  {
    AfterRing(c, h);
    RingRefinesHistory(c.buckets, Width(c), History(c, h), ep, j);
  }

  lemma {:induction false} DivAtLeast(n: real, d: real, lo: real)
    requires d > 0.0 && n >= lo * d
    ensures n / d >= lo
  {
    assert n / d * d == n;
    if n / d < lo {
      MulLess(n / d, lo, d);
    }
  }

  /** A signal whose folded rates never exceeded `b` is reported as soon as its rate over
      the last window of the full history reaches the surge multiple of `b` and the floor. */
  lemma {:induction false} SurgeReported(c: Config, h: seq<Arrival>, ep: int, i: nat, b: real)
    requires Valid(c) && i < |c.signals| && Timely(History(c, h), c.buckets) && UpTo(History(c, h), ep)
    requires After(c, h).baseline[i].seeded
    requires forall k :: 0 <= k < |Folded(c, h)| ==> Rate(Folded(c, h)[k], i) <= b
    requires var total := CountIn(History(c, h), ep, c.buckets, 0, Width(c)) as real;
      var hits := CountIn(History(c, h), ep, c.buckets, i + 1, Width(c)) as real;
      && total >= c.minSamples as real
      && hits >= c.absoluteFloor * total && hits >= c.surgeFactor * b * total
    ensures SignalTrips(c, After(c, h), ep, i) && Assess(c, After(c, h), ep).anomalous
  {
    hide After, Folded, WindowSum, CountIn, Timely, UpTo, Rate, EwmaOf, VelocityTrips;
    var s := After(c, h);
    WindowOfHistory(c, h, ep, 0);
    WindowOfHistory(c, h, ep, i + 1);
    BaselinesOfFolded(c, h);
    EwmaAtMost(Rates(Folded(c, h), i), c.alpha, b);
    SurgeRate(Window(c, s, ep, i + 1) as real, Window(c, s, ep, 0) as real, s.baseline[i].value,
              c.surgeFactor, c.absoluteFloor, b);
    TrippedExists(c, s, ep, |c.signals|);
  }

  lemma {:induction false} SurgeRate(hits: real, total: real, value: real, surge: real, floor: real, b: real)
    requires total > 0.0 && hits >= floor * total && hits >= surge * b * total && value <= b && surge > 0.0
    ensures hits / total >= floor && hits / total >= value * surge
  {
    SurgeScales(surge, value, b);
    DivAtLeast(hits, total, floor);
    DivAtLeast(hits, total, surge * b);
  }

  /** Every signal that trips is named in the assessment, with its rate and baseline. */
  lemma {:induction false} TrippedDetail(c: Config, s: Scope, ep: int, i: nat, k: nat)
    requires Valid(c) && Fits(c, s) && i < k <= |c.signals| && SignalTrips(c, s, ep, i)
    ensures Detail(c, s, ep, i) in Tripped(c, s, ep, k)
  {
    if i < k - 1 {
      TrippedDetail(c, s, ep, i, k - 1);
    }
  }

  // ---- A stream that always looks the same ----

  ghost predicate AllCarry(h: seq<Arrival>, bits: Bits) {
    forall k :: 0 <= k < |h| ==> h[k].bits == bits
  }

  /** Every arrival of the bucket shows the signal, or none does. */
  predicate Uniform(b: Bucket, i: nat, shows: bool) {
    i + 1 < |b.sums| && b.sums[i + 1] == if shows then b.sums[0] else 0
  }

  lemma {:induction false} UniformBuckets(c: Config, h: seq<Arrival>, bits: Bits, i: nat)
    requires Valid(c) && i < |c.signals| && AllCarry(h, bits)
    ensures var shows := Matches(bits, c.signals[i].mask);
      && (forall n :: 0 <= n < c.buckets ==> Uniform(After(c, h).ring[n], i, shows))
      && (forall k :: 0 <= k < |Folded(c, h)| ==> Uniform(Folded(c, h)[k], i, shows))
    decreases |h|
  {
    if h != [] {
      hide Folded, FoldRates, FoldEwma;
      var front, a := h[..|h| - 1], h[|h| - 1];
      UniformBuckets(c, front, bits, i);
      var s := After(c, front);
      UniformRecord(c, s, a, i);
      assert After(c, h).ring == Record(c, s, a).ring;
      hide After;
      UniformFolded(c, h, s, Folded(c, front), i, Matches(bits, c.signals[i].mask));
    } else {
      assert Folded(c, h) == [];
    }
  }

  lemma {:induction false} UniformRecord(c: Config, s: Scope, a: Arrival, i: nat)
    requires Valid(c) && Fits(c, s) && i < |c.signals|
    requires forall n :: 0 <= n < c.buckets ==> Uniform(s.ring[n], i, Matches(a.bits, c.signals[i].mask))
    ensures forall n :: 0 <= n < c.buckets ==> Uniform(Record(c, s, a).ring[n], i, Matches(a.bits, c.signals[i].mask))
  {
    hide FoldRates, FoldEwma, Retires;
  }

  lemma {:induction false} UniformFolded(c: Config, h: seq<Arrival>, s: Scope, bs: seq<Bucket>, i: nat, shows: bool)
    requires Valid(c) && h != [] && s == After(c, h[..|h| - 1]) && bs == Folded(c, h[..|h| - 1])
    requires forall n :: 0 <= n < c.buckets ==> Uniform(s.ring[n], i, shows)
    requires forall k :: 0 <= k < |bs| ==> Uniform(bs[k], i, shows)
    ensures forall k :: 0 <= k < |Folded(c, h)| ==> Uniform(Folded(c, h)[k], i, shows)
  {
    hide After, Uniform;
  }

  /** A cohort whose arrivals all carry the same bits never trips a seeded signal,
      however its traffic is spread over time. */
  lemma {:induction false} SteadyBits(c: Config, h: seq<Arrival>, bits: Bits, ep: int, i: nat)
    requires Valid(c) && i < |c.signals| && AllCarry(h, bits) && After(c, h).baseline[i].seeded
    ensures !SignalTrips(c, After(c, h), ep, i)
  {
    hide After, Folded, WindowSum, Rate, SignalTrips;
    UniformBuckets(c, h, bits, i);
    if Matches(bits, c.signals[i].mask) {
      forall k | 0 <= k < |Folded(c, h)| ensures Rate(Folded(c, h)[k], i) >= 1.0 {
        UniformRate(Folded(c, h)[k], i);
      }
      QuietSignal(c, h, ep, i, 1.0, 1.0);
    } else {
      SilentSignal(c, After(c, h), ep, i);
    }
  }

  lemma {:induction false} UniformRate(b: Bucket, i: nat)
    requires Uniform(b, i, true) && b.sums[0] > 0
    ensures Rate(b, i) == 1.0
  {
  }

  /** A signal no bucket shows does not trip once seeded. */
  lemma {:induction false} SilentSignal(c: Config, s: Scope, ep: int, i: nat)
    requires Valid(c) && Fits(c, s) && i < |c.signals| && s.baseline[i].seeded
    requires forall n :: 0 <= n < c.buckets ==> Uniform(s.ring[n], i, false)
    ensures !SignalTrips(c, s, ep, i)
  {
    hide WindowSum;
    WindowRateAtMost(s.ring, ep, i, Width(c), c.buckets, 0.0);
    assert Window(c, s, ep, i + 1) == 0;
  }
}
