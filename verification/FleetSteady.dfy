/** A fleet that always looks the same: the quiet-fleet bounds of `FleetAssess` met by a
    stream of arrivals rather than stated of buckets. */
module FleetSteady {
  import opened WindowRing
  import opened Fleet
  import opened FleetAssess

  /** The round of the `k`-th arrival when every round has `v`. */
  function Round(k: int, v: int): int
    requires v > 0
  {
    k / v
  }

  /** How many arrivals of its round the `k`-th arrival completes. */
  function Place(k: int, v: int): int
    requires v > 0
  {
    k % v + 1
  }

  /** `v` identical arrivals in every epoch from `start` on; the last epoch may still be
      under way. */
  ghost predicate Steady(h: seq<Arrival>, bits: Bits, start: int, v: int) {
    v > 0 && start > 0 && forall k :: 0 <= k < |h| ==> h[k] == Arrival(start + Round(k, v), bits)
  }

  lemma {:induction false} DivUnique(a: int, v: int, q: int, r: int)
    requires v > 0 && 0 <= r < v && a == q * v + r
    ensures a / v == q && a % v == r
  {
    ModUnique(a, v, q, r);
    assert a == (a / v) * v + a % v;
    assert (a / v - q) * v == 0;
    SmallMultiple(a / v - q, v);
  }

  lemma {:induction false} RoundStep(m: int, v: int)
    requires m > 0 && v > 0
    ensures 1 <= Place(m, v) <= v
    ensures Place(m, v) == 1 ==> Round(m, v) == Round(m - 1, v) + 1 && Place(m - 1, v) == v
    ensures Place(m, v) != 1 ==> Round(m, v) == Round(m - 1, v) && Place(m - 1, v) == Place(m, v) - 1
  {
    var q, r := m / v, m % v;
    assert m == q * v + r;
    if r == 0 {
      assert (q - 1) * v == q * v - v;
      DivUnique(m - 1, v, q - 1, v - 1);
    } else {
      DivUnique(m - 1, v, q, r - 1);
    }
  }

  lemma {:induction false} FirstRound(v: int)
    requires v > 0
    ensures Round(0, v) == 0 && Place(0, v) == 1
  {
    DivUnique(0, v, 0, 0);
  }

  /** What a slot holds while epoch `cur` has had `count` arrivals: nothing yet, a full
      epoch, or the current one so far. */
  ghost predicate Level(b: Bucket, n: int, size: nat, cur: int, count: int, v: int)
    requires size > 0
  {
    && |b.sums| > 0
    && (b.sums[0] == 0 ==> b.epoch == 0)
    && (b.sums[0] > 0 ==> b.epoch <= cur && Slot(b.epoch, size) == n && b.sums[0] == if b.epoch == cur then count
           else v)
  }

  ghost predicate Levels(c: Config, s: Scope, cur: int, count: int, v: int)
    requires Valid(c) && Fits(c, s)
  {
    && (forall n :: 0 <= n < c.buckets ==> Level(s.ring[n], n, c.buckets, cur, count, v))
    && s.ring[Slot(cur, c.buckets)].epoch == cur && s.ring[Slot(cur, c.buckets)].sums[0] == count
  }

  /** One more arrival of the current epoch. */
  lemma {:induction false} LevelsStay(c: Config, s: Scope, a: Arrival, count: int, v: int)
    requires Valid(c) && Fits(c, s) && Levels(c, s, a.epoch, count, v) && count > 0
    ensures Levels(c, Record(c, s, a), a.epoch, count + 1, v) && !Retires(c, s, a.epoch)
  {
    hide FoldRates, FoldEwma;
    var t := Record(c, s, a);
    forall n | 0 <= n < c.buckets ensures Level(t.ring[n], n, c.buckets, a.epoch, count + 1, v) {
      assert Level(s.ring[n], n, c.buckets, a.epoch, count, v);
    }
  }

  /** The first arrival of the next epoch: the slot it takes held a full epoch or nothing. */
  lemma {:induction false} LevelsAdvance(c: Config, s: Scope, a: Arrival, v: int)
    requires Valid(c) && Fits(c, s) && Levels(c, s, a.epoch - 1, v, v) && v > 0 && a.epoch > 0
    ensures Levels(c, Record(c, s, a), a.epoch, 1, v)
    ensures Retires(c, s, a.epoch) ==> s.ring[Slot(a.epoch, c.buckets)].sums[0] == v
  {
    hide FoldRates, FoldEwma;
    var t := Record(c, s, a);
    var i := Slot(a.epoch, c.buckets);
    assert Level(s.ring[i], i, c.buckets, a.epoch - 1, v, v);
    forall n | 0 <= n < c.buckets ensures Level(t.ring[n], n, c.buckets, a.epoch, 1, v) {
      assert Level(s.ring[n], n, c.buckets, a.epoch - 1, v, v);
    }
  }

  lemma {:induction false} FirstLevels(c: Config, a: Arrival, v: int)
    requires Valid(c) && a.epoch > 0 && v > 0
    ensures Levels(c, Record(c, NewScope(c), a), a.epoch, 1, v) && !Retires(c, NewScope(c), a.epoch)
  {
    hide FoldRates, FoldEwma;
    var t := Record(c, NewScope(c), a);
    forall n | 0 <= n < c.buckets ensures Level(t.ring[n], n, c.buckets, a.epoch, 1, v) {
    }
  }

  ghost predicate AllFull(bs: seq<Bucket>, v: int) {
    forall k :: 0 <= k < |bs| ==> |bs[k].sums| > 0 && bs[k].sums[0] == v
  }

  lemma {:induction false} FoldedFull(c: Config, h: seq<Arrival>, s: Scope, v: int)
    requires Valid(c) && h != [] && s == After(c, h[..|h| - 1]) && AllFull(Folded(c, h[..|h| - 1]), v)
    requires Retires(c, s, h[|h| - 1].epoch) ==> s.ring[Slot(h[|h| - 1].epoch, c.buckets)].sums[0] == v
    ensures AllFull(Folded(c, h), v)
  {
    hide After, Retires;
  }

  lemma {:induction false} NextLevels(c: Config, s: Scope, a: Arrival, start: int, m: int, v: int)
    requires Valid(c) && Fits(c, s) && m > 0 && v > 0 && start > 0 && a.epoch == start + Round(m, v) && a.epoch > 0
    requires Levels(c, s, start + Round(m - 1, v), Place(m - 1, v), v)
    ensures Levels(c, Record(c, s, a), start + Round(m, v), Place(m, v), v)
    ensures Retires(c, s, a.epoch) ==> s.ring[Slot(a.epoch, c.buckets)].sums[0] == v
  {
    hide Levels, Record, Retires, Round, Place;
    RoundStep(m, v);
    PlacePositive(m - 1, v);
    if Place(m, v) == 1 {
      LevelsAdvance(c, s, a, v);
    } else {
      LevelsStay(c, s, a, Place(m - 1, v), v);
    }
  }

  lemma {:induction false} RoundNotNegative(k: int, v: int)
    requires k >= 0 && v > 0
    ensures Round(k, v) >= 0
  {
  }

  lemma {:induction false} AfterStep(c: Config, h: seq<Arrival>)
    requires Valid(c) && h != []
    ensures After(c, h) == Record(c, After(c, h[..|h| - 1]), h[|h| - 1])
  {
    hide Record;
  }

  /** Along a steady stream every bucket that leaves the ring is a full epoch, and no
      bucket of the ring holds more than one. */
  lemma {:induction false} SteadyLevels(c: Config, h: seq<Arrival>, bits: Bits, start: int, v: int)
    requires Valid(c) && Steady(h, bits, start, v) && h != []
    ensures Levels(c, After(c, h), start + Round(|h| - 1, v), Place(|h| - 1, v), v) && AllFull(Folded(c, h), v)
    decreases |h|
  {
    hide Levels, Record, Retires, Round, Place, After, AllFull, Folded, Valid, Fits, Slot;
    var m := |h| - 1;
    var front, a := h[..m], h[m];
    var s := After(c, front);
    AfterStep(c, h);
    RoundNotNegative(m, v);
    if m == 0 {
      FirstRound(v);
      NothingYet(c, front);
      FirstLevels(c, a, v);
    } else {
      SteadyLevels(c, front, bits, start, v);
      NextLevels(c, s, a, start, m, v);
    }
    FoldedFull(c, h, s, v);
  }

  lemma {:induction false} PlacePositive(m: int, v: int)
    requires v > 0
    ensures 1 <= Place(m, v) <= v
  {
  }

  lemma {:induction false} NothingYet(c: Config, h: seq<Arrival>)
    requires Valid(c) && h == []
    ensures After(c, h) == NewScope(c) && AllFull(Folded(c, h), 1) && Folded(c, h) == []
    ensures forall v :: AllFull(Folded(c, h), v)
  {
  }

  lemma {:induction false} LevelAtMost(c: Config, s: Scope, cur: int, count: int, v: int)
    requires Valid(c) && Fits(c, s) && Levels(c, s, cur, count, v) && 0 <= count <= v
    ensures forall n :: 0 <= n < c.buckets ==> s.ring[n].sums[0] <= v
  {
    forall n | 0 <= n < c.buckets ensures s.ring[n].sums[0] <= v {
      assert Level(s.ring[n], n, c.buckets, cur, count, v);
    }
  }

  lemma {:induction false} SteadyCarries(h: seq<Arrival>, bits: Bits, start: int, v: int)
    requires Steady(h, bits, start, v)
    ensures AllCarry(h, bits)
  {
    hide Round;
  }

  lemma {:induction false} SteadyVolume(c: Config, h: seq<Arrival>, bits: Bits, start: int, v: int, ep: int)
    requires Valid(c) && Steady(h, bits, start, v) && h != [] && After(c, h).volume.seeded
    ensures !VelocityTrips(c, After(c, h), ep)
  {
    assert v > 0;
    hide After, Folded, VelocityTrips, Round, Place, Levels, Steady, AllFull, Slot, Fits;
    SteadyLevels(c, h, bits, start, v);
    PlacePositive(|h| - 1, v);
    LevelAtMost(c, After(c, h), start + Round(|h| - 1, v), Place(|h| - 1, v), v);
    VolumeWithin(c, h, v, ep);
  }

  lemma {:induction false} VolumeWithin(c: Config, h: seq<Arrival>, v: int, ep: int)
    requires Valid(c) && v > 0 && After(c, h).volume.seeded && AllFull(Folded(c, h), v)
    requires forall n :: 0 <= n < c.buckets ==> After(c, h).ring[n].sums[0] <= v
    ensures !VelocityTrips(c, After(c, h), ep)
  {
    hide After, Folded, VelocityTrips, Slot;
    var x := v as real;
    FactorGrows(c.velocityFactor, x);
    QuietVolume(c, h, ep, x, x);
  }

  lemma {:induction false} FactorGrows(f: real, x: real)
    requires f > 1.0 && x > 0.0
    ensures x < f * x
  {
    MulLess(1.0, f, x);
  }

  lemma {:induction false} SeededNotEmpty(c: Config, h: seq<Arrival>)
    requires Valid(c) && After(c, h).volume.seeded
    ensures h != []
  {
  }

  lemma {:induction false} NothingTrips(c: Config, s: Scope, ep: int)
    requires Valid(c) && Fits(c, s) && !VelocityTrips(c, s, ep)
    requires forall i :: 0 <= i < |c.signals| ==> !SignalTrips(c, s, ep, i)
    ensures !Assess(c, s, ep).anomalous
  {
    hide SignalTrips, VelocityTrips, WindowSum;
    TrippedExists(c, s, ep, |c.signals|);
  }

  /** The same number of identical arrivals in every epoch is never an anomaly once the
      baselines are seeded: no signal trips and neither does the volume, at any epoch. */
  lemma {:induction false} SteadyStream(c: Config, h: seq<Arrival>, bits: Bits, start: int, v: int, ep: int)
    requires Valid(c) && Steady(h, bits, start, v) && After(c, h).volume.seeded
    requires forall i :: 0 <= i < |c.signals| ==> After(c, h).baseline[i].seeded
    ensures !Assess(c, After(c, h), ep).anomalous
  {
    hide After, SignalTrips, VelocityTrips, Steady, Assess, AllCarry;
    SeededNotEmpty(c, h);
    SteadyVolume(c, h, bits, start, v, ep);
    SteadyCarries(h, bits, start, v);
    forall i | 0 <= i < |c.signals| ensures !SignalTrips(c, After(c, h), ep, i) {
      SteadyBits(c, h, bits, ep, i);
    }
    NothingTrips(c, After(c, h), ep);
  }
}
