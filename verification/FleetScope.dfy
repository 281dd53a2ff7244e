/** One cohort's state as the engine keeps it: a ring of buckets and baselines that
    are updated in place under the shard lock. */
module FleetScope {
  import opened WindowRing
  import opened Fleet
  import opened FleetAssess

  class CohortState {
    const cfg: Config
    const ring: array<Bucket>
    const baseline: array<Ewma>
    var volBaseline: Ewma

    ghost predicate Valid()
      reads this, ring, baseline
    {
      Fleet.Valid(cfg) && Fits(cfg, Value())
    }

    ghost function Value(): Scope
      reads this, ring, baseline
    {
      Scope(ring[..], baseline[..], volBaseline)
    }

    constructor (c: Config)
      requires Fleet.Valid(c)
      ensures Valid() && cfg == c && Value() == NewScope(c) && fresh(ring) && fresh(baseline)
    {
      cfg := c;
      ring := new Bucket[c.buckets](i => Bucket(0, Zeros(Width(c))));
      baseline := new Ewma[|c.signals|](i => Ewma(0.0, false));
      volBaseline := Ewma(0.0, false);
      new;
      assert ring[..] == NewRing(c.buckets, Width(c));
      assert baseline[..] == NewScope(c).baseline;
    }

    /** foldBaseline: the retired bucket's rates and volume enter the moving averages. */
    method FoldBaseline(b: Bucket)
      requires Valid() && |b.sums| == Width(cfg) && b.sums[0] > 0
      modifies this, baseline
      ensures ring[..] == old(ring[..])
      ensures baseline[..] == FoldRates(cfg, old(baseline[..]), b)
      ensures volBaseline == FoldEwma(old(volBaseline), b.sums[0] as real, cfg.alpha)
    {
      ghost var before := baseline[..];
      for i := 0 to baseline.Length
        invariant forall k :: 0 <= k < i ==> baseline[k] == FoldEwma(before[k], Rate(b, k), cfg.alpha)
        invariant forall k :: i <= k < baseline.Length ==> baseline[k] == before[k]
        invariant ring[..] == old(ring[..]) && volBaseline == old(volBaseline)
      {
        var rate := b.sums[i + 1] as real / b.sums[0] as real;
        baseline[i] := FoldEwma(baseline[i], rate, cfg.alpha);
      }
      volBaseline := FoldEwma(volBaseline, b.sums[0] as real, cfg.alpha);
    }

    /** The total goes up by one, and so does the count of every signal the bits carry. */
    method Bump(sums: seq<nat>, bits: Bits) returns (r: seq<nat>)
      requires |sums| == Width(cfg)
      ensures r == Add(sums, Increments(cfg, bits))
    {
      var inc := Increments(cfg, bits);
      r := sums[0 := sums[0] + 1];
      for i := 0 to |cfg.signals|
        invariant |r| == Width(cfg)
        invariant forall j :: 0 <= j < |r| ==> r[j] == if j <= i then sums[j] + inc[j] else sums[j]
      {
        if Matches(bits, cfg.signals[i].mask) {
          r := r[i + 1 := r[i + 1] + 1];
        }
      }
    }

    /** The part of observeLocked that recycles a slot. */
    method Recycle(idx: nat, ep: int)
      requires Valid() && idx == Slot(ep, cfg.buckets)
      modifies this, ring, baseline
      ensures Valid()
      ensures ring[..] == old(ring[..])[idx := Bucket(ep, Held(old(ring[idx]), ep, Width(cfg)))]
      ensures if Retires(cfg, old(Value()), ep)
        then baseline[..] == FoldRates(cfg, old(baseline[..]), old(ring[idx]))
          && volBaseline == FoldEwma(old(volBaseline), old(ring[idx]).sums[0] as real, cfg.alpha)
        else baseline[..] == old(baseline[..]) && volBaseline == old(volBaseline)
    {
      var b := ring[idx];
      if b.epoch != ep {
        if b.epoch != 0 && b.sums[0] > 0 {
          FoldBaseline(b);
        }
        ring[idx] := Bucket(ep, Zeros(Width(cfg)));
      }
    }

    /** observeLocked */
    method ObserveLocked(ep: int, bits: Bits)
      requires Valid()
      modifies this, ring, baseline
      ensures Valid() && Value() == Record(cfg, old(Value()), Arrival(ep, bits))
    {
      hide Retires, FoldRates, FoldEwma, Held, Increments;
      ghost var before := Value();
      var idx := Slot(ep, cfg.buckets);
      Recycle(idx, ep);
      var counts := Bump(ring[idx].sums, bits);
      ring[idx] := Bucket(ep, counts);
      assert ring[..] == Observe(before.ring, ObsOf(cfg, Arrival(ep, bits)), Width(cfg));
    }

    /** assessLocked: accumulates the window bucket by bucket, then tests each signal and the volume. */
    method AssessLocked(ep: int) returns (out: Assessment)
      requires Valid()
      ensures out == Assess(cfg, Value(), ep)
    {
      var w, n := Width(cfg), cfg.buckets;
      var sums := Zeros(w);
      for i := 0 to n
        invariant |sums| == w && forall j :: 0 <= j < w ==> sums[j] == WindowSum(ring[..], ep, j, w, i)
      {
        var b := ring[i];
        if !(b.epoch < ep - (n - 1) || b.epoch > ep) {
          sums := Add(sums, b.sums);
        }
      }
      var total := sums[0];
      assert forall j :: 0 <= j < w ==> sums[j] == Window(cfg, Value(), ep, j);
      var signals := TestSignals(ep, sums);
      var surge, ratio := TestVelocity(ep, total);
      out := Assessment(|signals| > 0 || surge, signals, surge, ratio, total);
    }

    method TestSignals(ep: int, sums: seq<nat>) returns (out: seq<SignalAssessment>)
      requires Valid() && |sums| == Width(cfg) && forall j :: 0 <= j < |sums| ==> sums[j] == Window(cfg, Value(), ep, j)
      ensures out == Tripped(cfg, Value(), ep, |cfg.signals|)
    {
      hide WindowSum;
      out := [];
      var total := sums[0];
      if total < cfg.minSamples {
        NothingTrips(ep, |cfg.signals|);
        return;
      }
      for i := 0 to |cfg.signals|
        invariant out == Tripped(cfg, Value(), ep, i)
      {
        var cur := sums[i + 1] as real / total as real;
        var bl := baseline[i];
        var anomalous, ratio := false, 0.0;
        if !bl.seeded {
          anomalous := cur >= cfg.coldStartFloor;
        } else {
          if bl.value > 0.0 {
            ratio := cur / bl.value;
          }
          anomalous := cur >= cfg.absoluteFloor && cur >= bl.value * cfg.surgeFactor;
        }
        assert cur == CurrentRate(cfg, Value(), ep, i) && bl == Value().baseline[i];
        if anomalous {
          out := out + [SignalAssessment(cfg.signals[i].name, cur, bl.value, ratio)];
        }
      }
    }

    lemma {:induction false} NothingTrips(ep: int, k: nat)
      requires Valid() && k <= |cfg.signals| && Window(cfg, Value(), ep, 0) < cfg.minSamples
      ensures Tripped(cfg, Value(), ep, k) == []
    {
      if k > 0 {
        NothingTrips(ep, k - 1);
      }
    }

    method TestVelocity(ep: int, total: nat) returns (surge: bool, ratio: real)
      requires Valid() && total == Window(cfg, Value(), ep, 0)
      ensures surge == VelocityTrips(cfg, Value(), ep)
      ensures ratio == if volBaseline.seeded && Projected(cfg, Value()) > 0.0
        then total as real / Projected(cfg, Value()) else 0.0
    {
      surge, ratio := false, 0.0;
      if volBaseline.seeded {
        var projected := volBaseline.value * cfg.buckets as real;
        if projected > 0.0 {
          ratio := total as real / projected;
        }
        if total >= cfg.velocityMinVolume && total as real >= projected * cfg.velocityFactor {
          surge := true;
        }
      } else if total >= cfg.velocityColdVolume {
        surge := true;
      }
    }
  }
}
