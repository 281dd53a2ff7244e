/** The ring of epoch-tagged buckets shared by the fleet engine and the guardrail
    detector: a fixed number of slots that stands for a sliding window over a full
    history. A bucket holds a vector of sums (its total, then one sum per thing
    counted); an observation adds a vector to the bucket of its epoch. */
module WindowRing {

  datatype Bucket = Bucket(epoch: int, sums: seq<nat>)
  datatype Obs = Obs(epoch: int, incs: seq<nat>)

  // ---- Slots ----

  /** Go's `%`, which truncates toward zero. */
  function GoRem(a: int, n: nat): int
    requires n > 0
  {
    if a >= 0 then a % n else -(-a % n)
  }

  /** The slot of an epoch as the source computes it. */
  function Slot(epoch: int, n: nat): (i: int)
    requires n > 0
    ensures i == epoch % n
  {
    SlotIsMod(epoch, n);
    GoRem(GoRem(epoch, n) + n, n)
  }

  lemma {:induction false} SlotIsMod(epoch: int, n: nat)
    requires n > 0
    ensures GoRem(GoRem(epoch, n) + n, n) == epoch % n
  {
    var r := epoch % n;
    if epoch >= 0 {
      ModUnique(r + n, n, 1, r);
    } else {
      NegativeRem(0 - epoch, n);
      ModUnique(if r == 0 then n else r, n, if r == 0 then 1 else 0, r);
    }
  }

  lemma {:induction false} NegativeRem(a: int, n: nat)
    requires a > 0 && n > 0
    ensures -(a % n) == if -a % n == 0 then 0 else -a % n - n
  {
    var q, r := a / n, a % n;
    assert a == q * n + r;
    if r == 0 {
      assert -a == -q * n;
      ModUnique(-a, n, -q, 0);
    } else {
      assert -a == (-q - 1) * n + (n - r);
      ModUnique(-a, n, -q - 1, n - r);
    }
  }

  lemma {:induction false} MulAtLeast(d: int, n: nat)
    requires d >= 1
    ensures d * n >= n
  {
  }

  /** A multiple of `n` strictly between -n and n is zero. */
  lemma {:induction false} SmallMultiple(d: int, n: nat)
    requires -(n as int) < d * n < n
    ensures d == 0
  {
    if d >= 1 {
      MulAtLeast(d, n);
    } else if d <= -1 {
      MulAtLeast(-d, n);
    }
  }

  lemma {:induction false} ModUnique(a: int, n: nat, q: int, r: nat)
    requires n > 0 && r < n && a == q * n + r
    ensures a % n == r
  {
    var d := a / n - q;
    assert a == (a / n) * n + a % n;
    assert d * n == r - a % n;
    SmallMultiple(d, n);
  }

  /** The one epoch of slot `i` in the window of `n` epochs that ends at `q`. */
  function SlotEpoch(i: nat, q: int, n: nat): (e: int)
    requires i < n
    ensures q - n < e <= q && e % n == i
  {
    SlotEpochMod(i, q, n);
    q - (q - i) % n
  }

  lemma {:induction false} SlotEpochMod(i: nat, q: int, n: nat)
    requires i < n
    ensures (q - (q - i) % n) % n == i
  {
    var k := (q - i) / n;
    assert q - i == k * n + (q - i) % n;
    ModUnique(q - (q - i) % n, n, k, i);
  }

  lemma {:induction false} SlotEpochUnique(i: nat, q: int, n: nat, e: int)
    requires i < n && q - n < e <= q && e % n == i
    ensures e == SlotEpoch(i, q, n)
  {
    var f := SlotEpoch(i, q, n);
    var k := e / n - f / n;
    assert e == (e / n) * n + i && f == (f / n) * n + i;
    assert e - f == k * n;
    SmallMultiple(k, n);
  }

  // ---- The ring ----

  function Zeros(w: nat): (z: seq<nat>)
    ensures |z| == w && forall j :: 0 <= j < w ==> z[j] == 0
  {
    seq(w, j => 0)
  }

  function Add(u: seq<nat>, v: seq<nat>): (r: seq<nat>)
    requires |u| == |v|
    ensures |r| == |u| && forall j :: 0 <= j < |u| ==> r[j] == u[j] + v[j]
  {
    seq(|u|, j requires 0 <= j < |u| => u[j] + v[j])
  }

  function NewRing(n: nat, w: nat): (ring: seq<Bucket>)
    ensures |ring| == n && forall i :: 0 <= i < n ==> ring[i] == Bucket(0, Zeros(w))
  {
    seq(n, i => Bucket(0, Zeros(w)))
  }

  predicate Shaped(ring: seq<Bucket>, w: nat) {
    |ring| > 0 && forall i :: 0 <= i < |ring| ==> |ring[i].sums| == w
  }

  predicate HistoryOf(h: seq<Obs>, w: nat) {
    forall k :: 0 <= k < |h| ==> |h[k].incs| == w
  }

  /** The sums a slot holds for epoch `e`: none when it holds another epoch. */
  function Held(b: Bucket, e: int, w: nat): (s: seq<nat>)
    requires |b.sums| == w
    ensures |s| == w
  {
    if b.epoch == e then b.sums else Zeros(w)
  }

  function Observe(ring: seq<Bucket>, o: Obs, w: nat): (r: seq<Bucket>)
    requires Shaped(ring, w) && |o.incs| == w
    ensures Shaped(r, w) && |r| == |ring|
  {
    var i := Slot(o.epoch, |ring|);
    ring[i := Bucket(o.epoch, Add(Held(ring[i], o.epoch, w), o.incs))]
  }

  /** What the slots of `ring` up to `k` hold in the window that ends at `q`. */
  function WindowSum(ring: seq<Bucket>, q: int, j: nat, w: nat, k: nat): nat
    requires Shaped(ring, w) && j < w && k <= |ring|
  {
    if k == 0 then 0
    else
      var b := ring[k - 1];
      WindowSum(ring, q, j, w, k - 1) + (if q - |ring| < b.epoch <= q then b.sums[j] else 0)
  }

  // ---- The history ----

  /** The sum over the whole history of the observations of one epoch. */
  function CountAt(h: seq<Obs>, e: int, j: nat, w: nat): nat
    requires HistoryOf(h, w) && j < w
  {
    if h == [] then 0
    else CountAt(h[..|h| - 1], e, j, w) + (if h[|h| - 1].epoch == e then h[|h| - 1].incs[j] else 0)
  }

  /** The sum over the whole history of the observations in the last `n` epochs. */
  function CountIn(h: seq<Obs>, q: int, n: nat, j: nat, w: nat): nat
    requires HistoryOf(h, w) && j < w
  {
    if h == [] then 0
    else CountIn(h[..|h| - 1], q, n, j, w) + (if q - n < h[|h| - 1].epoch <= q then h[|h| - 1].incs[j] else 0)
  }

  predicate UpTo(h: seq<Obs>, m: int) {
    forall k :: 0 <= k < |h| ==> h[k].epoch <= m
  }

  /** The sum over the window restricted to the slots below `k`. */
  function CountBelow(h: seq<Obs>, q: int, n: nat, j: nat, w: nat, k: nat): nat
    requires HistoryOf(h, w) && j < w && k <= n && n > 0
  {
    if h == [] then 0
    else
      var o := h[|h| - 1];
      CountBelow(h[..|h| - 1], q, n, j, w, k) + (if q - n < o.epoch <= q && o.epoch % n < k then o.incs[j] else 0)
  }

  lemma {:induction false} CountBelowStep(h: seq<Obs>, q: int, n: nat, j: nat, w: nat, k: nat)
    requires HistoryOf(h, w) && j < w && k < n
    ensures CountBelow(h, q, n, j, w, k + 1) == CountBelow(h, q, n, j, w, k) + CountAt(h, SlotEpoch(k, q, n), j, w)
  {
    if h == [] {
    } else {
      CountBelowStep(h[..|h| - 1], q, n, j, w, k);
      var o := h[|h| - 1];
      if q - n < o.epoch <= q && o.epoch % n == k {
        SlotEpochUnique(k, q, n, o.epoch);
      }
    }
  }

  lemma {:induction false} CountBelowEnds(h: seq<Obs>, q: int, n: nat, j: nat, w: nat)
    requires HistoryOf(h, w) && j < w && n > 0
    ensures CountBelow(h, q, n, j, w, 0) == 0
    ensures CountBelow(h, q, n, j, w, n) == CountIn(h, q, n, j, w)
  {
    if h == [] {
    } else {
      CountBelowEnds(h[..|h| - 1], q, n, j, w);
    }
  }

  lemma {:induction false} CountAtPast(h: seq<Obs>, m: int, e: int, j: nat, w: nat)
    requires HistoryOf(h, w) && j < w && UpTo(h, m) && e > m
    ensures CountAt(h, e, j, w) == 0
  {
    if h == [] {
    } else {
      CountAtPast(h[..|h| - 1], m, e, j, w);
    }
  }

  // ---- The ring stands for the history ----

  /** Slot `i` holds exactly the history of its epoch in the window that ends at `m`. */
  ghost predicate SlotAgrees(b: Bucket, h: seq<Obs>, m: int, n: nat, w: nat, i: nat)
    requires HistoryOf(h, w) && |b.sums| == w && i < n
  {
    && (forall j :: 0 <= j < w ==> Held(b, SlotEpoch(i, m, n), w)[j] == CountAt(h, SlotEpoch(i, m, n), j, w))
    && ((b.epoch <= m && b.epoch % n == i) || b.sums == Zeros(w))
  }

  ghost predicate Represents(ring: seq<Bucket>, h: seq<Obs>, m: int, w: nat) {
    && Shaped(ring, w) && HistoryOf(h, w) && UpTo(h, m)
    && forall i :: 0 <= i < |ring| ==> SlotAgrees(ring[i], h, m, |ring|, w, i)
  }

  lemma {:induction false} NewRingRepresents(n: nat, w: nat, m: int)
    requires n > 0
    ensures Represents(NewRing(n, w), [], m, w)
  {
  }

  /** Time passing keeps the ring in step: what leaves the window leaves both. */
  lemma {:induction false} Advance(ring: seq<Bucket>, h: seq<Obs>, m: int, q: int, w: nat)
    requires Represents(ring, h, m, w) && m <= q
    ensures Represents(ring, h, q, w)
  {
    var n := |ring|;
    forall i | 0 <= i < n ensures SlotAgrees(ring[i], h, q, n, w, i) {
      var e := SlotEpoch(i, q, n);
      assert SlotAgrees(ring[i], h, m, n, w, i);
      if e <= m {
        SlotEpochUnique(i, m, n, e);
      } else {
        forall j | 0 <= j < w ensures Held(ring[i], e, w)[j] == CountAt(h, e, j, w) {
          CountAtPast(h, m, e, j, w);
        }
      }
    }
  }

  lemma {:induction false} WindowSumUpTo(ring: seq<Bucket>, h: seq<Obs>, q: int, j: nat, w: nat, k: nat)
    requires Represents(ring, h, q, w) && j < w && k <= |ring|
    ensures WindowSum(ring, q, j, w, k) == CountBelow(h, q, |ring|, j, w, k)
  {
    var n := |ring|;
    if k == 0 {
      CountBelowEnds(h, q, n, j, w);
    } else {
      WindowSumUpTo(ring, h, q, j, w, k - 1);
      CountBelowStep(h, q, n, j, w, k - 1);
      var b := ring[k - 1];
      assert SlotAgrees(b, h, q, n, w, k - 1);
      assert Held(b, SlotEpoch(k - 1, q, n), w)[j] == CountAt(h, SlotEpoch(k - 1, q, n), j, w);
      if q - n < b.epoch <= q && b.epoch % n == k - 1 {
        SlotEpochUnique(k - 1, q, n, b.epoch);
      }
    }
  }

  /** The window the ring reports is the window of the full history. */
  lemma {:induction false} WindowIsHistory(ring: seq<Bucket>, h: seq<Obs>, q: int, j: nat, w: nat)
    requires Represents(ring, h, q, w) && j < w
    ensures WindowSum(ring, q, j, w, |ring|) == CountIn(h, q, |ring|, j, w)
  {
    WindowSumUpTo(ring, h, q, j, w, |ring|);
    CountBelowEnds(h, q, |ring|, j, w);
  }

  /** The observation is older than the window and its slot holds counted traffic of the
      window: recording it throws that traffic away. */
  ghost predicate EvictsLive(ring: seq<Bucket>, o: Obs, m: int, w: nat)
    requires Shaped(ring, w)
  {
    var b := ring[Slot(o.epoch, |ring|)];
    o.epoch <= m - |ring| && m - |ring| < b.epoch <= m && b.sums != Zeros(w)
  }

  lemma {:induction false} SlotAfter(b: Bucket, h: seq<Obs>, o: Obs, m: int, n: nat, w: nat, i: nat)
    requires HistoryOf(h, w) && |b.sums| == w && |o.incs| == w && i < n && o.epoch <= m
    requires SlotAgrees(b, h, m, n, w, i)
    ensures HistoryOf(h + [o], w)
    ensures o.epoch % n != i ==> SlotAgrees(b, h + [o], m, n, w, i)
    ensures o.epoch % n == i && m - n < o.epoch ==>
      SlotAgrees(Bucket(o.epoch, Add(Held(b, o.epoch, w), o.incs)), h + [o], m, n, w, i)
  {
    var g := h + [o];
    var e := SlotEpoch(i, m, n);
    assert g[..|g| - 1] == h;
    forall j | 0 <= j < w
      ensures CountAt(g, e, j, w) == CountAt(h, e, j, w) + (if o.epoch == e then o.incs[j] else 0)
    {
    }
    if o.epoch % n == i && m - n < o.epoch {
      SlotEpochUnique(i, m, n, o.epoch);
    }
  }

  /** Recording an observation that is not older than the window keeps the ring in step. */
  lemma {:induction false} ObserveInWindow(ring: seq<Bucket>, h: seq<Obs>, o: Obs, m: int, w: nat)
    requires Represents(ring, h, m, w) && |o.incs| == w && m - |ring| < o.epoch <= m
    ensures Represents(Observe(ring, o, w), h + [o], m, w)
  {
    var n := |ring|;
    var r := Observe(ring, o, w);
    forall i | 0 <= i < n ensures SlotAgrees(r[i], h + [o], m, n, w, i) {
      SlotAfter(ring[i], h, o, m, n, w, i);
    }
  }

  lemma {:induction false} ObserveHarmless(ring: seq<Bucket>, h: seq<Obs>, o: Obs, m: int, w: nat)
    requires Represents(ring, h, m, w) && |o.incs| == w && o.epoch <= m - |ring| && !EvictsLive(ring, o, m, w)
    ensures Represents(Observe(ring, o, w), h + [o], m, w)
  {
    var n := |ring|;
    var r := Observe(ring, o, w);
    var g := h + [o];
    assert g[..|g| - 1] == h;
    forall i | 0 <= i < n ensures SlotAgrees(r[i], g, m, n, w, i) {
      SlotAfter(ring[i], h, o, m, n, w, i);
      if i == o.epoch % n {
        var e := SlotEpoch(i, m, n);
        assert SlotAgrees(ring[i], h, m, n, w, i);
        forall j | 0 <= j < w ensures Held(r[i], e, w)[j] == CountAt(g, e, j, w) {
          assert CountAt(g, e, j, w) == CountAt(h, e, j, w) == Held(ring[i], e, w)[j];
        }
      }
    }
  }

  lemma {:induction false} WindowSumUpdate(ring: seq<Bucket>, i: nat, b: Bucket, q: int, j: nat, w: nat, k: nat)
    requires Shaped(ring, w) && i < |ring| && |b.sums| == w && j < w && k <= |ring|
    requires !(q - |ring| < b.epoch <= q)
    ensures WindowSum(ring[i := b], q, j, w, k) ==
      WindowSum(ring, q, j, w, k) - (if i < k && q - |ring| < ring[i].epoch <= q then ring[i].sums[j] else 0)
  {
    if k == 0 {
    } else {
      WindowSumUpdate(ring, i, b, q, j, w, k - 1);
    }
  }

  /** The exact condition: after one more observation, the ring answers every later
      window as the full history does, if and only if the observation did not evict
      counted traffic of the window. */
  lemma {:induction false} ObserveExact(ring: seq<Bucket>, h: seq<Obs>, o: Obs, m: int, w: nat)
    requires Represents(ring, h, m, w) && |o.incs| == w && o.epoch <= m
    ensures HistoryOf(h + [o], w)
    ensures
      (forall q, j :: q >= m && 0 <= j < w ==>
        WindowSum(Observe(ring, o, w), q, j, w, |ring|) == CountIn(h + [o], q, |ring|, j, w))
      <==> !EvictsLive(ring, o, m, w)
  {
    var n := |ring|;
    var r := Observe(ring, o, w);
    if EvictsLive(ring, o, m, w) {
      var i := Slot(o.epoch, n);
      var j :| 0 <= j < w && ring[i].sums[j] != 0;
      WindowSumUpdate(ring, i, r[i], m, j, w, n);
      WindowIsHistory(ring, h, m, j, w);
      WindowPart(ring, i, m, j, w, n);
      assert (h + [o])[..|h|] == h;
      assert CountIn(h + [o], m, n, j, w) == CountIn(h, m, n, j, w);
      assert WindowSum(r, m, j, w, n) != CountIn(h + [o], m, n, j, w);
    } else {
      if m - n < o.epoch {
        ObserveInWindow(ring, h, o, m, w);
      } else {
        ObserveHarmless(ring, h, o, m, w);
      }
      forall q, j | q >= m && 0 <= j < w
        ensures WindowSum(r, q, j, w, n) == CountIn(h + [o], q, n, j, w)
      {
        Advance(r, h + [o], m, q, w);
        WindowIsHistory(r, h + [o], q, j, w);
      }
    }
  }

  /** A slot of the window is part of its sum. */
  lemma {:induction false} WindowPart(ring: seq<Bucket>, i: nat, q: int, j: nat, w: nat, k: nat)
    requires Shaped(ring, w) && j < w && i < k <= |ring| && q - |ring| < ring[i].epoch <= q
    ensures WindowSum(ring, q, j, w, k) >= ring[i].sums[j]
  {
    if i < k - 1 {
      WindowPart(ring, i, q, j, w, k - 1);
    }
  }

  // ---- Runs ----

  function Run(n: nat, w: nat, h: seq<Obs>): (ring: seq<Bucket>)
    requires n > 0 && HistoryOf(h, w)
    ensures Shaped(ring, w) && |ring| == n
  {
    if h == [] then NewRing(n, w) else Observe(Run(n, w, h[..|h| - 1]), h[|h| - 1], w)
  }

  /** No observation is a whole window older than one before it. Observations made in
      epoch order are timely; so are those of writers that race for a lock after
      reading the clock, as long as none waits for a whole window. */
  predicate Timely(h: seq<Obs>, n: nat) {
    forall i, k :: 0 <= i < k < |h| ==> h[k].epoch > h[i].epoch - n
  }

  lemma {:induction false} Latest(h: seq<Obs>) returns (m: int)
    requires h != []
    ensures UpTo(h, m) && exists k :: 0 <= k < |h| && h[k].epoch == m
  {
    m := h[0].epoch;
    for i := 0 to |h|
      invariant forall k :: 0 <= k < i ==> h[k].epoch <= m
      invariant exists k :: 0 <= k < |h| && h[k].epoch == m
    {
      if h[i].epoch > m {
        m := h[i].epoch;
      }
    }
  }

  lemma {:induction false} RunRepresents(n: nat, w: nat, h: seq<Obs>, q: int)
    requires n > 0 && HistoryOf(h, w) && Timely(h, n) && UpTo(h, q)
    ensures Represents(Run(n, w, h), h, q, w)
  {
    if h == [] {
      NewRingRepresents(n, w, q);
    } else {
      var front, o := h[..|h| - 1], h[|h| - 1];
      var m := Latest(h);
      assert forall k :: 0 <= k < |front| ==> front[k] == h[k];
      RunRepresents(n, w, front, m);
      var k :| 0 <= k < |h| && h[k].epoch == m;
      assert m - n < o.epoch;
      ObserveInWindow(Run(n, w, front), front, o, m, w);
      assert front + [o] == h;
      Advance(Run(n, w, h), h, m, q, w);
    }
  }

  /** The ring refines the history: on every timely run, every window that ends at or
      after the last observation has the sums of the full history. */
  lemma {:induction false} RingRefinesHistory(n: nat, w: nat, h: seq<Obs>, q: int, j: nat)
    requires n > 0 && HistoryOf(h, w) && Timely(h, n) && UpTo(h, q) && j < w
    ensures WindowSum(Run(n, w, h), q, j, w, n) == CountIn(h, q, n, j, w)
  {
    RunRepresents(n, w, h, q);
    WindowIsHistory(Run(n, w, h), h, q, j, w);
  }

  /** An observation one whole window late erases the newer one of its slot. */
  lemma {:induction false} LateObservationErases(n: nat, e: int)
    requires n > 0
    ensures var h := [Obs(e, [1]), Obs(e - n, [1])];
      WindowSum(Run(n, 1, h), e, 0, 1, n) == 0 && CountIn(h, e, n, 0, 1) == 1
  {
    var first, late := Obs(e, [1]), Obs(e - n, [1]);
    var ring := Run(n, 1, [first]);
    var i := e % n;
    ModUnique(e - n, n, e / n - 1, i);
    assert [first, late][..1] == [first] && [first][..0] == [];
    assert Add(Held(NewRing(n, 1)[i], e, 1), [1]) == [1];
    RunRepresents(n, 1, [first], e);
    WindowIsHistory(ring, [first], e, 0, 1);
    WindowSumUpdate(ring, i, Observe(ring, late, 1)[i], e, 0, 1, n);
  }

  // ---- Conservation ----

  function Total(ring: seq<Bucket>, j: nat, w: nat, k: nat): nat
    requires Shaped(ring, w) && j < w && k <= |ring|
  {
    if k == 0 then 0 else Total(ring, j, w, k - 1) + ring[k - 1].sums[j]
  }

  function HistoryTotal(h: seq<Obs>, j: nat, w: nat): nat
    requires HistoryOf(h, w) && j < w
  {
    if h == [] then 0 else HistoryTotal(h[..|h| - 1], j, w) + h[|h| - 1].incs[j]
  }

  lemma {:induction false} TotalUpdate(ring: seq<Bucket>, i: nat, b: Bucket, j: nat, w: nat, k: nat)
    requires Shaped(ring, w) && i < |ring| && |b.sums| == w && j < w && k <= |ring|
    ensures Total(ring[i := b], j, w, k) + (if i < k then ring[i].sums[j] else 0)
      == Total(ring, j, w, k) + (if i < k then b.sums[j] else 0)
  {
    if k == 0 {
    } else {
      TotalUpdate(ring, i, b, j, w, k - 1);
    }
  }

  lemma {:induction false} TotalNewRing(n: nat, j: nat, w: nat, k: nat)
    requires n > 0 && j < w && k <= n
    ensures Total(NewRing(n, w), j, w, k) == 0
  {
    if k == 0 {
    } else {
      TotalNewRing(n, j, w, k - 1);
    }
  }
}
