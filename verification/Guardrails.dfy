/** The guardrail detector (server/data-plane/guardrails/detector.go): windowed block
    rates per scope, with scopes pruned from the map once their window is empty. */
module Guardrails {
  import opened WindowRing

  const BUCKET_COUNT: nat := 10

  datatype Key = Key(tenant: string, app: string, policy: string)
  datatype ModuleCounts = ModuleCounts(flagged: nat, falsePositive: nat)

  /** One scope: its ring of (total, blocked) buckets and, slot by slot, the module counts. */
  datatype Counts = Counts(ring: seq<Bucket>, modules: seq<map<string, ModuleCounts>>)

  predicate CountsOk(c: Counts) {
    Shaped(c.ring, 2) && |c.ring| == BUCKET_COUNT && |c.modules| == BUCKET_COUNT
  }

  function NewCounts(): (c: Counts)
    ensures CountsOk(c)
  {
    Counts(NewRing(BUCKET_COUNT, 2), seq(BUCKET_COUNT, i => map[]))
  }

  /** liveBucket's effect on the module counts of the slot. */
  function LiveModules(c: Counts, ep: int): map<string, ModuleCounts>
    requires CountsOk(c)
  {
    var i := Slot(ep, BUCKET_COUNT);
    if c.ring[i].epoch == ep then c.modules[i] else map[]
  }

  function AddDecision(c: Counts, ep: int, blocked: bool): (r: Counts)
    requires CountsOk(c)
    ensures CountsOk(r)
  {
    Counts(Observe(c.ring, Obs(ep, [1, if blocked then 1 else 0]), 2),
           c.modules[Slot(ep, BUCKET_COUNT) := LiveModules(c, ep)])
  }

  function AddModule(c: Counts, ep: int, name: string, falsePositive: bool): (r: Counts)
    requires CountsOk(c)
    ensures CountsOk(r)
  {
    var live := LiveModules(c, ep);
    var mc := if name in live then live[name] else ModuleCounts(0, 0);
    var bumped := ModuleCounts(mc.flagged + 1, mc.falsePositive + if falsePositive then 1 else 0);
    Counts(Observe(c.ring, Obs(ep, [0, 0]), 2), c.modules[Slot(ep, BUCKET_COUNT) := live[name := bumped]])
  }

  predicate InWindow(b: Bucket, ep: int) {
    ep - BUCKET_COUNT < b.epoch <= ep
  }

  predicate HasTraffic(c: Counts, ep: int)
    requires CountsOk(c)
  {
    exists i :: 0 <= i < BUCKET_COUNT && InWindow(c.ring[i], ep) && c.ring[i].sums[0] > 0
  }

  function Decisions(c: Counts, ep: int): nat
    requires CountsOk(c)
  {
    WindowSum(c.ring, ep, 0, 2, BUCKET_COUNT)
  }

  function Blocked(c: Counts, ep: int): nat
    requires CountsOk(c)
  {
    WindowSum(c.ring, ep, 1, 2, BUCKET_COUNT)
  }

  /** A block rate and the number of decisions it is over. */
  function RateOf(blocked: nat, total: nat): (real, nat) {
    if total == 0 then (0.0, 0) else (blocked as real / total as real, total)
  }

  // ---- The detector ----

  type Scopes = map<Key, Counts>

  ghost predicate ScopesOk(d: Scopes) {
    forall k :: k in d ==> CountsOk(d[k])
  }

  function ScopeOf(d: Scopes, k: Key): Counts {
    if k in d then d[k] else NewCounts()
  }

  function SampleOf(d: Scopes, k: Key, ep: int): (real, nat)
    requires ScopesOk(d)
  {
    if k in d then RateOf(Blocked(d[k], ep), Decisions(d[k], ep)) else (0.0, 0)
  }

  datatype Op =
    | Decision(key: Key, blocked: bool)
    | ModuleFlag(key: Key, name: string, falsePositive: bool)
    | Prune

  datatype Event = Event(epoch: int, op: Op)

  function Step(d: Scopes, e: Event): (r: Scopes)
    requires ScopesOk(d)
    ensures ScopesOk(r)
  {
    match e.op
    case Decision(k, blocked) => d[k := AddDecision(ScopeOf(d, k), e.epoch, blocked)]
    case ModuleFlag(k, name, fp) => d[k := AddModule(ScopeOf(d, k), e.epoch, name, fp)]
    case Prune => map k | k in d && HasTraffic(d[k], e.epoch) :: d[k]
  }

  function Run(events: seq<Event>): (d: Scopes)
    ensures ScopesOk(d)
  {
    if events == [] then map[] else Step(Run(events[..|events| - 1]), events[|events| - 1])
  }

  /** What one event records for a scope. */
  function Recorded(e: Event, k: Key): (h: seq<Obs>)
    ensures HistoryOf(h, 2)
  {
    match e.op
    case Decision(x, blocked) => if x == k then [Obs(e.epoch, [1, if blocked then 1 else 0])] else []
    case ModuleFlag(x, _, _) => if x == k then [Obs(e.epoch, [0, 0])] else []
    case Prune => []
  }

  /** Everything ever recorded for a scope, whatever was pruned since. */
  function History(events: seq<Event>, k: Key): (h: seq<Obs>)
    ensures HistoryOf(h, 2)
  {
    if events == [] then [] else History(events[..|events| - 1], k) + Recorded(events[|events| - 1], k)
  }

  /** The clock never goes back and has not passed `ep`. */
  ghost predicate Ordered(events: seq<Event>, ep: int) {
    && (forall i, j :: 0 <= i < j < |events| ==> events[i].epoch <= events[j].epoch)
    && (forall i :: 0 <= i < |events| ==> events[i].epoch <= ep)
  }

  ghost predicate BlockedBelowTotal(c: Counts)
    requires CountsOk(c)
  {
    forall i :: 0 <= i < BUCKET_COUNT ==> c.ring[i].sums[1] <= c.ring[i].sums[0]
  }

  ghost predicate Agrees(d: Scopes, events: seq<Event>, k: Key, ep: int)
    requires ScopesOk(d)
  {
    BlockedBelowTotal(ScopeOf(d, k)) && Represents(ScopeOf(d, k).ring, History(events, k), ep, 2)
  }

  lemma {:induction false} EmptySums(s: seq<nat>)
    requires |s| == 2 && s[0] == 0 && s[1] <= s[0]
    ensures s == Zeros(2)
  {
  }

  /** A scope without traffic in its window is no different from a new one. */
  lemma {:induction false} PrunedLikeNew(c: Counts, h: seq<Obs>, ep: int)
    requires CountsOk(c) && BlockedBelowTotal(c) && Represents(c.ring, h, ep, 2) && !HasTraffic(c, ep)
    ensures Represents(NewCounts().ring, h, ep, 2)
  {
    var n := BUCKET_COUNT;
    var blank := NewCounts().ring;
    forall i | 0 <= i < n ensures SlotAgrees(blank[i], h, ep, n, 2, i) {
      var b, e := c.ring[i], SlotEpoch(i, ep, n);
      assert SlotAgrees(b, h, ep, n, 2, i);
      if b.epoch == e {
        assert InWindow(b, ep);
        EmptySums(b.sums);
      }
      assert Held(b, e, 2) == Zeros(2);
      assert Held(blank[i], e, 2) == Zeros(2);
    }
  }

  lemma {:induction false} RecordAgrees(c: Counts, h: seq<Obs>, o: Obs, ep: int)
    requires CountsOk(c) && BlockedBelowTotal(c) && Represents(c.ring, h, ep, 2)
    requires |o.incs| == 2 && o.incs[1] <= o.incs[0] && o.epoch == ep
    ensures Represents(Observe(c.ring, o, 2), h + [o], ep, 2)
    ensures forall i :: 0 <= i < BUCKET_COUNT ==> Observe(c.ring, o, 2)[i].sums[1] <= Observe(c.ring, o, 2)[i].sums[0]
  {
    ObserveInWindow(c.ring, h, o, ep, 2);
  }

  /** On every run with a clock that never goes back, every scope's ring stands for the
      scope's whole history, whether it was pruned or not. */
  lemma {:induction false} RunAgrees(events: seq<Event>, k: Key, ep: int)
    requires Ordered(events, ep)
    ensures Agrees(Run(events), events, k, ep)
  {
    if events == [] {
      NewRingRepresents(BUCKET_COUNT, 2, ep);
    } else {
      var front, e := events[..|events| - 1], events[|events| - 1];
      assert Ordered(front, e.epoch);
      RunAgrees(front, k, e.epoch);
      StepAgrees(Run(front), front, e, k);
      assert front + [e] == events;
      Advance(ScopeOf(Run(events), k).ring, History(events, k), e.epoch, ep, 2);
    }
  }

  /** One step changes a scope's ring only by recording in it or by pruning it. */
  lemma {:induction false} StepScope(d: Scopes, e: Event, k: Key)
    requires ScopesOk(d)
    ensures var r, ring := Recorded(e, k), ScopeOf(Step(d, e), k).ring;
      if r != [] then ring == Observe(ScopeOf(d, k).ring, r[0], 2)
      else if e.op.Prune? && k in d && !HasTraffic(d[k], e.epoch) then ring == NewCounts().ring
      else ring == ScopeOf(d, k).ring
  {
    hide HasTraffic, Observe, LiveModules;
  }

  lemma {:induction false} StepAgrees(d: Scopes, events: seq<Event>, e: Event, k: Key)
    requires ScopesOk(d) && Agrees(d, events, k, e.epoch)
    ensures Agrees(Step(d, e), events + [e], k, e.epoch)
  {
    hide Represents, Observe, Step, HasTraffic;
    var c, h, r := ScopeOf(d, k), History(events, k), Recorded(e, k);
    assert (events + [e])[..|events|] == events;
    StepScope(d, e, k);
    if r != [] {
      assert r == [r[0]];
      RecordAgrees(c, h, r[0], e.epoch);
    } else {
      assert h + r == h;
      if e.op.Prune? && k in d && !HasTraffic(d[k], e.epoch) {
        PrunedLikeNew(c, h, e.epoch);
      }
    }
  }

  /** What a detector that forgets nothing would answer. */
  function HistorySample(events: seq<Event>, k: Key, ep: int): (real, nat) {
    RateOf(CountIn(History(events, k), ep, BUCKET_COUNT, 1, 2), CountIn(History(events, k), ep, BUCKET_COUNT, 0, 2))
  }

  lemma {:induction false} SampleIsHistory(events: seq<Event>, k: Key, ep: int)
    requires Ordered(events, ep)
    ensures SampleOf(Run(events), k, ep) == HistorySample(events, k, ep)
  {
    hide Represents;
    RunAgrees(events, k, ep);
    var c := ScopeOf(Run(events), k);
    WindowIsHistory(c.ring, History(events, k), ep, 0, 2);
    WindowIsHistory(c.ring, History(events, k), ep, 1, 2);
    if k !in Run(events) {
      EmptyWindow(ep, BUCKET_COUNT);
    }
  }

  lemma {:induction false} EmptyWindow(ep: int, n: nat)
    requires n <= BUCKET_COUNT
    ensures WindowSum(NewCounts().ring, ep, 0, 2, n) == 0
  {
    if n == 0 {
    } else {
      EmptyWindow(ep, n - 1);
    }
  }

  /** The same run without its prunings. */
  function Unpruned(events: seq<Event>): seq<Event> {
    if events == [] then []
    else Unpruned(events[..|events| - 1]) + (if events[|events| - 1].op.Prune? then [] else [events[|events| - 1]])
  }

  lemma {:induction false} UnprunedOrdered(events: seq<Event>, ep: int)
    requires Ordered(events, ep)
    ensures Ordered(Unpruned(events), ep)
  {
    if events == [] {
    } else {
      var front, e := events[..|events| - 1], events[|events| - 1];
      assert Ordered(front, e.epoch);
      UnprunedOrdered(front, e.epoch);
    }
  }

  lemma {:induction false} UnprunedHistory(events: seq<Event>, k: Key)
    ensures History(Unpruned(events), k) == History(events, k)
  {
    if events == [] {
    } else {
      var u, e := Unpruned(events[..|events| - 1]), events[|events| - 1];
      UnprunedHistory(events[..|events| - 1], k);
      if !e.op.Prune? {
        hide Recorded;
        assert (u + [e])[..|u|] == u;
      } else {
        assert Unpruned(events) == u;
      }
    }
  }

  /** Pruning is invisible: a detector that prunes answers every sample exactly as one
      that never does. */
  lemma {:induction false} PruningInvisible(events: seq<Event>, k: Key, ep: int)
    requires Ordered(events, ep)
    ensures SampleOf(Run(events), k, ep) == SampleOf(Run(Unpruned(events)), k, ep)
  {
    SampleIsHistory(events, k, ep);
    UnprunedHistory(events, k);
    UnprunedOrdered(events, ep);
    SampleIsHistory(Unpruned(events), k, ep);
  }

  // ---- Module rates ----

  function ModuleSums(c: Counts, ep: int, name: string, n: nat): (nat, nat)
    requires CountsOk(c) && n <= BUCKET_COUNT
  {
    if n == 0 then (0, 0)
    else
      var (f, p) := ModuleSums(c, ep, name, n - 1);
      if InWindow(c.ring[n - 1], ep) && name in c.modules[n - 1]
      then (f + c.modules[n - 1][name].flagged, p + c.modules[n - 1][name].falsePositive)
      else (f, p)
  }

  /** The share of a module's flags that were false positives. */
  function FlagRate(flagged: nat, falsePositive: nat): real {
    if flagged > 0 then falsePositive as real / flagged as real else 0.0
  }

  function ModuleRate(d: Scopes, k: Key, name: string, ep: int): real
    requires ScopesOk(d)
  {
    if k !in d then 0.0
    else
      var (f, p) := ModuleSums(d[k], ep, name, BUCKET_COUNT);
      FlagRate(f, p)
  }

  /** Module rates do not survive pruning: a scope that was only ever flagged has no
      decision traffic, so one Evaluate forgets its module counts. */
  lemma {:induction false} ModuleRateLost(k: Key, name: string, ep: int)
    ensures var flagged := [Event(ep, ModuleFlag(k, name, true))];
      ModuleRate(Run(flagged), k, name, ep) == 1.0
      && ModuleRate(Run(flagged + [Event(ep, Prune)]), k, name, ep) == 0.0
  {
    var flagged := [Event(ep, ModuleFlag(k, name, true))];
    assert flagged[..0] == [];
    var all := flagged + [Event(ep, Prune)];
    assert all[..1] == flagged;
    assert Run([]) == map[];
    var i := Slot(ep, BUCKET_COUNT);
    var c := AddModule(NewCounts(), ep, name, true);
    assert Run(flagged)[k] == c;
    assert c.ring[i].sums[0] == 0 && !HasTraffic(c, ep);
    OneModule(c, ep, name, i, BUCKET_COUNT);
  }

  lemma {:induction false} OneModule(c: Counts, ep: int, name: string, i: nat, n: nat)
    requires CountsOk(c) && i < BUCKET_COUNT && n <= BUCKET_COUNT && InWindow(c.ring[i], ep)
    requires name in c.modules[i] && c.modules[i][name] == ModuleCounts(1, 1)
    requires forall j :: 0 <= j < BUCKET_COUNT && j != i ==> name !in c.modules[j]
    ensures ModuleSums(c, ep, name, n) == if i < n then (1, 1) else (0, 0)
  {
    if n == 0 {
    } else {
      OneModule(c, ep, name, i, n - 1);
    }
  }

  /** Exactly when: an Evaluate keeps a scope's module rates if its window still has
      decisions, and clears them otherwise. */
  lemma {:induction false} ModuleRateAfterPrune(d: Scopes, k: Key, name: string, ep: int)
    requires ScopesOk(d)
    ensures ModuleRate(Step(d, Event(ep, Prune)), k, name, ep)
         == if k in d && HasTraffic(d[k], ep) then ModuleRate(d, k, name, ep) else 0.0
  {
    hide ModuleSums, HasTraffic;
  }

  // ---- Alerts ----

  /** A scope over the threshold with enough decisions in its window. */
  predicate Due(c: Counts, ep: int, minSamples: nat, threshold: real)
    requires CountsOk(c) && minSamples > 0
  {
    Decisions(c, ep) >= minSamples && RateOf(Blocked(c, ep), Decisions(c, ep)).0 > threshold
  }

  lemma {:induction false} NoTrafficNoDecisions(c: Counts, ep: int, n: nat)
    requires CountsOk(c) && n <= BUCKET_COUNT
    ensures !HasTraffic(c, ep) ==> WindowSum(c.ring, ep, 0, 2, n) == 0
  {
    if n == 0 {
    } else {
      NoTrafficNoDecisions(c, ep, n - 1);
    }
  }

  /** Alerts, too, are those of the full history: a scope is due on the pruned detector
      exactly when its history's window is. */
  lemma {:induction false} DueIsHistory(events: seq<Event>, k: Key, ep: int, minSamples: nat, threshold: real)
    requires Ordered(events, ep) && minSamples > 0
    ensures (k in Run(events) && Due(Run(events)[k], ep, minSamples, threshold)) <==>
      HistorySample(events, k, ep).1 >= minSamples && HistorySample(events, k, ep).0 > threshold
  {
    hide CountIn, WindowSum, Ordered;
    SampleIsHistory(events, k, ep);
  }
}
