/** Module false-positive rates over whole runs of the guardrail detector
    (server/data-plane/guardrails/detector.go). Pruning clears them, so a rate covers the
    flags since the scope was last cleared, and nothing else is forgotten. */
module GuardrailModules {
  import opened WindowRing
  import opened Guardrails

  /** One module's counts of a scope, seen as a ring of (flagged, false positive) buckets. */
  function ModuleBucket(b: Bucket, modules: map<string, ModuleCounts>, name: string): (r: Bucket)
    ensures |r.sums| == 2 && r.epoch == b.epoch
  {
    Bucket(b.epoch, if name in modules then [modules[name].flagged, modules[name].falsePositive] else [0, 0])
  }

  function ModuleRing(c: Counts, name: string): (ring: seq<Bucket>)
    requires CountsOk(c)
    ensures |ring| == BUCKET_COUNT && Shaped(ring, 2)
    ensures forall i :: 0 <= i < BUCKET_COUNT ==> ring[i] == ModuleBucket(c.ring[i], c.modules[i], name)
  {
    seq(BUCKET_COUNT, i requires 0 <= i < BUCKET_COUNT => ModuleBucket(c.ring[i], c.modules[i], name))
  }

  lemma {:induction false} SumsAreWindow(c: Counts, ep: int, name: string, n: nat)
    requires CountsOk(c) && n <= BUCKET_COUNT
    ensures ModuleSums(c, ep, name, n)
         == (WindowSum(ModuleRing(c, name), ep, 0, 2, n), WindowSum(ModuleRing(c, name), ep, 1, 2, n))
  {
    if n == 0 {
    } else {
      SumsAreWindow(c, ep, name, n - 1);
    }
  }

  /** What one event says about a module of a scope. */
  function Flagged(e: Event, k: Key, name: string): (h: seq<Obs>)
    ensures HistoryOf(h, 2)
  {
    match e.op
    case Decision(x, _) => if x == k then [Obs(e.epoch, [0, 0])] else []
    case ModuleFlag(x, m, fp) =>
      if x == k then [Obs(e.epoch, if m == name then [1, if fp then 1 else 0] else [0, 0])] else []
    case Prune => []
  }

  function FlagHistory(events: seq<Event>, k: Key, name: string): (h: seq<Obs>)
    ensures HistoryOf(h, 2)
  {
    if events == [] then [] else FlagHistory(events[..|events| - 1], k, name) + Flagged(events[|events| - 1], k, name)
  }

  /** The event is a pruning that finds no decision of the scope in its window. */
  predicate Clears(before: seq<Event>, e: Event, k: Key) {
    e.op.Prune? && HistorySample(before, k, e.epoch).1 == 0
  }

  /** The events since the last pruning that cleared the scope. */
  function SinceCleared(events: seq<Event>, k: Key): seq<Event> {
    if events == [] then []
    else
      var front, e := events[..|events| - 1], events[|events| - 1];
      if Clears(front, e, k) then [] else SinceCleared(front, k) + [e]
  }

  /** What a module's rate ought to be: that of the flags in the last window, since the
      scope was last cleared. */
  function HistoryRate(events: seq<Event>, k: Key, name: string, ep: int): real {
    var h := FlagHistory(SinceCleared(events, k), k, name);
    FlagRate(CountIn(h, ep, BUCKET_COUNT, 0, 2), CountIn(h, ep, BUCKET_COUNT, 1, 2))
  }

  // ---- Recording ----

  lemma {:induction false} RecordModules(d: Scopes, e: Event, k: Key, name: string)
    requires ScopesOk(d) && Flagged(e, k, name) != []
    ensures ModuleRing(ScopeOf(Step(d, e), k), name)
         == Observe(ModuleRing(ScopeOf(d, k), name), Flagged(e, k, name)[0], 2)
  {
    var c, o := ScopeOf(d, k), Flagged(e, k, name)[0];
    var i := Slot(e.epoch, BUCKET_COUNT);
    var got, want := ModuleRing(ScopeOf(Step(d, e), k), name), Observe(ModuleRing(c, name), o, 2);
    forall j | 0 <= j < BUCKET_COUNT ensures got[j] == want[j] {
      if j == i {
        SlotRecorded(c, e, k, name);
      }
    }
  }

  lemma {:induction false} SlotRecorded(c: Counts, e: Event, k: Key, name: string)
    requires CountsOk(c) && Flagged(e, k, name) != []
    ensures var i, o := Slot(e.epoch, BUCKET_COUNT), Flagged(e, k, name)[0];
      var after := if e.op.Decision? then AddDecision(c, e.epoch, e.op.blocked)
                   else AddModule(c, e.epoch, e.op.name, e.op.falsePositive);
      ModuleRing(after, name)[i].sums == Add(Held(ModuleRing(c, name)[i], e.epoch, 2), o.incs)
      && ModuleRing(after, name)[i].epoch == e.epoch
  {
  }

  lemma {:induction false} ClearedExactly(events: seq<Event>, e: Event, k: Key)
    requires Ordered(events, e.epoch) && e.op.Prune?
    ensures Clears(events, e, k) <==> !(k in Guardrails.Run(events) && HasTraffic(Guardrails.Run(events)[k], e.epoch))
  {
    hide CountIn, WindowSum, Ordered, HasTraffic;
    SampleIsHistory(events, k, e.epoch);
    if k in Guardrails.Run(events) {
      TrafficIsDecisions(Guardrails.Run(events)[k], e.epoch, BUCKET_COUNT);
    }
  }

  lemma {:induction false} TrafficIsDecisions(c: Counts, ep: int, n: nat)
    requires CountsOk(c) && n <= BUCKET_COUNT
    ensures WindowSum(c.ring, ep, 0, 2, n) > 0 <==>
      exists i :: 0 <= i < n && InWindow(c.ring[i], ep) && c.ring[i].sums[0] > 0
    ensures n == BUCKET_COUNT ==> (HasTraffic(c, ep) <==> WindowSum(c.ring, ep, 0, 2, n) > 0)
  {
    if n == 0 {
    } else {
      TrafficIsDecisions(c, ep, n - 1);
    }
  }

  // ---- Runs ----

  ghost predicate ModuleAgrees(d: Scopes, events: seq<Event>, k: Key, name: string, ep: int)
    requires ScopesOk(d)
  {
    Represents(ModuleRing(ScopeOf(d, k), name), FlagHistory(SinceCleared(events, k), k, name), ep, 2)
  }

  lemma {:induction false} NewModules(name: string, ep: int)
    ensures Represents(ModuleRing(NewCounts(), name), [], ep, 2)
  {
    assert Zeros(2) == [0, 0];
    assert ModuleRing(NewCounts(), name) == NewRing(BUCKET_COUNT, 2);
    NewRingRepresents(BUCKET_COUNT, 2, ep);
  }

  lemma {:induction false} PruneModules(events: seq<Event>, e: Event, k: Key, name: string)
    requires e.op.Prune? && Ordered(events, e.epoch) && ModuleAgrees(Guardrails.Run(events), events, k, name, e.epoch)
    ensures ModuleAgrees(Step(Guardrails.Run(events), e), events + [e], k, name, e.epoch)
  {
    hide Represents, Guardrails.Run, ModuleRing, Ordered, HasTraffic, FlagHistory;
    var d, all := Guardrails.Run(events), events + [e];
    assert all[..|events|] == events;
    ClearedExactly(events, e, k);
    if Clears(events, e, k) {
      assert ScopeOf(Step(d, e), k) == NewCounts();
      NoFlags(k, name);
      NewModules(name, e.epoch);
    } else {
      SinceMore(events, e, k, name);
      var h := FlagHistory(SinceCleared(events, k), k, name);
      assert h + [] == h;
    }
  }

  lemma {:induction false} NoFlags(k: Key, name: string)
    ensures FlagHistory([], k, name) == []
  {
  }

  lemma {:induction false} RecordedModules(events: seq<Event>, e: Event, k: Key, name: string)
    requires !e.op.Prune? && ModuleAgrees(Guardrails.Run(events), events, k, name, e.epoch)
    ensures ModuleAgrees(Step(Guardrails.Run(events), e), events + [e], k, name, e.epoch)
  {
    hide Represents, Guardrails.Run, ModuleRing, FlagHistory, SinceCleared;
    var d := Guardrails.Run(events);
    var ring, h, r := ModuleRing(ScopeOf(d, k), name), FlagHistory(SinceCleared(events, k), k, name),
      Flagged(e, k, name);
    SinceMore(events, e, k, name);
    if r == [] {
      assert h + r == h;
    } else {
      assert r == [r[0]];
      RecordModules(d, e, k, name);
      RingRecords(ring, h, r[0], e.epoch);
    }
  }

  lemma {:induction false} StepModules(events: seq<Event>, e: Event, k: Key, name: string)
    requires Ordered(events, e.epoch) && ModuleAgrees(Guardrails.Run(events), events, k, name, e.epoch)
    ensures ModuleAgrees(Step(Guardrails.Run(events), e), events + [e], k, name, e.epoch)
  {
    hide ModuleAgrees, Guardrails.Run, Step, Ordered;
    if e.op.Prune? {
      PruneModules(events, e, k, name);
    } else {
      RecordedModules(events, e, k, name);
    }
  }

  lemma {:induction false} RingRecords(ring: seq<Bucket>, h: seq<Obs>, o: Obs, ep: int)
    requires Represents(ring, h, ep, 2) && |o.incs| == 2 && o.epoch == ep && |ring| == BUCKET_COUNT
    ensures Represents(Observe(ring, o, 2), h + [o], ep, 2)
  {
    ObserveInWindow(ring, h, o, ep, 2);
  }

  lemma {:induction false} SinceMore(events: seq<Event>, e: Event, k: Key, name: string)
    requires !Clears(events, e, k)
    ensures FlagHistory(SinceCleared(events + [e], k), k, name)
         == FlagHistory(SinceCleared(events, k), k, name) + Flagged(e, k, name)
  {
    hide Clears, Flagged;
    assert (events + [e])[..|events|] == events;
    var since := SinceCleared(events, k);
    assert (since + [e])[..|since|] == since;
  }

  lemma {:induction false} RunModules(events: seq<Event>, k: Key, name: string, ep: int)
    requires Ordered(events, ep)
    ensures ModuleAgrees(Guardrails.Run(events), events, k, name, ep)
  {
    hide Represents, ModuleRing;
    if events == [] {
      NewModules(name, ep);
    } else {
      var front, e := events[..|events| - 1], events[|events| - 1];
      assert Ordered(front, e.epoch);
      hide Ordered;
      RunModules(front, k, name, e.epoch);
      StepModules(front, e, k, name);
      assert front + [e] == events;
      Advance(ModuleRing(ScopeOf(Guardrails.Run(events), k), name), FlagHistory(SinceCleared(events, k), k, name),
        e.epoch, ep, 2);
    }
  }

  /** On every run with a clock that never goes back, a module's rate is that of its flags
      in the last window since the last pruning that found the scope without decisions. */
  lemma {:induction false} ModuleRateIsHistory(events: seq<Event>, k: Key, name: string, ep: int)
    requires Ordered(events, ep)
    ensures ModuleRate(Guardrails.Run(events), k, name, ep) == HistoryRate(events, k, name, ep)
  {
    hide Represents, ModuleRing, Guardrails.Run, SinceCleared, CountIn, Ordered;
    RunModules(events, k, name, ep);
    var c := ScopeOf(Guardrails.Run(events), k);
    var ring, h := ModuleRing(c, name), FlagHistory(SinceCleared(events, k), k, name);
    WindowIsHistory(ring, h, ep, 0, 2);
    WindowIsHistory(ring, h, ep, 1, 2);
    SumsAreWindow(c, ep, name, BUCKET_COUNT);
    if k !in Guardrails.Run(events) {
      NewSums(ep, name, BUCKET_COUNT);
    }
  }

  lemma {:induction false} NewSums(ep: int, name: string, n: nat)
    requires n <= BUCKET_COUNT
    ensures ModuleSums(NewCounts(), ep, name, n) == (0, 0)
  {
    if n == 0 {
    } else {
      NewSums(ep, name, n - 1);
    }
  }
}
