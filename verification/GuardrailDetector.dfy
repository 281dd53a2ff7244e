/** The guardrail detector as the server runs it
    (server/data-plane/guardrails/detector.go): each scope an array of buckets that are
    reset and bumped in place, proved against the scopes of `Guardrails`. */
module GuardrailDetector {
  import opened WindowRing
  import opened Guardrails
  import opened Sorting

  /** A bucket as the source keeps it. */
  datatype LiveBucket = LiveBucket(epoch: int, total: nat, blocked: nat, modules: map<string, ModuleCounts>)

  function RingOf(s: seq<LiveBucket>): (ring: seq<Bucket>)
    ensures |ring| == |s| && forall i :: 0 <= i < |s| ==> ring[i] == Bucket(s[i].epoch, [s[i].total, s[i].blocked])
  {
    seq(|s|, i requires 0 <= i < |s| => Bucket(s[i].epoch, [s[i].total, s[i].blocked]))
  }

  function ModulesOf(s: seq<LiveBucket>): (modules: seq<map<string, ModuleCounts>>)
    ensures |modules| == |s| && forall i :: 0 <= i < |s| ==> modules[i] == s[i].modules
  {
    seq(|s|, i requires 0 <= i < |s| => s[i].modules)
  }

  function CountsOf(s: seq<LiveBucket>): (c: Counts)
    ensures |s| == BUCKET_COUNT ==> CountsOk(c)
  {
    Counts(RingOf(s), ModulesOf(s))
  }

  /** The bucket liveBucket hands out: as it is for its own epoch, empty for another. */
  function Renewed(b: LiveBucket, epoch: int): LiveBucket {
    if b.epoch == epoch then b else LiveBucket(epoch, 0, 0, map[])
  }

  lemma {:induction false} DecisionIsAdd(s: seq<LiveBucket>, epoch: int, blocked: bool)
    requires |s| == BUCKET_COUNT
    ensures var i := Slot(epoch, BUCKET_COUNT); var b := Renewed(s[i], epoch);
      CountsOf(s[i := b.(total := b.total + 1, blocked := b.blocked + if blocked then 1 else 0)])
      == AddDecision(CountsOf(s), epoch, blocked)
  {
    var i := Slot(epoch, BUCKET_COUNT);
    var b := Renewed(s[i], epoch);
    var t := s[i := b.(total := b.total + 1, blocked := b.blocked + if blocked then 1 else 0)];
    var want := AddDecision(CountsOf(s), epoch, blocked);
    assert RingOf(t)[i].sums == want.ring[i].sums;
    assert RingOf(t) == want.ring;
    assert ModulesOf(t) == want.modules;
  }

  lemma {:induction false} ModuleIsAdd(s: seq<LiveBucket>, epoch: int, name: string, falsePositive: bool)
    requires |s| == BUCKET_COUNT
    ensures var i := Slot(epoch, BUCKET_COUNT); var b := Renewed(s[i], epoch);
      var mc := if name in b.modules then b.modules[name] else ModuleCounts(0, 0);
      var bumped := ModuleCounts(mc.flagged + 1, mc.falsePositive + if falsePositive then 1 else 0);
      CountsOf(s[i := b.(modules := b.modules[name := bumped])]) == AddModule(CountsOf(s), epoch, name, falsePositive)
  {
    var i := Slot(epoch, BUCKET_COUNT);
    var b := Renewed(s[i], epoch);
    var mc := if name in b.modules then b.modules[name] else ModuleCounts(0, 0);
    var bumped := ModuleCounts(mc.flagged + 1, mc.falsePositive + if falsePositive then 1 else 0);
    var t := s[i := b.(modules := b.modules[name := bumped])];
    var want := AddModule(CountsOf(s), epoch, name, falsePositive);
    assert RingOf(t)[i].sums == want.ring[i].sums;
    assert RingOf(t) == want.ring;
    assert ModulesOf(t) == want.modules;
  }

  /** The module names of a scope. */
  function Names(c: Counts): set<string> {
    set i, name | 0 <= i < |c.modules| && name in c.modules[i] :: name
  }

  /** The false-positive rate of every module flagged in the window. */
  function Rates(c: Counts, ep: int): map<string, real>
    requires CountsOk(c)
  {
    map name | name in Names(c) && ModuleSums(c, ep, name, BUCKET_COUNT).0 > 0 ::
      FlagRate(ModuleSums(c, ep, name, BUCKET_COUNT).0, ModuleSums(c, ep, name, BUCKET_COUNT).1)
  }

  lemma {:induction false} FlaggedIsNamed(c: Counts, ep: int, name: string, n: nat)
    requires CountsOk(c) && n <= BUCKET_COUNT && ModuleSums(c, ep, name, n).0 > 0
    ensures name in Names(c)
  {
    if name !in c.modules[n - 1] {
      FlaggedIsNamed(c, ep, name, n - 1);
    }
  }

  function CountOf(m: map<string, nat>, name: string): nat {
    if name in m then m[name] else 0
  }

  /** One scope's buckets, updated in place. */
  class ScopeCounts {
    const buckets: array<LiveBucket>

    ghost predicate Valid() {
      buckets.Length == BUCKET_COUNT
    }

    ghost function Value(): (c: Counts)
      reads buckets
      ensures Valid() ==> CountsOk(c)
    {
      CountsOf(buckets[..])
    }

    constructor ()
      ensures Valid() && Value() == NewCounts() && fresh(buckets)
    {
      buckets := new LiveBucket[BUCKET_COUNT](i => LiveBucket(0, 0, 0, map[]));
      new;
      assert Zeros(2) == [0, 0];
      assert RingOf(buckets[..]) == NewCounts().ring && ModulesOf(buckets[..]) == NewCounts().modules;
    }

    /** liveBucket: the slot of the epoch, reset when it holds another one. */
    method LiveSlot(epoch: int) returns (i: nat)
      requires Valid()
      modifies buckets
      ensures i == Slot(epoch, BUCKET_COUNT)
      ensures buckets[..] == old(buckets[..])[i := Renewed(old(buckets[..])[i], epoch)]
    {
      i := Slot(epoch, BUCKET_COUNT);
      if buckets[i].epoch != epoch {
        buckets[i] := buckets[i].(epoch := epoch);
        buckets[i] := buckets[i].(total := 0);
        buckets[i] := buckets[i].(blocked := 0);
        buckets[i] := buckets[i].(modules := map[]);
      }
    }

    method RecordDecision(epoch: int, blocked: bool)
      requires Valid()
      modifies buckets
      ensures Value() == AddDecision(old(Value()), epoch, blocked)
    {
      ghost var was := buckets[..];
      var i := LiveSlot(epoch);
      buckets[i] := buckets[i].(total := buckets[i].total + 1);
      if blocked {
        buckets[i] := buckets[i].(blocked := buckets[i].blocked + 1);
      }
      var b := Renewed(was[i], epoch);
      assert buckets[..] == was[i := b.(total := b.total + 1, blocked := b.blocked + if blocked then 1 else 0)];
      DecisionIsAdd(was, epoch, blocked);
    }

    method RecordModule(epoch: int, name: string, falsePositive: bool)
      requires Valid()
      modifies buckets
      ensures Value() == AddModule(old(Value()), epoch, name, falsePositive)
    {
      ghost var was := buckets[..];
      var i := LiveSlot(epoch);
      var mc := if name in buckets[i].modules then buckets[i].modules[name] else ModuleCounts(0, 0);
      mc := mc.(flagged := mc.flagged + 1);
      if falsePositive {
        mc := mc.(falsePositive := mc.falsePositive + 1);
      }
      buckets[i] := buckets[i].(modules := buckets[i].modules[name := mc]);
      var b := Renewed(was[i], epoch);
      assert buckets[..] == was[i := b.(modules := b.modules[name := mc])];
      ModuleIsAdd(was, epoch, name, falsePositive);
    }

    method HasTraffic(epoch: int) returns (yes: bool)
      requires Valid()
      ensures yes <==> Guardrails.HasTraffic(Value(), epoch)
    {
      var minEpoch := epoch - (BUCKET_COUNT - 1);
      for i := 0 to BUCKET_COUNT
        invariant forall j :: 0 <= j < i ==> !(InWindow(Value().ring[j], epoch) && Value().ring[j].sums[0] > 0)
      {
        var b := buckets[i];
        assert Value().ring[i] == Bucket(b.epoch, [b.total, b.blocked]);
        if b.epoch >= minEpoch && b.epoch <= epoch && b.total > 0 {
          return true;
        }
      }
      yes := false;
    }

    /** aggregate: the totals of the window, and the rate of every module flagged in it. */
    method Aggregate(epoch: int) returns (total: nat, blocked: nat, fp: map<string, real>)
      requires Valid()
      ensures total == Decisions(Value(), epoch) && blocked == Blocked(Value(), epoch) && fp == Rates(Value(), epoch)
    {
      var flagged: map<string, nat>, falsePos: map<string, nat>;
      total, blocked := Totals(epoch);
      flagged, falsePos := Flags(epoch);
      fp := map[];
      var left := flagged.Keys;
      ghost var c := Value();
      while left != {}
        invariant left <= flagged.Keys
        invariant forall name :: name in fp <==> name in flagged && name !in left && flagged[name] > 0
        invariant forall name :: name in fp ==> fp[name] == FlagRate(flagged[name], CountOf(falsePos, name))
        decreases left
      {
        var name :| name in left;
        left := left - {name};
        if flagged[name] > 0 {
          fp := fp[name := CountOf(falsePos, name) as real / flagged[name] as real];
        }
      }
      hide ModuleSums, Names;
      forall name ensures name in fp <==> name in Rates(c, epoch) {
        if ModuleSums(c, epoch, name, BUCKET_COUNT).0 > 0 {
          FlaggedIsNamed(c, epoch, name, BUCKET_COUNT);
        }
      }
    }

    method Totals(epoch: int) returns (total: nat, blocked: nat)
      requires Valid()
      ensures total == Decisions(Value(), epoch) && blocked == Blocked(Value(), epoch)
    {
      total, blocked := 0, 0;
      ghost var c := Value();
      for i := 0 to BUCKET_COUNT
        invariant total == WindowSum(c.ring, epoch, 0, 2, i) && blocked == WindowSum(c.ring, epoch, 1, 2, i)
      {
        var b := buckets[i];
        assert c.ring[i] == Bucket(b.epoch, [b.total, b.blocked]);
        if !(b.epoch < epoch - (BUCKET_COUNT - 1) || b.epoch > epoch) {
          total := total + b.total;
          blocked := blocked + b.blocked;
        }
      }
    }

    /** The flags and false positives of every module, summed over the window. */
    method Flags(epoch: int) returns (flagged: map<string, nat>, falsePos: map<string, nat>)
      requires Valid()
      ensures forall name ::
        (CountOf(flagged, name), CountOf(falsePos, name)) == ModuleSums(Value(), epoch, name, BUCKET_COUNT)
    {
      flagged, falsePos := map[], map[];
      ghost var c := Value();
      for i := 0 to BUCKET_COUNT
        invariant forall name :: (CountOf(flagged, name), CountOf(falsePos, name)) == ModuleSums(c, epoch, name, i)
      {
        var b := buckets[i];
        assert c.ring[i].epoch == b.epoch && c.modules[i] == b.modules;
        if !(b.epoch < epoch - (BUCKET_COUNT - 1) || b.epoch > epoch) {
          flagged, falsePos := AddFlags(b.modules, flagged, falsePos);
        }
      }
    }
  }

  /** The inner loop of aggregate over one bucket's modules. */
  method AddFlags(modules: map<string, ModuleCounts>, flagged: map<string, nat>, falsePos: map<string, nat>)
    returns (f: map<string, nat>, p: map<string, nat>)
    ensures forall name ::
      && CountOf(f, name) == CountOf(flagged, name) + (if name in modules then modules[name].flagged else 0)
      && CountOf(p, name) == CountOf(falsePos, name) + (if name in modules then modules[name].falsePositive else 0)
  {
    f, p := flagged, falsePos;
    var left := modules.Keys;
    while left != {}
      invariant left <= modules.Keys
      invariant forall name ::
        && CountOf(f, name) == CountOf(flagged, name)
             + (if name in modules && name !in left then modules[name].flagged else 0)
        && CountOf(p, name) == CountOf(falsePos, name)
             + (if name in modules && name !in left then modules[name].falsePositive else 0)
      decreases left
    {
      var name :| name in left;
      left := left - {name};
      f := f[name := CountOf(f, name) + modules[name].flagged];
      p := p[name := CountOf(p, name) + modules[name].falsePositive];
    }
  }

  datatype Alert = Alert(key: Key, blockRate: real, total: nat, blocked: nat, moduleRates: map<string, real>)

  /** The alert a due scope must raise. */
  function AlertFor(k: Key, c: Counts, ep: int): Alert
    requires CountsOk(c)
  {
    Alert(k, RateOf(Blocked(c, ep), Decisions(c, ep)).0, Decisions(c, ep), Blocked(c, ep), Rates(c, ep))
  }

  ghost predicate Expected(d: Scopes, a: Alert, ep: int, min: nat, threshold: real)
    requires ScopesOk(d) && min > 0
  {
    a.key in d && Due(d[a.key], ep, min, threshold) && a == AlertFor(a.key, d[a.key], ep)
  }

  predicate Worse(a: Alert, b: Alert) {
    a.blockRate > b.blockRate
  }

  lemma {:induction false} DecisionStep(d: Scopes, touched: Scopes, k: Key, blocked: bool, epoch: int)
    requires ScopesOk(d) && touched == d[k := ScopeOf(d, k)] && CountsOk(touched[k])
    ensures touched[k := AddDecision(touched[k], epoch, blocked)] == Step(d, Event(epoch, Decision(k, blocked)))
  {
    hide AddDecision;
  }

  lemma {:induction false} ModuleStep(d: Scopes, touched: Scopes, k: Key, name: string, falsePositive: bool, epoch: int)
    requires ScopesOk(d) && touched == d[k := ScopeOf(d, k)] && CountsOk(touched[k])
    ensures touched[k := AddModule(touched[k], epoch, name, falsePositive)]
         == Step(d, Event(epoch, ModuleFlag(k, name, falsePositive)))
  {
    hide AddModule;
  }

  class Detector {
    const threshold: real
    var scopes: map<Key, ScopeCounts>

    /** No two scopes share buckets. */
    ghost predicate Valid()
      reads this, scopes.Values
    {
      && (forall k :: k in scopes ==> scopes[k].Valid())
      && (forall j, k :: j in scopes && k in scopes && j != k ==> scopes[j].buckets != scopes[k].buckets)
    }

    ghost function Arrays(): set<object>
      reads this, scopes.Values
    {
      set k | k in scopes :: scopes[k].buckets
    }

    ghost function View(): (d: Scopes)
      requires Valid()
      reads this, scopes.Values, Arrays()
      ensures ScopesOk(d)
    {
      map k | k in scopes :: scopes[k].Value()
    }

    constructor (t: real)
      ensures Valid() && View() == map[] && threshold == (if t <= 0.0 then 0.05 else t)
    {
      threshold := if t <= 0.0 then 0.05 else t;
      scopes := map[];
    }

    /** scope: the scope of the key, created when it is not there. */
    method Scope(k: Key) returns (c: ScopeCounts)
      requires Valid()
      modifies this
      ensures Valid() && k in scopes && scopes[k] == c
      ensures fresh(Arrays() - old(Arrays())) && (c.buckets in old(Arrays()) || fresh(c.buckets))
      ensures View() == old(View())[k := ScopeOf(old(View()), k)]
    {
      hide CountsOf, NewCounts;
      ghost var was := View();
      if k in scopes {
        c := scopes[k];
      } else {
        c := new ScopeCounts();
        scopes := scopes[k := c];
      }
      assert View() == was[k := ScopeOf(was, k)];
    }

    /** Only the buckets of one scope changed. */
    twostate lemma OneChanged(k: Key)
      requires old(Valid()) && scopes == old(scopes) && k in scopes
      requires forall j :: j in scopes && j != k ==> scopes[j].buckets[..] == old(scopes[j].buckets[..])
      ensures Valid() && View() == old(View())[k := scopes[k].Value()]
    {
      hide CountsOf;
    }

    method RecordDecision(k: Key, blocked: bool, epoch: int)
      requires Valid()
      modifies this, Arrays()
      ensures Valid() && fresh(Arrays() - old(Arrays()))
      ensures View() == Step(old(View()), Event(epoch, Decision(k, blocked)))
    {
      hide AddDecision, AddModule, CountsOf, NewCounts, Step, ScopeOf;
      var c := Scope(k);
      ghost var was := View();
      label Before:
      c.RecordDecision(epoch, blocked);
      OneChanged@Before(k);
      DecisionStep(old(View()), was, k, blocked, epoch);
    }

    method RecordModule(k: Key, name: string, falsePositive: bool, epoch: int)
      requires Valid()
      modifies this, Arrays()
      ensures Valid() && fresh(Arrays() - old(Arrays()))
      ensures View() == Step(old(View()), Event(epoch, ModuleFlag(k, name, falsePositive)))
    {
      hide AddDecision, AddModule, CountsOf, NewCounts, Step, ScopeOf;
      var c := Scope(k);
      ghost var was := View();
      label Before:
      c.RecordModule(epoch, name, falsePositive);
      OneChanged@Before(k);
      ModuleStep(old(View()), was, k, name, falsePositive, epoch);
    }

    method Sample(k: Key, epoch: int) returns (blockRate: real, total: nat)
      requires Valid()
      ensures (blockRate, total) == SampleOf(View(), k, epoch)
    {
      if k !in scopes {
        return 0.0, 0;
      }
      var n, blocked, _ := scopes[k].Aggregate(epoch);
      total := n;
      blockRate := if total == 0 then 0.0 else blocked as real / total as real;
    }

    method ModuleFalsePositiveRate(k: Key, name: string, epoch: int) returns (rate: real)
      requires Valid()
      ensures rate == ModuleRate(View(), k, name, epoch)
    {
      if k !in scopes {
        return 0.0;
      }
      var _, _, fp := scopes[k].Aggregate(epoch);
      ghost var c := scopes[k].Value();
      if ModuleSums(c, epoch, name, BUCKET_COUNT).0 > 0 {
        FlaggedIsNamed(c, epoch, name, BUCKET_COUNT);
      }
      rate := if name in fp then fp[name] else 0.0;
    }

    /** What one round of Evaluate makes of a scope: whether it is kept, and its alert. */
    method Judge(k: Key, min: nat, epoch: int) returns (keep: bool, alert: seq<Alert>)
      requires Valid() && k in scopes && min > 0
      ensures var c := View()[k];
        && keep == Guardrails.HasTraffic(c, epoch)
        && alert == if Due(c, epoch, min, threshold) then [AlertFor(k, c, epoch)] else []
    {
      hide WindowSum, ModuleSums, CountsOf, Rates;
      var s := scopes[k];
      ghost var c := View()[k];
      assert c == s.Value();
      var total, blocked, fp := s.Aggregate(epoch);
      NoTrafficNoDecisions(c, epoch, BUCKET_COUNT);
      keep := s.HasTraffic(epoch);
      alert := [];
      if keep && total >= min {
        var rate := blocked as real / total as real;
        if rate > threshold {
          alert := [Alert(k, rate, total, blocked, fp)];
        }
      }
    }

    method Delete(k: Key)
      requires Valid()
      modifies this
      ensures Valid() && Arrays() <= old(Arrays()) && View() == old(View()) - {k}
    {
      hide CountsOf;
      scopes := scopes - {k};
    }

    /** One round of Evaluate: the scope's alert, if any, and its pruning, if due. */
    method Round(k: Key, min: nat, epoch: int, ghost d: Scopes, ghost left: set<Key>) returns (alert: seq<Alert>)
      requires Valid() && min > 0 && ScopesOk(d) && k in left && k in d && View() == Pruned(d, left, epoch)
      modifies this
      ensures Valid() && Arrays() <= old(Arrays()) && View() == Pruned(d, left - {k}, epoch)
      ensures alert == if Due(d[k], epoch, min, threshold) then [AlertFor(k, d[k], epoch)] else []
    {
      hide WindowSum, Guardrails.HasTraffic, Due, AlertFor, CountsOf, Pruned;
      PrunedStep(d, left, k, epoch);
      var keep, found := Judge(k, min, epoch);
      alert := found;
      if !keep {
        Delete(k);
      }
    }

    /** The loop of Evaluate: collects the alerts and prunes the empty scopes as it goes. */
    method Collect(min: nat, epoch: int) returns (alerts: seq<Alert>)
      requires Valid() && min > 0
      modifies this
      ensures Valid() && Arrays() <= old(Arrays()) && View() == Step(old(View()), Event(epoch, Prune))
      ensures forall a :: multiset(alerts)[a] == if Expected(old(View()), a, epoch, min, threshold) then 1 else 0
    {
      hide WindowSum, Guardrails.HasTraffic, Due, AlertFor, Expected, CountsOf, Pruned, Owed;
      alerts := [];
      ghost var d := View();
      var left := scopes.Keys;
      NothingOwed(d, left, epoch, min, threshold);
      while left != {}
        invariant Valid() && left <= d.Keys && Arrays() <= old(Arrays()) && View() == Pruned(d, left, epoch)
        invariant forall a :: multiset(alerts)[a] == Owed(d, a, left, epoch, min, threshold)
        decreases left
      {
        var k :| k in left;
        var alert := Round(k, min, epoch, d, left);
        forall a ensures multiset(alerts + alert)[a] == Owed(d, a, left - {k}, epoch, min, threshold) {
          OwedStep(d, a, left, k, alert, epoch, min, threshold);
        }
        left := left - {k};
        alerts := alerts + alert;
      }
      AllOwed(d, epoch, min, threshold);
    }

    /** Evaluate: exactly one alert per scope that is due, worst first. */
    method Evaluate(minSamples: int, epoch: int) returns (alerts: seq<Alert>)
      requires Valid()
      modifies this
      ensures Valid() && Arrays() <= old(Arrays()) && View() == Step(old(View()), Event(epoch, Prune))
      ensures var min := if minSamples <= 0 then 20 else minSamples;
        forall a :: multiset(alerts)[a] == if Expected(old(View()), a, epoch, min, threshold) then 1 else 0
      ensures forall i, j :: 0 <= i < j < |alerts| ==> alerts[i].blockRate >= alerts[j].blockRate
    {
      hide Step, Expected;
      var min := if minSamples <= 0 then 20 else minSamples;
      var found := Collect(min, epoch);
      SortSorts(Worse, found);
      alerts := Sort(Worse, found);
    }
  }

  /** The scopes once all but those `left` were visited. */
  ghost function Pruned(d: Scopes, left: set<Key>, ep: int): Scopes
    requires ScopesOk(d)
  {
    map k | k in d && (k in left || Guardrails.HasTraffic(d[k], ep)) :: d[k]
  }

  lemma {:induction false} NothingOwed(d: Scopes, left: set<Key>, ep: int, min: nat, threshold: real)
    requires ScopesOk(d) && min > 0 && left == d.Keys
    ensures forall a :: Owed(d, a, left, ep, min, threshold) == 0
    ensures Pruned(d, left, ep) == d
  {
  }

  lemma {:induction false} PrunedStep(d: Scopes, left: set<Key>, k: Key, ep: int)
    requires ScopesOk(d) && k in left && k in d
    ensures k in Pruned(d, left, ep) && Pruned(d, left, ep)[k] == d[k]
    ensures Pruned(d, left - {k}, ep) == if Guardrails.HasTraffic(d[k], ep) then Pruned(d, left, ep)
      else Pruned(d, left, ep) - {k}
  {
    hide Guardrails.HasTraffic;
  }

  lemma {:induction false} AllOwed(d: Scopes, ep: int, min: nat, threshold: real)
    requires ScopesOk(d) && min > 0
    ensures forall a :: Owed(d, a, {}, ep, min, threshold) == if Expected(d, a, ep, min, threshold) then 1 else 0
    ensures Pruned(d, {}, ep) == Step(d, Event(ep, Prune))
  {
    hide Guardrails.HasTraffic, Expected;
  }

  /** How often the alert belongs in the list while the scopes `left` are still to come. */
  ghost function Owed(d: Scopes, a: Alert, left: set<Key>, ep: int, min: nat, threshold: real): nat
    requires ScopesOk(d) && min > 0
  {
    if a.key !in left && Expected(d, a, ep, min, threshold) then 1 else 0
  }

  lemma {:induction false} OwedStep(
    d: Scopes, a: Alert, left: set<Key>, k: Key, alert: seq<Alert>, ep: int, min: nat, threshold: real)
    requires ScopesOk(d) && min > 0 && k in left && k in d
    requires alert == if Due(d[k], ep, min, threshold) then [AlertFor(k, d[k], ep)] else []
    ensures Owed(d, a, left, ep, min, threshold) + multiset(alert)[a] == Owed(d, a, left - {k}, ep, min, threshold)
  {
    hide Due;
  }
}
