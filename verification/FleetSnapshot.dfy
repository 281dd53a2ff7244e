/** The anomaly snapshot (server/data-plane/fleet/engine.go): the sorted scan of every
    shard and the per-tenant slice found by two binary searches. */
module FleetSnapshot {
  import opened Bytes
  import opened Paging
  import opened Sorting
  import opened Fleet
  import opened FleetAssess
  import opened FleetLru
  import opened FleetEngine

  datatype ScopeAnomaly = ScopeAnomaly(key: Key, assessment: Assessment)

  // ---- The sorted scan ----

  predicate KeyLess(a: Key, b: Key) {
    if a.tenant != b.tenant then LexLess(a.tenant, b.tenant)
    else if a.app != b.app then LexLess(a.app, b.app)
    else if a.build != b.build then LexLess(a.build, b.build)
    else LexLess(a.region, b.region)
  }

  predicate AnomalyLess(a: ScopeAnomaly, b: ScopeAnomaly) {
    KeyLess(a.key, b.key)
  }

  lemma {:induction false} LexFacts(a: Str, b: Str, c: Str)
    ensures !LexLess(a, a)
    ensures LexLess(a, b) && LexLess(b, c) ==> LexLess(a, c)
    ensures a != b ==> LexLess(a, b) || LexLess(b, a)
    ensures LexLess(a, b) ==> !LexLess(b, a)
  {
    LexIrreflexive(a);
    LexTotal(a, b);
    if LexLess(a, b) {
      if LexLess(b, c) {
        LexTransitive(a, b, c);
      }
      if LexLess(b, a) {
        LexTransitive(a, b, a);
      }
    }
  }

  lemma {:induction false} KeyFacts(a: Key, b: Key, c: Key)
    ensures !KeyLess(a, a)
    ensures KeyLess(a, b) && KeyLess(b, c) ==> KeyLess(a, c)
    ensures a != b ==> KeyLess(a, b) || KeyLess(b, a)
  {
    hide LexLess;
    LexFacts(a.tenant, b.tenant, c.tenant);
    LexFacts(a.app, b.app, c.app);
    LexFacts(a.build, b.build, c.build);
    LexFacts(a.region, b.region, c.region);
  }

  lemma {:induction false} AnomalyOrder()
    ensures StrictOrder(AnomalyLess)
  {
    hide KeyLess;
    forall x: ScopeAnomaly ensures !AnomalyLess(x, x) {
      KeyFacts(x.key, x.key, x.key);
    }
    forall x: ScopeAnomaly, y: ScopeAnomaly, z: ScopeAnomaly | AnomalyLess(x, y) && AnomalyLess(y, z)
      ensures AnomalyLess(x, z)
    {
      KeyFacts(x.key, y.key, z.key);
    }
  }

  /** A cohort of the engine that is anomalous at epoch `ep`. */
  ghost predicate IsAnomaly(c: Config, cap: nat, e: seq<ShardState>, ep: int, x: ScopeAnomaly)
    requires Valid(c) && EngineOk(c, cap, e)
  {
    exists i :: 0 <= i < |e| && x.key in e[i].cohorts
      && x.assessment == Assess(c, e[i].cohorts[x.key], ep) && x.assessment.anomalous
  }

  /** The anomalies among the first `n` cohorts of one shard's list. */
  ghost predicate InShard(c: Config, cap: nat, s: ShardState, ep: int, n: nat, x: ScopeAnomaly)
    requires Valid(c) && ShardOk(c, cap, s) && n <= |s.lru|
  {
    x.key in s.lru[..n] && x.assessment == Assess(c, s.cohorts[x.key], ep) && x.assessment.anomalous
  }

  function AnomalyKey(x: ScopeAnomaly): Key {
    x.key
  }

  /** Every cohort is in the shard its hash names. */
  ghost predicate Homed(hash: Key -> nat, e: seq<ShardState>) {
    forall i, k :: 0 <= i < |e| && k in e[i].lru ==> hash(k) % SHARD_COUNT == i
  }

  /** As every run of the engine leaves them. */
  lemma {:induction false} RunHomed(c: Config, cap: nat, hash: Key -> nat, ops: seq<FleetEngine.Op>)
    requires Valid(c) && cap > 0
    ensures Homed(hash, RunEngine(c, cap, hash, ops))
  {
    hide RunEngine, NoDuplicates, Fits;
    var e := RunEngine(c, cap, hash, ops);
    forall i, k | 0 <= i < |e| && k in e[i].lru ensures hash(k) % SHARD_COUNT == i {
      assert ShardOk(c, cap, e[i]);
      OwnShard(c, cap, hash, ops, i, k);
    }
  }

  method ScanShard(c: Config, ghost cap: nat, s: ShardState, ep: int) returns (out: seq<ScopeAnomaly>)
    requires Valid(c) && ShardOk(c, cap, s)
    ensures forall x :: x in out <==> InShard(c, cap, s, ep, |s.lru|, x)
    ensures UniqueKeys(AnomalyKey, out)
  {
    hide Assess, Fits;
    out := [];
    for n := 0 to |s.lru|
      invariant forall x :: x in out <==> InShard(c, cap, s, ep, n, x)
      invariant UniqueKeys(AnomalyKey, out)
    {
      var k := s.lru[n];
      var a := Assess(c, s.cohorts[k], ep);
      assert s.lru[..n + 1] == s.lru[..n] + [k];
      if a.anomalous {
        forall i | 0 <= i < |out| ensures out[i].key != k {
          assert out[i] in out;
          assert InShard(c, cap, s, ep, n, out[i]);
        }
        out := out + [ScopeAnomaly(k, a)];
      }
    }
  }

  lemma {:induction false} JoinUnique(a: seq<ScopeAnomaly>, b: seq<ScopeAnomaly>)
    requires UniqueKeys(AnomalyKey, a) && UniqueKeys(AnomalyKey, b)
    requires forall x, y :: x in a && y in b ==> x.key != y.key
    ensures UniqueKeys(AnomalyKey, a + b)
  {
    forall i, j | 0 <= i < j < |a + b| ensures AnomalyKey((a + b)[i]) != AnomalyKey((a + b)[j]) {
      if i < |a| <= j {
        assert a[i] in a && b[j - |a|] in b;
      }
    }
  }

  lemma {:induction false} PermutedUnique(a: seq<ScopeAnomaly>, b: seq<ScopeAnomaly>)
    requires UniqueKeys(AnomalyKey, a) && multiset(a) == multiset(b)
    ensures UniqueKeys(AnomalyKey, b)
  {
    forall i, j | 0 <= i < j < |b| ensures AnomalyKey(b[i]) != AnomalyKey(b[j]) {
      TwiceInPage(AnomalyKey, a, b, i, j);
    }
  }

  /** The loop of computeSnapshot over the shards. */
  method ScanShards(c: Config, ghost cap: nat, e: seq<ShardState>, ep: int, ghost hash: Key -> nat)
    returns (all: seq<ScopeAnomaly>)
    requires Valid(c) && EngineOk(c, cap, e)
    ensures forall x :: x in all <==> exists k :: 0 <= k < |e| && InShard(c, cap, e[k], ep, |e[k].lru|, x)
    ensures Homed(hash, e) ==> UniqueKeys(AnomalyKey, all)
  {
    hide Assess, Fits, NoDuplicates, UniqueKeys;
    all := [];
    NoneUnique();
    for i := 0 to |e|
      invariant forall x :: x in all <==> exists k :: 0 <= k < i && InShard(c, cap, e[k], ep, |e[k].lru|, x)
      invariant Homed(hash, e) ==> UniqueKeys(AnomalyKey, all)
    {
      var found := ScanShard(c, cap, e[i], ep);
      if Homed(hash, e) {
        forall x, y | x in all && y in found ensures x.key != y.key {
          var k :| 0 <= k < i && InShard(c, cap, e[k], ep, |e[k].lru|, x);
          assert InShard(c, cap, e[i], ep, |e[i].lru|, y);
          assert e[k].lru[..|e[k].lru|] == e[k].lru && e[i].lru[..|e[i].lru|] == e[i].lru;
          assert hash(x.key) % SHARD_COUNT == k && hash(y.key) % SHARD_COUNT == i;
        }
        JoinUnique(all, found);
      }
      all := all + found;
    }
  }

  lemma {:induction false} NoneUnique()
    ensures UniqueKeys(AnomalyKey, [])
  {
  }

  /** computeSnapshot: every anomalous cohort of every shard, and nothing else, in key
      order, and once each when cohorts live in their own shards, as they always do. Each
      shard is locked in its turn: `e[i]` is shard `i` as it was then. */
  method ComputeSnapshot(c: Config, ghost cap: nat, e: seq<ShardState>, ep: int, ghost hash: Key -> nat)
    returns (out: seq<ScopeAnomaly>)
    requires Valid(c) && EngineOk(c, cap, e)
    ensures forall x :: x in out <==> IsAnomaly(c, cap, e, ep, x)
    ensures Sorted(AnomalyLess, out) && (Homed(hash, e) ==> UniqueKeys(AnomalyKey, out))
  {
    hide Assess, Fits, NoDuplicates, UniqueKeys, Homed;
    var all := ScanShards(c, cap, e, ep, hash);
    AnomalyOrder();
    SortSorts(AnomalyLess, all);
    out := Sort(AnomalyLess, all);
    forall x ensures x in out <==> x in all {
      assert x in multiset(out) <==> x in multiset(all);
    }
    forall x ensures x in all <==> IsAnomaly(c, cap, e, ep, x) {
      ShardAnomalies(c, cap, e, ep, x);
    }
    if Homed(hash, e) {
      PermutedUnique(all, out);
    }
  }

  lemma {:induction false} ShardAnomalies(c: Config, cap: nat, e: seq<ShardState>, ep: int, x: ScopeAnomaly)
    requires Valid(c) && EngineOk(c, cap, e)
    ensures IsAnomaly(c, cap, e, ep, x) <==> exists k :: 0 <= k < |e| && InShard(c, cap, e[k], ep, |e[k].lru|, x)
  {
    hide Assess, Fits, NoDuplicates;
    forall k | 0 <= k < |e|
      ensures e[k].lru[..|e[k].lru|] == e[k].lru
    {
    }
  }

  // ---- The tenant slice ----

  /** sort.Search for the first entry whose tenant is at least (or, when `strict`, above) `tenant`. */
  method Search(all: seq<ScopeAnomaly>, tenant: Str, strict: bool) returns (r: nat)
    requires Sorted(AnomalyLess, all)
    ensures r <= |all|
    ensures forall i :: 0 <= i < r ==> !Reached(all[i], tenant, strict)
    ensures forall i :: r <= i < |all| ==> Reached(all[i], tenant, strict)
  {
    hide LexLess, Reached, Sorted;
    var lo, hi := 0, |all|;
    while lo < hi
      invariant 0 <= lo <= hi <= |all|
      invariant forall i :: 0 <= i < lo ==> !Reached(all[i], tenant, strict)
      invariant forall i :: hi <= i < |all| ==> Reached(all[i], tenant, strict)
    {
      var mid := (lo + hi) / 2;
      ReachedMonotone(all, tenant, strict, mid);
      if !Reached(all[mid], tenant, strict) {
        lo := mid + 1;
      } else {
        hi := mid;
      }
    }
    r := lo;
  }

  predicate Reached(x: ScopeAnomaly, tenant: Str, strict: bool) {
    if strict then LexLess(tenant, x.key.tenant) else !LexLess(x.key.tenant, tenant)
  }

  lemma {:induction false} ReachedMonotone(all: seq<ScopeAnomaly>, tenant: Str, strict: bool, m: nat)
    requires Sorted(AnomalyLess, all) && m < |all|
    ensures Reached(all[m], tenant, strict) ==> forall i :: m <= i < |all| ==> Reached(all[i], tenant, strict)
    ensures !Reached(all[m], tenant, strict) ==> forall i :: 0 <= i <= m ==> !Reached(all[i], tenant, strict)
  {
    hide LexLess;
    forall i, j | 0 <= i < j < |all|
      ensures Reached(all[i], tenant, strict) ==> Reached(all[j], tenant, strict)
    {
      var a, b := all[i].key.tenant, all[j].key.tenant;
      assert !AnomalyLess(all[j], all[i]);
      LexFacts(b, a, b);
      LexFacts(a, b, tenant);
      LexFacts(tenant, a, b);
      LexFacts(b, tenant, b);
    }
  }

  function OfTenant(all: seq<ScopeAnomaly>, tenant: Str): seq<ScopeAnomaly> {
    Filter((x: ScopeAnomaly) => x.key.tenant == tenant, all)
  }

  /** TenantSnapshot: the two binary searches cut out exactly the tenant's anomalies. */
  method TenantSnapshot(all: seq<ScopeAnomaly>, tenant: Str) returns (out: seq<ScopeAnomaly>)
    requires Sorted(AnomalyLess, all)
    ensures out == OfTenant(all, tenant)
  {
    var lo := Search(all, tenant, false);
    var hi := Search(all, tenant, true);
    TenantRun(all, tenant, lo, hi);
    if lo >= hi {
      return [];
    }
    out := all[lo..hi];
  }

  lemma {:induction false} TenantRun(all: seq<ScopeAnomaly>, tenant: Str, lo: nat, hi: nat)
    requires lo <= |all| && hi <= |all|
    requires forall i :: 0 <= i < |all| ==> (Reached(all[i], tenant, false) <==> i >= lo)
    requires forall i :: 0 <= i < |all| ==> (Reached(all[i], tenant, true) <==> i >= hi)
    ensures OfTenant(all, tenant) == if lo >= hi then [] else all[lo..hi]
  {
    hide OfTenant, Reached, LexLess;
    forall i | 0 <= i < |all| ensures all[i].key.tenant == tenant <==> lo <= i < hi {
      TenantAt(all[i], tenant);
    }
    TenantSlice(all, tenant, lo, hi);
  }

  lemma {:induction false} TenantAt(x: ScopeAnomaly, tenant: Str)
    ensures x.key.tenant == tenant <==> Reached(x, tenant, false) && !Reached(x, tenant, true)
  {
    hide LexLess;
    LexFacts(tenant, x.key.tenant, tenant);
  }

  lemma {:induction false} TenantSlice(all: seq<ScopeAnomaly>, tenant: Str, lo: nat, hi: nat)
    requires lo <= |all| && hi <= |all|
    requires forall i :: 0 <= i < |all| ==> (all[i].key.tenant == tenant <==> lo <= i < hi)
    ensures OfTenant(all, tenant) == if lo >= hi then [] else all[lo..hi]
  {
    var p := (x: ScopeAnomaly) => x.key.tenant == tenant;
    if lo >= hi {
      FilterNone(p, all);
    } else {
      assert all == all[..lo] + all[lo..hi] + all[hi..];
      FilterConcat(p, all[..lo] + all[lo..hi], all[hi..]);
      FilterConcat(p, all[..lo], all[lo..hi]);
      FilterNone(p, all[..lo]);
      FilterAll(p, all[lo..hi]);
      FilterNone(p, all[hi..]);
    }
  }
}
