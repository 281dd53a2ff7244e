/** The sharded engine (server/data-plane/fleet/engine.go): every cohort lives in the
    shard its hash names, each shard keeps a bounded recency list, and a cohort's state
    depends on nothing but its own arrivals since it was last created. */
module FleetEngine {
  import opened WindowRing
  import opened Fleet
  import opened FleetAssess
  import opened FleetLru

  const SHARD_COUNT: nat := 256

  function MaxScopesPerShard(maxScopes: int): (n: nat)
    requires maxScopes > 0
    ensures n >= 1 && n * SHARD_COUNT <= (if maxScopes > SHARD_COUNT then maxScopes else SHARD_COUNT)
  {
    var per := maxScopes / SHARD_COUNT;
    if per < 1 then 1 else per
  }

  /** The shard as the source keeps it: a map and a recency list over the same cohorts. */
  class Shard {
    const cfg: Config
    const cap: nat
    var byKey: map<Key, Scope>
    var lru: seq<Key>

    ghost predicate Valid()
      reads this
    {
      && Fleet.Valid(cfg) && cap > 0
      && NoDuplicates(lru) && |lru| <= cap
      && (forall k :: k in byKey <==> k in lru)
      && (forall k :: k in byKey ==> Fits(cfg, byKey[k]))
    }

    ghost function Value(): ShardState
      reads this
    {
      ShardState(lru, byKey)
    }

    constructor (c: Config, n: nat)
      requires Fleet.Valid(c) && n > 0
      ensures Valid() && cfg == c && cap == n && Value() == ShardState([], map[])
    {
      cfg, cap, byKey, lru := c, n, map[], [];
    }

    /** list.MoveToFront of a resident cohort. */
    method MoveToFront(k: Key)
      requires Valid() && k in byKey
      modifies this`lru
      ensures Valid() && lru == Touch(old(lru), k, cap)
    {
      hide Fits, Fleet.Valid, Remove;
      ghost var i :| 0 <= i < |lru| && lru[i] == k;
      RemovePresent(lru, k, i);
      StepOk(lru, Get(k), cap);
      lru := [k] + Remove(lru, k);
    }

    /** Drops cohorts from the back until the list fits. */
    method Evict()
      requires lru != [] && cap > 0 && NoDuplicates(lru) && forall x :: x in byKey <==> x in lru
      modifies this
      ensures lru == Take(old(lru), cap) && (forall x :: x in byKey <==> x in lru)
      ensures forall x :: x in byKey ==> x in old(byKey) && byKey[x] == old(byKey)[x]
    {
      hide NoDuplicates;
      while |lru| > cap
        invariant |lru| <= |old(lru)| && lru == old(lru)[..|lru|] && NoDuplicates(lru)
        invariant |lru| >= cap || lru == old(lru)
        invariant forall x :: x in byKey <==> x in lru
        invariant forall x :: x in byKey ==> x in old(byKey) && byKey[x] == old(byKey)[x]
      {
        var back := lru[|lru| - 1];
        DropBack(byKey, lru, byKey - {back}, lru[..|lru| - 1]);
        byKey := byKey - {back};
        lru := lru[..|lru| - 1];
      }
    }

    /** getOrCreateLocked */
    method GetOrCreateLocked(k: Key) returns (sc: Scope)
      requires Valid()
      modifies this
      ensures Valid() && lru == Touch(old(lru), k, cap) && k in byKey
      ensures sc == byKey[k] == Lookup(cfg, old(Value()), k)
      ensures forall x :: x in byKey && x != k ==> x in old(byKey) && byKey[x] == old(byKey)[x]
    {
      if k in byKey {
        MoveToFront(k);
        return byKey[k];
      }
      hide Fleet.Valid, Remove, NewScope;
      sc := NewScope(cfg);
      RemoveAbsent(lru, k);
      StepOk(lru, Get(k), cap);
      lru := [k] + lru;
      byKey := byKey[k := sc];
      Evict();
      assert lru[0] == k;
    }

    /** Observe: records one arrival under the shard lock. */
    method Observe(k: Key, a: Arrival)
      requires Valid()
      modifies this
      ensures Valid() && Value() == StepShard(cfg, cap, old(Value()), Observed(k, a))
    {
      hide Fleet.Valid, Remove, Record, Touch;
      var sc := GetOrCreateLocked(k);
      byKey := byKey[k := Record(cfg, sc, a)];
      SameShard(cfg, cap, old(Value()), Observed(k, a), Value());
    }

    /** Assess: an unknown cohort is clean and is not created. */
    method Assess(k: Key, ep: int) returns (a: Assessment)
      requires Valid()
      modifies this
      ensures Valid() && Value() == StepShard(cfg, cap, old(Value()), Assessed(k))
      ensures a == if k in old(byKey) then FleetAssess.Assess(cfg, old(byKey)[k], ep)
        else Assessment(false, [], false, 0.0, 0)
    {
      hide Fleet.Valid, Remove, Touch, FleetAssess.Assess, Fits;
      if k !in byKey {
        a := Assessment(false, [], false, 0.0, 0);
      } else {
        MoveToFront(k);
        a := FleetAssess.Assess(cfg, byKey[k], ep);
      }
      SameShard(cfg, cap, old(Value()), Assessed(k), Value());
    }
  }

  /** Dropping the last key from list and map keeps them in step. */
  lemma {:induction false} DropBack(m: map<Key, Scope>, l: seq<Key>, rest: map<Key, Scope>, front: seq<Key>)
    requires NoDuplicates(l) && l != [] && front == l[..|l| - 1] && rest == m - {l[|l| - 1]}
    requires forall x :: x in m <==> x in l
    ensures NoDuplicates(front) && forall x :: x in rest <==> x in front
  {
    var back := l[|l| - 1];
    assert l == front + [back];
    assert back !in front;
  }

  lemma {:induction false} SameShard(c: Config, cap: nat, s: ShardState, op: Op, r: ShardState)
    requires Valid(c) && cap > 0 && ShardOk(c, cap, s)
    requires r.lru == Step(s.lru, KeyOp(op), cap) && forall k :: k in r.cohorts <==> k in r.lru
    requires forall k :: k in r.cohorts ==>
      r.cohorts[k] == if op.Observed? && k == op.key then Record(c, Lookup(c, s, k), op.arrival) else Lookup(c, s, k)
    ensures r == StepShard(c, cap, s, op)
  {
    hide Record, Lookup, Step, Valid;
    assert r.cohorts.Keys == StepShard(c, cap, s, op).cohorts.Keys;
  }

  // ---- Shards as values ----

  datatype ShardState = ShardState(lru: seq<Key>, cohorts: map<Key, Scope>)

  datatype Op = Observed(key: Key, arrival: Arrival) | Assessed(key: Key)

  ghost predicate ShardOk(c: Config, cap: nat, s: ShardState) {
    && NoDuplicates(s.lru) && |s.lru| <= cap
    && (forall k :: k in s.cohorts <==> k in s.lru)
    && (forall k :: k in s.cohorts ==> Fits(c, s.cohorts[k]))
  }

  function Lookup(c: Config, s: ShardState, k: Key): (r: Scope)
    requires Valid(c)
  {
    if k in s.cohorts then s.cohorts[k] else NewScope(c)
  }

  function KeyOp(op: Op): FleetLru.Op {
    if op.Observed? then Get(op.key) else Peek(op.key)
  }

  function StepShard(c: Config, cap: nat, s: ShardState, op: Op): (r: ShardState)
    requires Valid(c) && cap > 0 && ShardOk(c, cap, s)
    ensures ShardOk(c, cap, r)
  {
    StepOk(s.lru, KeyOp(op), cap);
    var lru := Step(s.lru, KeyOp(op), cap);
    ShardState(lru, map k | k in lru ::
      if op.Observed? && k == op.key then Record(c, Lookup(c, s, k), op.arrival) else Lookup(c, s, k))
  }

  function RunShard(c: Config, cap: nat, ops: seq<Op>): (s: ShardState)
    requires Valid(c) && cap > 0
    ensures ShardOk(c, cap, s)
  {
    if ops == [] then ShardState([], map[])
    else StepShard(c, cap, RunShard(c, cap, ops[..|ops| - 1]), ops[|ops| - 1])
  }

  function KeyOps(ops: seq<Op>): (r: seq<FleetLru.Op>)
    ensures |r| == |ops|
  {
    seq(|ops|, i requires 0 <= i < |ops| => KeyOp(ops[i]))
  }

  /** The cohorts of a shard are those of its recency list. */
  lemma {:induction false} ShardIsLru(c: Config, cap: nat, ops: seq<Op>)
    requires Valid(c) && cap > 0
    ensures RunShard(c, cap, ops).lru == RunOps(KeyOps(ops), cap)
  {
    if ops == [] {
    } else {
      ShardIsLru(c, cap, ops[..|ops| - 1]);
      assert KeyOps(ops)[..|ops| - 1] == KeyOps(ops[..|ops| - 1]);
    }
  }

  /** The arrivals of `k` since it was last created in its shard. */
  function Since(c: Config, cap: nat, ops: seq<Op>, k: Key): seq<Arrival>
    requires Valid(c) && cap > 0
  {
    if ops == [] then []
    else
      var front, op := ops[..|ops| - 1], ops[|ops| - 1];
      var before := if k in RunShard(c, cap, front).cohorts then Since(c, cap, front, k) else [];
      if op.Observed? && op.key == k then before + [op.arrival] else before
  }

  /** All the arrivals of `k`. */
  function ArrivalsOf(ops: seq<Op>, k: Key): seq<Arrival> {
    if ops == [] then []
    else
      var op := ops[|ops| - 1];
      ArrivalsOf(ops[..|ops| - 1], k) + (if op.Observed? && op.key == k then [op.arrival] else [])
  }

  /** Whatever the other cohorts do, a resident cohort's state is the state its own
      arrivals since its creation produce. */
  lemma {:induction false} CohortIsItsHistory(c: Config, cap: nat, ops: seq<Op>, k: Key)
    requires Valid(c) && cap > 0 && k in RunShard(c, cap, ops).cohorts
    ensures RunShard(c, cap, ops).cohorts[k] == After(c, Since(c, cap, ops, k))
  {
    if ops == [] {
    } else {
      hide Record;
      var front, op := ops[..|ops| - 1], ops[|ops| - 1];
      var s := RunShard(c, cap, front);
      if k in s.cohorts {
        CohortIsItsHistory(c, cap, front, k);
      } else {
        StepOk(s.lru, KeyOp(op), cap);
      }
      if op.Observed? && op.key == k {
        var before := if k in s.cohorts then Since(c, cap, front, k) else [];
        assert (before + [op.arrival])[..|before|] == before;
      }
    }
  }

  /** Those arrivals are the latest ones of the cohort, without a gap. */
  lemma {:induction false} SinceIsSuffix(c: Config, cap: nat, ops: seq<Op>, k: Key)
    requires Valid(c) && cap > 0
    ensures var all, tail := ArrivalsOf(ops, k), Since(c, cap, ops, k);
      |tail| <= |all| && all[|all| - |tail|..] == tail
  {
    hide RunShard;
    if ops == [] {
    } else {
      SinceIsSuffix(c, cap, ops[..|ops| - 1], k);
    }
  }

  // ---- The engine ----

  /** The operations that reach shard `i`. */
  function ShardOps(hash: Key -> nat, ops: seq<Op>, i: nat): seq<Op> {
    if ops == [] then []
    else
      var op := ops[|ops| - 1];
      ShardOps(hash, ops[..|ops| - 1], i) + (if hash(op.key) % SHARD_COUNT == i then [op] else [])
  }

  function NewEngine(): (e: seq<ShardState>)
    ensures |e| == SHARD_COUNT && forall i :: 0 <= i < |e| ==> e[i] == ShardState([], map[])
  {
    seq(SHARD_COUNT, i => ShardState([], map[]))
  }

  ghost predicate EngineOk(c: Config, cap: nat, e: seq<ShardState>) {
    |e| == SHARD_COUNT && forall i :: 0 <= i < |e| ==> ShardOk(c, cap, e[i])
  }

  function RunEngine(c: Config, cap: nat, hash: Key -> nat, ops: seq<Op>): (e: seq<ShardState>)
    requires Valid(c) && cap > 0
    ensures EngineOk(c, cap, e)
  {
    if ops == [] then NewEngine()
    else
      var e, op := RunEngine(c, cap, hash, ops[..|ops| - 1]), ops[|ops| - 1];
      var i := hash(op.key) % SHARD_COUNT;
      e[i := StepShard(c, cap, e[i], op)]
  }

  /** The shards do not interfere: each one is the run of the operations hashed to it. */
  lemma {:induction false} ShardsIndependent(c: Config, cap: nat, hash: Key -> nat, ops: seq<Op>, i: nat)
    requires Valid(c) && cap > 0 && i < SHARD_COUNT
    ensures RunEngine(c, cap, hash, ops)[i] == RunShard(c, cap, ShardOps(hash, ops, i))
  {
    if ops == [] {
    } else {
      hide StepShard;
      var front, op := ops[..|ops| - 1], ops[|ops| - 1];
      ShardsIndependent(c, cap, hash, front, i);
      var mine := ShardOps(hash, front, i);
      if hash(op.key) % SHARD_COUNT == i {
        assert (mine + [op])[..|mine|] == mine;
      } else {
        assert ShardOps(hash, ops, i) == mine;
      }
    }
  }

  /** Every cohort is in its own shard only. */
  lemma {:induction false} OwnShard(c: Config, cap: nat, hash: Key -> nat, ops: seq<Op>, i: nat, k: Key)
    requires Valid(c) && cap > 0 && i < SHARD_COUNT
    requires k in RunEngine(c, cap, hash, ops)[i].cohorts
    ensures hash(k) % SHARD_COUNT == i
  {
    if ops == [] {
    } else {
      var front, op := ops[..|ops| - 1], ops[|ops| - 1];
      var e := RunEngine(c, cap, hash, front);
      if k in e[i].cohorts {
        OwnShard(c, cap, hash, front, i, k);
      } else {
        StepOk(e[i].lru, KeyOp(op), cap);
      }
    }
  }

  function Resident(e: seq<ShardState>, n: nat): nat
    requires n <= |e|
  {
    if n == 0 then 0 else Resident(e, n - 1) + |e[n - 1].lru|
  }

  lemma {:induction false} ResidentAtMost(c: Config, cap: nat, e: seq<ShardState>, n: nat)
    requires EngineOk(c, cap, e) && n <= |e|
    ensures Resident(e, n) <= n * cap
  {
    if n == 0 {
    } else {
      ResidentAtMost(c, cap, e, n - 1);
    }
  }

  /** Memory is bounded on every run: MaxScopes cohorts, or one per shard when that is fewer. */
  lemma {:induction false} EngineBounded(c: Config, maxScopes: int, hash: Key -> nat, ops: seq<Op>)
    requires Valid(c) && maxScopes > 0
    ensures Resident(RunEngine(c, MaxScopesPerShard(maxScopes), hash, ops), SHARD_COUNT)
         <= if maxScopes > SHARD_COUNT then maxScopes else SHARD_COUNT
  {
    var cap := MaxScopesPerShard(maxScopes);
    ResidentAtMost(c, cap, RunEngine(c, cap, hash, ops), SHARD_COUNT);
  }
}
