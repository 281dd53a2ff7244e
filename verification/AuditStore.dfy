/** The in-memory compliance store (server/control-plane/compliance/mem.go): per-tenant
    audit chains, kill switches versioned per scope, and canary rollouts. Every accepted
    mutation appends exactly one event to its tenant's chain. */
module AuditStore {
  import opened Bytes
  import opened AuditChain
  import opened KillSwitch
  import opened ScopeKeys
  import opened SwitchSigning

  datatype CanaryState = Active | Promoted | RolledBack

  datatype Canary = Canary(
    tenantId: Str, appId: Str, candidate: Str, stable: Str, percent: nat, state: CanaryState,
    threshold: real, blockRate: real, sampleCount: int, lastEvent: Str, updatedAt: Int64)

  datatype SwitchInput = SwitchInput(
    tenantId: Str, appId: Str, buildHash: Str, command: Command, reason: Str, actor: Str)
  datatype CanaryInput = CanaryInput(
    tenantId: Str, appId: Str, candidate: Str, stable: Str, percent: nat, threshold: real, actor: Str)

  /** The observed block rate, with its text as strconv renders it. */
  datatype Observation = Observation(blockRate: real, sampleCount: int, rateText: Str)

  /** The mutating operations; `key` is what the key source answers and `now` the clock. */
  datatype Op =
    | Append(tenant: Str, entry: Entry, now: Int64)
    | Issue(sw: SwitchInput, key: Option<SigningKey>, now: Int64)
    | SetCanary(ca: CanaryInput, now: Int64)
    | Promote(tenant: Str, app: Str, actor: Str, now: Int64)
    | Rollback(tenant: Str, app: Str, reason: Str, actor: Str, obs: Observation, now: Int64)

  datatype Store = Store(audit: map<Str, seq<AuditEvent>>, switches: map<Str, Switch>, canaries: map<Str, Canary>)

  const DEFAULT_ROLLBACK_THRESHOLD: real := 0.05

  function Chain(s: Store, tenant: Str): seq<AuditEvent> {
    if tenant in s.audit then s.audit[tenant] else []
  }

  // ---- Audit entries ----

  function CommandName(c: Command): Str {
    match c
    case Enable => Ascii("enable")
    case Disable => Ascii("disable")
    case _ => Ascii("unspecified")
  }

  function SwitchResource(app: Str, build: Str): Str {
    if app == [] && build == [] then Ascii("tenant") else if build == [] then app else app + Ascii("/") + build
  }

  function SwitchEntry(i: SwitchInput, version: int): Entry {
    var md := map[Ascii("command") := CommandName(i.command), Ascii("version") := FormatInt(version)];
    var md := if i.appId != [] then md[Ascii("app_id") := i.appId] else md;
    var md := if i.buildHash != [] then md[Ascii("build_hash") := i.buildHash] else md;
    Entry(Ascii("killswitch.issue"), Ascii("kill_switch"), SwitchResource(i.appId, i.buildHash), i.actor, md)
  }

  /** The audit entry of a kill switch tells its scope, command and version: two issues
      with the same entry agree in all of them. */
  lemma {:induction false} SwitchEntryRecords(i: SwitchInput, v: Int64, j: SwitchInput, w: Int64)
    requires SwitchEntry(i, v) == SwitchEntry(j, w)
    ensures i.appId == j.appId && i.buildHash == j.buildHash && i.actor == j.actor
    ensures v == w && CommandName(i.command) == CommandName(j.command)
  {
    SwitchMetadata(i, v);
    SwitchMetadata(j, w);
    hide SwitchEntry, CommandName;
    ParseFormat(v);
    ParseFormat(w);
    hide FormatInt;
    var m, n := SwitchEntry(i, v).metadata, SwitchEntry(j, w).metadata;
    assert m == n;
  }

  lemma {:induction false} SwitchMetadata(i: SwitchInput, v: int)
    ensures var m := SwitchEntry(i, v).metadata;
      && Ascii("command") in m && m[Ascii("command")] == CommandName(i.command)
      && Ascii("version") in m && m[Ascii("version")] == FormatInt(v)
      && (Ascii("app_id") in m <==> i.appId != []) && (i.appId != [] ==> m[Ascii("app_id")] == i.appId)
      && (Ascii("build_hash") in m <==> i.buildHash != []) &&
             (i.buildHash != [] ==> m[Ascii("build_hash")] == i.buildHash)
      && SwitchEntry(i, v).actorKeyId == i.actor
  {
    hide CommandName, FormatInt, SwitchResource;
    assert Ascii("command")[0] == 99 && Ascii("version")[0] == 118;
    assert |Ascii("command")| == 7 && |Ascii("version")| == 7 && |Ascii("app_id")| == 6 && |Ascii("build_hash")| == 10;
  }

  function CanaryEntry(action: Str, app: Str, actor: Str, md: map<Str, Str>): Entry {
    Entry(action, Ascii("canary"), app, actor, md)
  }

  // ---- The last transition, in words ----

  const PROMOTED_TEXT: Str := Ascii("promoted to stable")

  function SetText(percent: nat): Str {
    Ascii("rollout set to ") + FormatInt(percent) + Ascii("%")
  }

  function RollbackText(reason: Str): Str {
    Ascii("rolled back to stable") + if reason == [] then [] else Ascii(": ") + reason
  }

  // ---- What each operation changes ----

  /** An accepted operation: the tenant and entry it audits, and the maps it leaves. */
  datatype Change = Change(
    tenant: Str, entry: Entry, switches: map<Str, Switch>, canaries: map<Str, Canary>, now: Int64)

  function SwitchKey(i: SwitchInput): Str {
    ScopeKey(Scope(i.tenantId, i.appId, i.buildHash))
  }

  function Version(switches: map<Str, Switch>, key: Str): int {
    if key in switches then switches[key].version else 0
  }

  function CanaryKey(tenant: Str, app: Str): Str {
    ScopeKey(Scope(tenant, app, []))
  }

  function IssueChange(s: Store, i: SwitchInput, key: Option<SigningKey>, now: Int64): Option<Change> {
    if i.tenantId == [] || i.command == Unspecified || key.None? then None
    else
      var version := Version(s.switches, SwitchKey(i)) + 1;
      var ks := Signed(key.value,
        Switch(i.tenantId, i.appId, i.buildHash, i.command, version, now, i.reason, key.value.id, []));
      Some(Change(i.tenantId, SwitchEntry(i, version), s.switches[SwitchKey(i) := ks], s.canaries, now))
  }

  function SetChange(s: Store, i: CanaryInput, now: Int64): Option<Change> {
    if i.tenantId == [] || i.appId == [] || i.candidate == [] || i.percent > 100 then None
    else
      var key := CanaryKey(i.tenantId, i.appId);
      var threshold := if i.threshold <= 0.0 then DEFAULT_ROLLBACK_THRESHOLD else i.threshold;
      var stable := if i.stable == [] && key in s.canaries then s.canaries[key].stable else i.stable;
      var c := Canary(i.tenantId, i.appId, i.candidate, stable, i.percent, Active, threshold, 0.0, 0,
        SetText(i.percent), now);
      var md := map[Ascii("candidate") := i.candidate, Ascii("percent") := FormatInt(i.percent)];
      var entry := CanaryEntry(Ascii("canary.set"), i.appId, i.actor, md);
      Some(Change(i.tenantId, entry, s.switches, s.canaries[key := c], now))
  }

  function PromoteChange(s: Store, tenant: Str, app: Str, actor: Str, now: Int64): Option<Change> {
    var key := CanaryKey(tenant, app);
    if key !in s.canaries then None
    else
      var c := s.canaries[key];
      var c' := c.(state := Promoted, percent := 100, stable := c.candidate, lastEvent := PROMOTED_TEXT,
        updatedAt := now);
      var md := map[Ascii("candidate") := c.candidate];
      var entry := CanaryEntry(Ascii("canary.promote"), app, actor, md);
      Some(Change(tenant, entry, s.switches, s.canaries[key := c'], now))
  }

  function RollbackChange(
    s: Store, tenant: Str, app: Str, reason: Str, actor: Str, obs: Observation, now: Int64): Option<Change>
  {
    var key := CanaryKey(tenant, app);
    if key !in s.canaries then None
    else
      var c := s.canaries[key];
      var c' := c.(state := RolledBack, percent := 0, blockRate := obs.blockRate, sampleCount := obs.sampleCount,
                   lastEvent := RollbackText(reason), updatedAt := now);
      var md := map[Ascii("reason") := reason, Ascii("block_rate") := obs.rateText, Ascii("stable") := c.stable];
      var entry := CanaryEntry(Ascii("canary.rollback"), app, actor, md);
      Some(Change(tenant, entry, s.switches, s.canaries[key := c'], now))
  }

  function ChangeOf(s: Store, op: Op): Option<Change> {
    match op
    case Append(tenant, entry, now) =>
      if tenant == [] || entry.action == [] then None else Some(Change(tenant, entry, s.switches, s.canaries, now))
    case Issue(i, key, now) => IssueChange(s, i, key, now)
    case SetCanary(i, now) => SetChange(s, i, now)
    case Promote(tenant, app, actor, now) => PromoteChange(s, tenant, app, actor, now)
    case Rollback(tenant, app, reason, actor, obs, now) => RollbackChange(s, tenant, app, reason, actor, obs, now)
  }

  ghost function NewEvent(h: Digest, tenant: Str, chain: seq<AuditEvent>, e: Entry, now: Int64): AuditEvent
    requires |chain| + 1 < TWO_63
  {
    var prev := PrevHash(chain, |chain|);
    AuditEvent(tenant, |chain| + 1, e, prev, HashAuditEvent(h, tenant, |chain| + 1, e, now, prev), now)
  }

  ghost predicate Room(s: Store) {
    forall t :: |Chain(s, t)| + 1 < TWO_63
  }

  ghost function Audited(h: Digest, s: Store, c: Change): (r: Store)
    requires |Chain(s, c.tenant)| + 1 < TWO_63
    ensures forall t ::
      Chain(r, t) == Chain(s, t) + if t == c.tenant then [NewEvent(h, t, Chain(s, t), c.entry, c.now)] else []
  {
    var chain := Chain(s, c.tenant);
    Store(s.audit[c.tenant := chain + [NewEvent(h, c.tenant, chain, c.entry, c.now)]], c.switches, c.canaries)
  }

  ghost function Apply(h: Digest, s: Store, op: Op): (r: Store)
    requires Room(s)
  {
    match ChangeOf(s, op)
    case None => s
    case Some(c) => Audited(h, s, c)
  }

  lemma {:induction false} ApplyGrows(h: Digest, s: Store, op: Op, tenant: Str)
    requires Room(s)
    ensures Chain(s, tenant) <= Chain(Apply(h, s, op), tenant)
    ensures |Chain(Apply(h, s, op), tenant)| <= |Chain(s, tenant)| + 1
  {
    hide ChangeOf, NewEvent;
  }

  // ---- Runs ----

  ghost predicate Shorter(s: Store, n: nat) {
    forall t :: |Chain(s, t)| <= n
  }

  /** The store after the operations, from empty. 64-bit sequence numbers cannot run out
      before the operations do. */
  ghost function Run(h: Digest, ops: seq<Op>): (s: Store)
    requires |ops| + 1 < TWO_63
    ensures Shorter(s, |ops|)
  {
    if ops == [] then Store(map[], map[], map[])
    else
      var was := Run(h, ops[..|ops| - 1]);
      ShorterAfter(h, was, ops[|ops| - 1], |ops| - 1);
      Apply(h, was, ops[|ops| - 1])
  }

  lemma {:induction false} ShorterAfter(h: Digest, s: Store, op: Op, n: nat)
    requires Shorter(s, n) && n + 1 < TWO_63
    ensures Room(s) && Shorter(Apply(h, s, op), n + 1)
  {
    hide Apply;
    forall t ensures |Chain(Apply(h, s, op), t)| <= n + 1 {
      ApplyGrows(h, s, op, t);
    }
  }

  lemma {:induction false} RunStep(h: Digest, ops: seq<Op>)
    requires ops != [] && |ops| + 1 < TWO_63
    ensures Room(Run(h, ops[..|ops| - 1])) && Run(h, ops) == Apply(h, Run(h, ops[..|ops| - 1]), ops[|ops| - 1])
  {
    hide Apply;
  }

  /** How many of the operations were accepted for the tenant. */
  ghost function Accepted(h: Digest, ops: seq<Op>, tenant: Str): nat
    requires |ops| + 1 < TWO_63
  {
    if ops == [] then 0
    else
      var c := ChangeOf(Run(h, ops[..|ops| - 1]), ops[|ops| - 1]);
      Accepted(h, ops[..|ops| - 1], tenant) + if c.Some? && c.value.tenant == tenant then 1 else 0
  }

  /** How many kill switches were issued under the key. */
  function Issued(ops: seq<Op>, key: Str): nat {
    if ops == [] then 0
    else
      var op := ops[|ops| - 1];
      Issued(ops[..|ops| - 1], key) + if IsIssue(op) && SwitchKey(op.sw) == key then 1 else 0
  }

  predicate IsIssue(op: Op) {
    op.Issue? && op.sw.tenantId != [] && op.sw.command != Unspecified && op.key.Some?
  }

  lemma {:induction false} AppendIntact(h: Digest, tenant: Str, chain: seq<AuditEvent>, e: Entry, now: Int64)
    requires ChainIntact(h, tenant, chain) && |chain| + 1 < TWO_63
    ensures ChainIntact(h, tenant, chain + [NewEvent(h, tenant, chain, e, now)])
  {
    hide HashAuditEvent;
    var all := chain + [NewEvent(h, tenant, chain, e, now)];
    forall i | 0 <= i < |all| ensures EventIntact(h, tenant, all, i) {
      assert PrevHash(all, i) == PrevHash(chain, i);
      if i < |chain| {
        assert EventIntact(h, tenant, chain, i);
        assert all[i] == chain[i];
      }
    }
  }

  /** After every run, every tenant's chain verifies, and it has exactly one event per
      accepted operation of that tenant. */
  lemma {:induction false} RunsVerify(h: Digest, ops: seq<Op>, tenant: Str)
    requires |ops| + 1 < TWO_63
    ensures ChainIntact(h, tenant, Chain(Run(h, ops), tenant))
    ensures |Chain(Run(h, ops), tenant)| == Accepted(h, ops, tenant)
    decreases |ops|
  {
    hide ChangeOf, ChainIntact, NewEvent, Run;
    if ops == [] {
      EmptyRun(h);
      EmptyIntact(h, tenant);
    } else {
      var last := |ops| - 1;
      RunsVerify(h, ops[..last], tenant);
      RunStep(h, ops);
      var s := Run(h, ops[..last]);
      var c := ChangeOf(s, ops[last]);
      if c.Some? && c.value.tenant == tenant {
        AppendIntact(h, tenant, Chain(s, tenant), c.value.entry, c.value.now);
      }
    }
  }

  ghost predicate AllIntact(h: Digest, s: Store) {
    forall tenant :: ChainIntact(h, tenant, Chain(s, tenant))
  }

  lemma {:induction false} ApplyIntact(h: Digest, s: Store, op: Op)
    requires Room(s) && AllIntact(h, s)
    ensures AllIntact(h, Apply(h, s, op))
  {
    hide ChangeOf, ChainIntact, NewEvent;
    var c := ChangeOf(s, op);
    if c.Some? {
      forall tenant ensures ChainIntact(h, tenant, Chain(Apply(h, s, op), tenant)) {
        AppendIntact(h, tenant, Chain(s, tenant), c.value.entry, c.value.now);
      }
    }
  }

  lemma {:induction false} EmptyRun(h: Digest)
    ensures Run(h, []) == Store(map[], map[], map[])
  {
  }

  lemma {:induction false} EmptyIntact(h: Digest, tenant: Str)
    ensures ChainIntact(h, tenant, [])
  {
  }

  /** Chains only grow. */
  lemma {:induction false} ChainsGrow(h: Digest, ops: seq<Op>, n: nat, tenant: Str)
    requires |ops| + 1 < TWO_63 && n <= |ops|
    ensures Chain(Run(h, ops[..n]), tenant) <= Chain(Run(h, ops), tenant)
    decreases |ops|
  {
    hide Apply, Run;
    if n == |ops| {
      assert ops[..n] == ops;
    } else {
      var last := |ops| - 1;
      ChainsGrow(h, ops[..last], n, tenant);
      assert ops[..last][..n] == ops[..n];
      RunStep(h, ops);
      ApplyGrows(h, Run(h, ops[..last]), ops[last], tenant);
    }
  }

  /** A key's version is the number of kill switches issued under it. */
  lemma {:induction false} VersionIsCount(h: Digest, ops: seq<Op>, key: Str)
    requires |ops| + 1 < TWO_63
    ensures Version(Run(h, ops).switches, key) == Issued(ops, key)
    decreases |ops|
  {
    hide Run, Apply;
    if ops == [] {
      EmptyRun(h);
    } else {
      VersionIsCount(h, ops[..|ops| - 1], key);
      RunStep(h, ops);
      ApplyMaps(h, Run(h, ops[..|ops| - 1]), ops[|ops| - 1]);
      SwitchChange(Run(h, ops[..|ops| - 1]), ops[|ops| - 1], key);
    }
  }

  lemma {:induction false} ApplyMaps(h: Digest, s: Store, op: Op)
    requires Room(s)
    ensures Apply(h, s, op).switches == (match ChangeOf(s, op) case None => s.switches case Some(c) => c.switches)
    ensures Apply(h, s, op).canaries == (match ChangeOf(s, op) case None => s.canaries case Some(c) => c.canaries)
  {
    hide ChangeOf, NewEvent;
  }

  /** Only an accepted issue touches a switch, and only its own. */
  lemma {:induction false} SwitchChange(s: Store, op: Op, key: Str)
    ensures var after := match ChangeOf(s, op) case None => s.switches case Some(c) => c.switches;
      if IsIssue(op) && SwitchKey(op.sw) == key
      then key in after && after[key].version == Version(s.switches, key) + 1 && after[key].command == op.sw.command
           && after[key].tenantId == op.sw.tenantId && TargetOf(after[key]) == Target(op.sw.appId, op.sw.buildHash)
      else (key in after <==> key in s.switches) && (key in after ==> after[key] == s.switches[key])
  {
    hide ScopeKey, SwitchEntry, CanaryEntry;
  }

  /** A canary's percentage agrees with its state. */
  predicate CanaryOk(c: Canary) {
    && c.percent <= 100 && c.candidate != [] && c.threshold > 0.0
    && (c.state == Promoted ==> c.percent == 100 && c.stable == c.candidate)
    && (c.state == RolledBack ==> c.percent == 0)
  }

  lemma {:induction false} CanaryChange(s: Store, op: Op, key: Str)
    requires key in s.canaries ==> CanaryOk(s.canaries[key])
    ensures var after := match ChangeOf(s, op) case None => s.canaries case Some(c) => c.canaries;
      key in after ==> CanaryOk(after[key])
  {
    hide ScopeKey, SwitchEntry, CanaryEntry;
  }

  /** Every canary of every reachable store is consistent. */
  lemma {:induction false} CanariesOk(h: Digest, ops: seq<Op>, key: Str)
    requires |ops| + 1 < TWO_63
    ensures key in Run(h, ops).canaries ==> CanaryOk(Run(h, ops).canaries[key])
    decreases |ops|
  {
    hide Run, Apply, ChangeOf, CanaryOk;
    if ops == [] {
      EmptyRun(h);
    } else {
      CanariesOk(h, ops[..|ops| - 1], key);
      RunStep(h, ops);
      ApplyMaps(h, Run(h, ops[..|ops| - 1]), ops[|ops| - 1]);
      CanaryChange(Run(h, ops[..|ops| - 1]), ops[|ops| - 1], key);
    }
  }

  /** Verification of a run's chain reports it intact and counts the accepted operations. */
  lemma {:induction false} RunVerdict(h: Digest, ops: seq<Op>, tenant: Str, res: VerifyResult)
    requires |ops| + 1 < TWO_63 && Verdict(h, tenant, Chain(Run(h, ops), tenant), res)
    ensures res.intact && res.verifiedCount == Accepted(h, ops, tenant) && res.brokenSeq == 0
  {
    hide Run, Accepted, EventIntact;
    RunsVerify(h, ops, tenant);
  }

  // ---- The kill switch in effect, from the history of commands ----

  function ScopeOf(i: SwitchInput): Scope {
    Scope(i.tenantId, i.appId, i.buildHash)
  }

  ghost predicate PlainScopes(ops: seq<Op>) {
    forall i :: 0 <= i < |ops| && ops[i].Issue? ==> Plain(ScopeOf(ops[i].sw))
  }

  /** The last command issued for exactly this scope. */
  function LastCommand(ops: seq<Op>, scope: Scope): Option<Command> {
    if ops == [] then None
    else
      var op := ops[|ops| - 1];
      if IsIssue(op) && ScopeOf(op.sw) == scope then Some(op.sw.command) else LastCommand(ops[..|ops| - 1], scope)
  }

  function OrElse(a: Option<Command>, b: Option<Command>): Option<Command> {
    if a.Some? then a else b
  }

  /** What is in effect: the last command for the app and build, else for the app, else
      for the build, else for the tenant, else enabled. */
  function InEffect(ops: seq<Op>, tenant: Str, q: Target): Command {
    var c := OrElse(LastCommand(ops, Scope(tenant, q.appId, q.buildHash)),
             OrElse(LastCommand(ops, Scope(tenant, q.appId, [])),
             OrElse(LastCommand(ops, Scope(tenant, [], q.buildHash)),
                    LastCommand(ops, Scope(tenant, [], [])))));
    if c.Some? then c.value else Enable
  }

  ghost predicate Holds(switches: map<Str, Switch>, scope: Scope, c: Option<Command>) {
    var key := ScopeKey(scope);
    && (c.Some? <==> key in switches)
    && (c.Some? ==>
          && switches[key].command == c.value
          && Scope(switches[key].tenantId, switches[key].appId, switches[key].buildHash) == scope)
  }

  lemma {:induction false} SwitchIsLatest(h: Digest, ops: seq<Op>, scope: Scope)
    requires |ops| + 1 < TWO_63 && PlainScopes(ops)
    ensures Holds(Run(h, ops).switches, scope, LastCommand(ops, scope))
    decreases |ops|
  {
    hide Run, Apply, ChangeOf, ScopeKey, Plain;
    if ops == [] {
      EmptyRun(h);
    } else {
      var last := |ops| - 1;
      var s, op := Run(h, ops[..last]), ops[last];
      SwitchIsLatest(h, ops[..last], scope);
      RunStep(h, ops);
      ApplyMaps(h, s, op);
      SwitchChange(s, op, ScopeKey(scope));
      if op.Issue? {
        OwnKeyExact(ScopeOf(op.sw));
      }
    }
  }

  ghost predicate Keyed(switches: map<Str, Switch>) {
    forall key :: key in switches ==>
      key == ScopeKey(Scope(switches[key].tenantId, switches[key].appId, switches[key].buildHash))
  }

  lemma {:induction false} KeyedChange(s: Store, op: Op)
    requires Keyed(s.switches)
    ensures Keyed(match ChangeOf(s, op) case None => s.switches case Some(c) => c.switches)
  {
    hide ScopeKey, SwitchEntry, CanaryEntry;
  }

  lemma {:induction false} RunKeyed(h: Digest, ops: seq<Op>)
    requires |ops| + 1 < TWO_63
    ensures Keyed(Run(h, ops).switches)
    decreases |ops|
  {
    hide Run, Apply, ChangeOf, Keyed;
    if ops == [] {
      EmptyRun(h);
      EmptyKeyed();
    } else {
      RunKeyed(h, ops[..|ops| - 1]);
      RunStep(h, ops);
      ApplyMaps(h, Run(h, ops[..|ops| - 1]), ops[|ops| - 1]);
      KeyedChange(Run(h, ops[..|ops| - 1]), ops[|ops| - 1]);
    }
  }

  lemma {:induction false} EmptyKeyed()
    ensures Keyed(map[])
  {
  }

  /** A listing of the tenant's switches. */
  ghost predicate ListsTenant(switches: map<Str, Switch>, tenant: Str, list: seq<Switch>) {
    forall ks :: ks in list <==> ks.tenantId == tenant && exists key :: key in switches && switches[key] == ks
  }

  lemma {:induction false} ListedIsLatest(h: Digest, ops: seq<Op>, tenant: Str, list: seq<Switch>, ks: Switch)
    requires |ops| + 1 < TWO_63 && PlainScopes(ops) && ListsTenant(Run(h, ops).switches, tenant, list) && ks in list
    ensures LastCommand(ops, Scope(tenant, ks.appId, ks.buildHash)) == Some(ks.command)
  {
    hide Run, ScopeKey, LastCommand, PlainScopes;
    RunKeyed(h, ops);
    var sw := Run(h, ops).switches;
    var key :| key in sw && sw[key] == ks;
    SwitchIsLatest(h, ops, Scope(tenant, ks.appId, ks.buildHash));
  }

  lemma {:induction false} LatestIsListed(h: Digest, ops: seq<Op>, tenant: Str, list: seq<Switch>, t: Target)
    requires |ops| + 1 < TWO_63 && PlainScopes(ops) && ListsTenant(Run(h, ops).switches, tenant, list)
    requires LastCommand(ops, Scope(tenant, t.appId, t.buildHash)).Some?
    ensures exists ks :: ks in list && TargetOf(ks) == t
  {
    hide Run, ScopeKey, LastCommand, PlainScopes;
    var scope := Scope(tenant, t.appId, t.buildHash);
    SwitchIsLatest(h, ops, scope);
    var ks := Run(h, ops).switches[ScopeKey(scope)];
    assert ks in list && TargetOf(ks) == t;
  }

  /** On every run over NUL-free scopes, the command in effect is the last one issued
      for the most specific scope that was ever issued, whatever order the map lists
      the switches in. */
  lemma {:induction false} EffectiveIsLatest(
    h: Digest, ops: seq<Op>, tenant: Str, list: seq<Switch>, q: Target, active: Option<Switch>)
    requires |ops| + 1 < TWO_63 && PlainScopes(ops) && ListsTenant(Run(h, ops).switches, tenant, list)
    requires IsEffective(list, q, active)
    ensures (if active.Some? then active.value.command else Enable) == InEffect(ops, tenant, q)
  {
    hide Run, LastCommand, PlainScopes, ListsTenant;
    if active.Some? {
      ListedIsLatest(h, ops, tenant, list, active.value);
    }
    forall t: Target | Covers(t, q) && LastCommand(ops, Scope(tenant, t.appId, t.buildHash)).Some?
      ensures active.Some? && Specificity(t) <= Specificity(TargetOf(active.value))
      ensures Specificity(t) == Specificity(TargetOf(active.value)) ==> t == TargetOf(active.value)
    {
      LatestIsListed(h, ops, tenant, list, t);
      var ks :| ks in list && TargetOf(ks) == t;
    }
    assert Covers(Target(q.appId, q.buildHash), q) && Covers(Target(q.appId, []), q)
        && Covers(Target([], q.buildHash), q) && Covers(Target([], []), q);
  }
}
