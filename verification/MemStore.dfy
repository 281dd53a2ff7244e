/** The compliance store as it runs (server/control-plane/compliance/mem.go): each
    mutating method is proved to take the store's value to the one `Apply` gives. */
module MemStore {
  import opened Bytes
  import opened AuditChain
  import opened AuditStore
  import opened AuditListing
  import opened KillSwitch
  import opened Paging
  import opened ScopeKeys
  import opened Sorting
  import opened SwitchSigning

  datatype Listing = Listing(page: AuditPage) | InvalidInput

  class MemStore {
    const h: Digest
    var audit: map<Str, seq<AuditEvent>>
    var switches: map<Str, Switch>
    var canaries: map<Str, Canary>

    function View(): Store
      reads this
    {
      Store(audit, switches, canaries)
    }

    /** Every tenant's chain verifies. */
    ghost predicate Valid()
      reads this
    {
      AllIntact(h, View())
    }

    constructor (h: Digest)
      ensures this.h == h && View() == Store(map[], map[], map[]) && Valid()
    {
      this.h := h;
      audit, switches, canaries := map[], map[], map[];
    }

    /** Appends one event to the tenant's chain, linked to its head. */
    method AppendLocked(tenant: Str, e: Entry, now: Int64) returns (ok: bool)
      requires |Chain(View(), tenant)| + 1 < TWO_63
      modifies this`audit
      ensures ok <==> e.action != []
      ensures !ok ==> audit == old(audit)
      ensures ok ==>
        var chain := old(Chain(View(), tenant));
        audit == old(audit)[tenant := chain + [NewEvent(h, tenant, chain, e, now)]]
    {
      hide Preimage;
      if e.action == [] {
        return false;
      }
      var chain := if tenant in audit then audit[tenant] else [];
      var prevHash := if |chain| > 0 then chain[|chain| - 1].hash else [];
      var preimage := BuildPreimage(tenant, |chain| + 1, e, now, prevHash);
      audit := audit[tenant := chain + [AuditEvent(tenant, |chain| + 1, e, prevHash, h(preimage), now)]];
      ok := true;
    }

    method AppendAudit(tenant: Str, e: Entry, now: Int64) returns (ok: bool)
      requires Valid() && Room(View())
      modifies this
      ensures Valid()
      ensures View() == Apply(h, old(View()), Append(tenant, e, now))
      ensures (ok <==> ChangeOf(old(View()), Append(tenant, e, now)).Some?)
    {
      hide NewEvent, AllIntact;
      ApplyIntact(h, View(), Append(tenant, e, now));
      if tenant == [] {
        return false;
      }
      ok := AppendLocked(tenant, e, now);
    }

    method IssueKillSwitch(i: SwitchInput, key: Option<SigningKey>, now: Int64) returns (r: Option<Switch>)
      requires Valid() && Room(View())
      modifies this
      ensures Valid()
      ensures View() == Apply(h, old(View()), Issue(i, key, now))
      ensures r.Some? <==> ChangeOf(old(View()), Issue(i, key, now)).Some?
      ensures r.Some? ==> SwitchKey(i) in switches && switches[SwitchKey(i)] == r.value
    {
      hide NewEvent, AllIntact, ScopeKey, SwitchEntry, SwitchPreimage;
      ApplyIntact(h, View(), Issue(i, key, now));
      ghost var was := View();
      if i.tenantId == [] || i.command == Unspecified || key.None? {
        return None;
      }
      var k := SwitchKey(i);
      var version := if k in switches then switches[k].version + 1 else 1;
      var ks := Switch(i.tenantId, i.appId, i.buildHash, i.command, version, now, i.reason, key.value.id, []);
      var preimage := BuildSwitchPreimage(ks);
      ks := ks.(signature := key.value.sign(preimage));
      switches := switches[k := ks];
      SwitchAction(i, version);
      assert Chain(View(), i.tenantId) == Chain(was, i.tenantId);
      var _ := AppendLocked(i.tenantId, SwitchEntry(i, version), now);
      assert ChangeOf(was, Issue(i, key, now)) == Some(Change(i.tenantId, SwitchEntry(i, version), switches, canaries,
        now));
      r := Some(ks);
    }

    method SetCanary(i: CanaryInput, now: Int64) returns (r: Option<Canary>)
      requires Valid() && Room(View())
      modifies this
      ensures Valid()
      ensures View() == Apply(h, old(View()), AuditStore.SetCanary(i, now))
      ensures r.Some? <==> ChangeOf(old(View()), AuditStore.SetCanary(i, now)).Some?
      ensures r.Some? ==>
        CanaryKey(i.tenantId, i.appId) in canaries && canaries[CanaryKey(i.tenantId, i.appId)] == r.value
    {
      hide NewEvent, AllIntact, ScopeKey, SetText, RollbackText;
      ApplyIntact(h, View(), AuditStore.SetCanary(i, now));
      if i.tenantId == [] || i.appId == [] || i.candidate == [] || i.percent > 100 {
        return None;
      }
      var threshold := if i.threshold <= 0.0 then DEFAULT_ROLLBACK_THRESHOLD else i.threshold;
      var key := CanaryKey(i.tenantId, i.appId);
      var c := Canary(i.tenantId, i.appId, i.candidate, i.stable, i.percent, Active, threshold, 0.0, 0,
        SetText(i.percent), now);
      if c.stable == [] && key in canaries && canaries[key].stable != [] {
        c := c.(stable := canaries[key].stable);
      }
      canaries := canaries[key := c];
      var md := map[Ascii("candidate") := i.candidate, Ascii("percent") := FormatInt(i.percent)];
      assert Chain(View(), i.tenantId) == Chain(old(View()), i.tenantId);
      var _ := AppendLocked(i.tenantId, CanaryEntry(Ascii("canary.set"), i.appId, i.actor, md), now);
      r := Some(c);
    }

    method PromoteCanary(tenant: Str, app: Str, actor: Str, now: Int64) returns (r: Option<Canary>)
      requires Valid() && Room(View())
      modifies this
      ensures Valid()
      ensures View() == Apply(h, old(View()), Promote(tenant, app, actor, now))
      ensures r.Some? <==> ChangeOf(old(View()), Promote(tenant, app, actor, now)).Some?
      ensures r.Some? ==> CanaryKey(tenant, app) in canaries && canaries[CanaryKey(tenant, app)] == r.value
    {
      hide NewEvent, AllIntact, ScopeKey, SetText, RollbackText;
      ApplyIntact(h, View(), Promote(tenant, app, actor, now));
      var key := CanaryKey(tenant, app);
      if key !in canaries {
        return None;
      }
      var c := canaries[key];
      c := c.(state := Promoted);
      c := c.(percent := 100);
      c := c.(stable := c.candidate);
      c := c.(lastEvent := PROMOTED_TEXT);
      c := c.(updatedAt := now);
      canaries := canaries[key := c];
      var md := map[Ascii("candidate") := c.candidate];
      assert Chain(View(), tenant) == Chain(old(View()), tenant);
      var _ := AppendLocked(tenant, CanaryEntry(Ascii("canary.promote"), app, actor, md), now);
      r := Some(c);
    }

    method RollbackCanary(
      tenant: Str, app: Str, reason: Str, actor: Str, obs: Observation, now: Int64)
      returns (r: Option<Canary>)
      requires Valid() && Room(View())
      modifies this
      ensures Valid()
      ensures View() == Apply(h, old(View()), Rollback(tenant, app, reason, actor, obs, now))
      ensures r.Some? <==> ChangeOf(old(View()), Rollback(tenant, app, reason, actor, obs, now)).Some?
      ensures r.Some? ==> CanaryKey(tenant, app) in canaries && canaries[CanaryKey(tenant, app)] == r.value
    {
      hide NewEvent, AllIntact, ScopeKey, SetText, RollbackText;
      ApplyIntact(h, View(), Rollback(tenant, app, reason, actor, obs, now));
      var key := CanaryKey(tenant, app);
      if key !in canaries {
        return None;
      }
      var c := canaries[key];
      c := c.(state := RolledBack);
      c := c.(percent := 0);
      c := c.(blockRate := obs.blockRate, sampleCount := obs.sampleCount);
      c := c.(lastEvent := RollbackText(reason));
      c := c.(updatedAt := now);
      canaries := canaries[key := c];
      var md := map[Ascii("reason") := reason, Ascii("block_rate") := obs.rateText, Ascii("stable") := c.stable];
      assert Chain(View(), tenant) == Chain(old(View()), tenant);
      var _ := AppendLocked(tenant, CanaryEntry(Ascii("canary.rollback"), app, actor, md), now);
      r := Some(c);
    }

    method VerifyAudit(tenant: Str) returns (r: Option<VerifyResult>)
      ensures r.None? <==> tenant == []
      ensures r.Some? ==> Verdict(h, tenant, Chain(View(), tenant), r.value)
    {
      if tenant == [] {
        return None;
      }
      var res := Recompute(h, tenant, if tenant in audit then audit[tenant] else []);
      r := Some(res);
    }

    /** One page of the tenant's events, newest first. */
    method ListAudit(tenant: Str, f: AuditFilter, pageSize: int, token: Str) returns (r: Listing)
      requires Valid()
      ensures r.InvalidInput? <==> tenant == [] || ReadToken(token).BadToken?
      ensures r.Listing? ==> IsAuditPage(Chain(View(), tenant), f, pageSize, token, r.page)
    {
      if tenant == [] || ReadToken(token).BadToken? {
        return InvalidInput;
      }
      var chain := if tenant in audit then audit[tenant] else [];
      assert chain == Chain(View(), tenant);
      IntactIsNumbered(h, tenant, chain);
      var page := PageOf(chain, f, pageSize, token);
      r := Listing(page);
    }

    /** The tenant's switches, ordered by app and build: each as often as the map holds it. */
    method ListKillSwitches(tenant: Str) returns (r: Option<seq<Switch>>)
      ensures r.None? <==> tenant == []
      ensures r.Some? ==> ListsTenant(switches, tenant, r.value) && Sorted(SwitchLess, r.value)
      ensures r.Some? ==>
        forall ks :: multiset(r.value)[ks] == if ks.tenantId == tenant then |KeysOf(switches, ks)| else 0
    {
      if tenant == [] {
        return None;
      }
      var out: seq<Switch> := [];
      var rest := switches.Keys;
      EachKey(switches);
      while rest != {}
        invariant rest <= switches.Keys
        invariant forall ks :: multiset(out)[ks] == Visited(switches, tenant, rest, ks)
        decreases rest
      {
        hide Visited;
        var key :| key in rest;
        ghost var before := out;
        if switches[key].tenantId == tenant {
          out := out + [switches[key]];
        }
        forall ks ensures multiset(out)[ks] == Visited(switches, tenant, rest - {key}, ks) {
          SeenOneMore(switches, tenant, rest, key, ks);
        }
        rest := rest - {key};
      }
      var sorted := SortSwitches(out);
      r := Some(sorted);
      AllSeen(switches, tenant, sorted);
    }
  }

  /** The keys under which the map holds a switch. */
  function KeysOf(switches: map<Str, Switch>, ks: Switch): set<Str> {
    set key | key in switches && switches[key] == ks
  }

  /** How often a switch is listed once all keys but the `rest` were visited. */
  function Visited(switches: map<Str, Switch>, tenant: Str, rest: set<Str>, ks: Switch): nat {
    if ks.tenantId == tenant then |KeysOf(switches, ks) - rest| else 0
  }

  lemma {:induction false} EachKey(switches: map<Str, Switch>)
    ensures forall tenant, ks :: Visited(switches, tenant, switches.Keys, ks) == 0
  {
    forall ks ensures KeysOf(switches, ks) - switches.Keys == {} {
    }
  }

  lemma {:induction false} SeenOneMore(switches: map<Str, Switch>, tenant: Str, rest: set<Str>, key: Str, ks: Switch)
    requires key in rest && key in switches
    ensures Visited(switches, tenant, rest - {key}, ks)
         == Visited(switches, tenant, rest, ks) + if ks == switches[key] && ks.tenantId == tenant then 1 else 0
  {
    var keys := KeysOf(switches, ks);
    if ks == switches[key] {
      assert keys - (rest - {key}) == (keys - rest) + {key};
    } else {
      assert keys - (rest - {key}) == keys - rest;
    }
  }

  lemma {:induction false} AllSeen(switches: map<Str, Switch>, tenant: Str, list: seq<Switch>)
    requires forall ks :: multiset(list)[ks] == Visited(switches, tenant, {}, ks)
    ensures ListsTenant(switches, tenant, list)
    ensures forall ks :: multiset(list)[ks] == if ks.tenantId == tenant then |KeysOf(switches, ks)| else 0
  {
    forall ks
      ensures multiset(list)[ks] == if ks.tenantId == tenant then |KeysOf(switches, ks)| else 0
      ensures ks in list <==> ks.tenantId == tenant && exists key :: key in switches && switches[key] == ks
    {
      assert KeysOf(switches, ks) - {} == KeysOf(switches, ks);
      assert ks in list <==> ks in multiset(list);
      assert (exists key :: key in switches && switches[key] == ks) <==> KeysOf(switches, ks) != {} by {
        assert forall key :: key in KeysOf(switches, ks) <==> key in switches && switches[key] == ks;
      }
    }
  }

  /** In every reachable store a switch is held under one key only, so it is listed once. */
  lemma {:induction false} ListedOnce(h: Digest, ops: seq<Op>, ks: Switch)
    requires |ops| + 1 < TWO_63
    ensures |KeysOf(Run(h, ops).switches, ks)| <= 1
  {
    hide Run, ScopeKey;
    RunKeyed(h, ops);
    var sw := Run(h, ops).switches;
    var key := ScopeKey(Scope(ks.tenantId, ks.appId, ks.buildHash));
    assert KeysOf(sw, ks) <= {key};
    SubsetOne(KeysOf(sw, ks), key);
  }

  lemma {:induction false} SubsetOne(s: set<Str>, x: Str)
    requires s <= {x}
    ensures |s| <= 1
  {
    if s != {} {
      assert s == {x};
    }
  }

  predicate SwitchLess(a: Switch, b: Switch) {
    if a.appId != b.appId then LexLess(a.appId, b.appId) else LexLess(a.buildHash, b.buildHash)
  }

  method SortSwitches(list: seq<Switch>) returns (out: seq<Switch>)
    ensures Sorted(SwitchLess, out) && multiset(out) == multiset(list)
  {
    SwitchLessStrict();
    SortSorts(SwitchLess, list);
    out := Sort(SwitchLess, list);
  }

  lemma {:induction false} SwitchLessStrict()
    ensures StrictOrder(SwitchLess)
  {
    forall a: Switch ensures !SwitchLess(a, a) {
      LexIrreflexive(a.buildHash);
    }
    forall a, b, c | SwitchLess(a, b) && SwitchLess(b, c) ensures SwitchLess(a, c) {
      if a.appId == b.appId == c.appId {
        LexTransitive(a.buildHash, b.buildHash, c.buildHash);
      } else if a.appId != b.appId && b.appId != c.appId {
        LexTransitive(a.appId, b.appId, c.appId);
        if a.appId == c.appId {
          LexIrreflexive(a.appId);
        }
      }
    }
  }

  lemma {:induction false} SwitchAction(i: SwitchInput, version: int)
    ensures SwitchEntry(i, version).action != []
  {
  }

  lemma {:induction false} NewestStep(p: AuditEvent -> bool, chain: seq<AuditEvent>, i: nat)
    requires i < |chain|
    ensures Newest(p, chain[..i + 1]) == (if p(chain[i]) then [chain[i]] else []) + Newest(p, chain[..i])
  {
    assert chain[..i + 1][..i] == chain[..i];
  }

  /** Walks the chain backwards, skipping what is at or above the bound and what the
      filter rejects, until the page is full and another event is found. */
  method Collect(
    chain: seq<AuditEvent>, f: AuditFilter, bound: Option<int>, size: nat)
    returns (out: seq<AuditEvent>, more: bool)
    ensures var all := Newest(ev => Chosen(f, bound, ev), chain);
      (more <==> |all| > size) && out == if more then all[..size] else all
  {
    hide Newest, Selects;
    ghost var p := ev => Chosen(f, bound, ev);
    ghost var all := Newest(p, chain);
    ghost var rest := all;
    out := [];
    var i := |chain|;
    assert chain[..i] == chain;
    NoneNewest(p);
    while i > 0
      invariant 0 <= i <= |chain| && |out| <= size
      invariant rest == Newest(p, chain[..i]) && all == out + rest
    {
      i := i - 1;
      var ev := chain[i];
      NewestStep(p, chain, i);
      if (bound.Some? && ev.seq_ >= bound.value) || !Selects(f, ev) {
        assert !p(ev);
        rest := Newest(p, chain[..i]);
        continue;
      }
      assert rest == [ev] + Newest(p, chain[..i]);
      if |out| == size {
        assert all[..size] == out;
        return out, true;
      }
      rest := Newest(p, chain[..i]);
      out := out + [ev];
    }
    assert chain[..0] == [] && all == out;
    more := false;
  }

  lemma {:induction false} NoneNewest(p: AuditEvent -> bool)
    ensures Newest(p, []) == []
  {
  }

  method PageOf(chain: seq<AuditEvent>, f: AuditFilter, pageSize: int, token: Str) returns (page: AuditPage)
    requires !ReadToken(token).BadToken? && Numbered(chain)
    ensures IsAuditPage(chain, f, pageSize, token, page)
  {
    hide IsPage, Newest, Selected;
    var size := ClampPageSize(pageSize);
    var bound := Bound(ReadToken(token));
    NewestIsPage(f, chain, bound, size);
    var out, more := Collect(chain, f, bound, size);
    if more {
      ghost var p := ev => Chosen(f, bound, ev);
      assert out[size - 1] == Newest(p, chain)[size - 1];
      NewestFrom(p, chain, out[size - 1]);
      TokenRoundTrip(out[size - 1].seq_);
      page := AuditPage(out, FormatInt(out[size - 1].seq_));
    } else {
      page := AuditPage(out, []);
    }
  }

  lemma {:induction false} TokenRoundTrip(n: Int64)
    requires n >= 0
    ensures ReadToken(FormatInt(n)) == Below(n)
  {
    ParseFormat(n);
  }
}
