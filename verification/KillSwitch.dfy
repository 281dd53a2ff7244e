/** Which kill switch is in effect (server/control-plane/compliance/killswitch.go and
    store.go): an empty part of a scope is a wildcard and the most specific match wins. */
module KillSwitch {
  import opened Bytes

  datatype Command = Unspecified | Enable | Disable | Unknown(code: int)

  datatype Switch = Switch(
    tenantId: Str, appId: Str, buildHash: Str, command: Command, version: int, issuedAt: Int64, reason: Str,
    keyId: Str, signature: Str)

  datatype Target = Target(appId: Str, buildHash: Str)

  function TargetOf(ks: Switch): Target {
    Target(ks.appId, ks.buildHash)
  }

  predicate Covers(t: Target, q: Target) {
    (t.appId == [] || t.appId == q.appId) && (t.buildHash == [] || t.buildHash == q.buildHash)
  }

  function Specificity(t: Target): nat {
    (if t.appId != [] then 2 else 0) + (if t.buildHash != [] then 1 else 0)
  }

  /** Of the targets that cover a query there is at most one of each specificity. */
  lemma {:induction false} RankIsTarget(s: Target, t: Target, q: Target)
    requires Covers(s, q) && Covers(t, q) && Specificity(s) == Specificity(t)
    ensures s == t
  {
  }

  ghost predicate DistinctTargets(switches: seq<Switch>) {
    forall i, j :: 0 <= i < j < |switches| ==> TargetOf(switches[i]) != TargetOf(switches[j])
  }

  /** A covering switch that no covering switch outranks; nothing when none covers. */
  ghost predicate IsEffective(switches: seq<Switch>, q: Target, r: Option<Switch>) {
    match r
    case None => forall ks :: ks in switches ==> !Covers(TargetOf(ks), q)
    case Some(best) =>
      && best in switches && Covers(TargetOf(best), q)
      && forall ks :: ks in switches && Covers(TargetOf(ks), q) ==>
           Specificity(TargetOf(ks)) <= Specificity(TargetOf(best))
  }

  method ResolveEffective(switches: seq<Switch>, q: Target) returns (best: Option<Switch>)
    ensures IsEffective(switches, q, best)
  {
    best := None;
    var bestRank: int := -1;
    var i := 0;
    while i < |switches|
      invariant 0 <= i <= |switches| && IsEffective(switches[..i], q, best)
      invariant bestRank == if best.Some? then Specificity(TargetOf(best.value)) else -1
    {
      var ks := switches[i];
      assert switches[..i + 1] == switches[..i] + [ks];
      if Covers(TargetOf(ks), q) && Specificity(TargetOf(ks)) > bestRank {
        best := Some(ks);
        bestRank := Specificity(TargetOf(ks));
      }
      i := i + 1;
    }
    assert switches[..|switches|] == switches;
  }

  /** With one switch per target, the order of the list does not matter. */
  lemma {:induction false} OrderIrrelevant(
    a: seq<Switch>, b: seq<Switch>, q: Target, r: Option<Switch>, r': Option<Switch>)
    requires DistinctTargets(a) && (forall ks :: ks in a <==> ks in b) && IsEffective(a, q, r) && IsEffective(b, q, r')
    ensures r == r'
  {
    if r.Some? && r'.Some? {
      RankIsTarget(TargetOf(r.value), TargetOf(r'.value), q);
      var i :| 0 <= i < |a| && a[i] == r.value;
      var j :| 0 <= j < |a| && a[j] == r'.value;
    }
  }

  /** No applicable switch means enabled. */
  method GetState(switches: seq<Switch>, appId: Str, buildHash: Str) returns (command: Command, active: Option<Switch>)
    ensures IsEffective(switches, Target(appId, buildHash), active)
    ensures command == if active.Some? then active.value.command else Enable
  {
    active := ResolveEffective(switches, Target(appId, buildHash));
    command := match active case None => Enable case Some(ks) => ks.command;
  }
}
