/** The kill switches one run of the compliance store signs
    (server/control-plane/compliance/mem.go). */
module SwitchRuns {
  import opened Bytes
  import opened AuditChain
  import opened AuditStore
  import opened KillSwitch
  import opened ScopeKeys
  import opened SwitchSigning

  /** The switch the i-th operation of a run issues: the version counts the issues of its key. */
  function IssuedAt(ops: seq<Op>, i: nat): Switch
    requires i < |ops| && IsIssue(ops[i])
  {
    var sw, key := ops[i].sw, ops[i].key.value;
    var version := Issued(ops[..i], SwitchKey(sw)) + 1;
    Signed(key, Switch(sw.tenantId, sw.appId, sw.buildHash, sw.command, version, ops[i].now, sw.reason, key.id, []))
  }

  /** It is what the store holds right after the operation. */
  lemma {:induction false} IssuedIsHeld(h: Digest, ops: seq<Op>, i: nat)
    requires |ops| + 1 < TWO_63 && i < |ops| && IsIssue(ops[i])
    ensures var sw, key := Run(h, ops[..i + 1]).switches, SwitchKey(ops[i].sw);
      key in sw && sw[key] == IssuedAt(ops, i)
  {
    hide Run, Apply, SwitchPreimage, ScopeKey, SwitchEntry, Issued;
    var all, was := ops[..i + 1], ops[..i];
    assert all[..i] == was && all[i] == ops[i];
    RunStep(h, all);
    ApplyMaps(h, Run(h, was), ops[i]);
    VersionIsCount(h, was, SwitchKey(ops[i].sw));
  }

  /** Every switch a reachable store holds was issued by some operation of the run, and
      carries that operation's signature over its own bytes. */
  lemma {:induction false} HeldIsIssued(h: Digest, ops: seq<Op>, key: Str) returns (i: nat)
    requires |ops| + 1 < TWO_63 && key in Run(h, ops).switches
    ensures i < |ops| && IsIssue(ops[i]) && SwitchKey(ops[i].sw) == key
    ensures var ks := Run(h, ops).switches[key];
      && ks == IssuedAt(ops, i) && ks.keyId == ops[i].key.value.id
      && ks.signature == ops[i].key.value.sign(SwitchPreimage(ks))
    decreases |ops|
  {
    hide Run, Apply, ScopeKey, SwitchPreimage, Issued;
    if ops == [] {
      EmptyRun(h);
      assert false;
    }
    var last := |ops| - 1;
    var was := ops[..last];
    RunStep(h, ops);
    ApplyMaps(h, Run(h, was), ops[last]);
    SwitchChange(Run(h, was), ops[last], key);
    if IsIssue(ops[last]) && SwitchKey(ops[last].sw) == key {
      i := last;
      IssuedIsHeld(h, ops, i);
      assert ops[..i + 1] == ops;
    } else {
      i := HeldIsIssued(h, was, key);
      assert was[..i] == ops[..i];
    }
    IssuedIsSigned(ops, i);
  }

  lemma {:induction false} IssuedIsSigned(ops: seq<Op>, i: nat)
    requires i < |ops| && IsIssue(ops[i])
    ensures var ks := IssuedAt(ops, i);
      ks.keyId == ops[i].key.value.id && ks.signature == ops[i].key.value.sign(SwitchPreimage(ks))
  {
    hide SwitchPreimage, ScopeKey, Issued;
    var sw, key := ops[i].sw, ops[i].key.value;
    var version := Issued(ops[..i], SwitchKey(sw)) + 1;
    SignedCarries(key, Switch(sw.tenantId, sw.appId, sw.buildHash, sw.command, version, ops[i].now, sw.reason, key.id,
      []));
  }

  lemma {:induction false} IssuedGrows(ops: seq<Op>, i: nat, j: nat, key: Str)
    requires i <= j <= |ops|
    ensures Issued(ops[..i], key) <= Issued(ops[..j], key) <= j
    ensures i < j && IsIssue(ops[i]) && SwitchKey(ops[i].sw) == key ==> Issued(ops[..i], key) < Issued(ops[..j], key)
    decreases j
  {
    hide ScopeKey;
    if j == 0 {
    } else {
      assert ops[..j][..j - 1] == ops[..j - 1];
      if i < j {
        IssuedGrows(ops, i, j - 1, key);
      } else {
        IssuedGrows(ops, j - 1, j - 1, key);
      }
    }
  }

  /** Later issues under a key carry greater versions, and no two issues of a run are
      signed over the same bytes: a signature stands for one issue. */
  lemma {:induction false} EachIssueIsItsOwn(ops: seq<Op>, i: nat, j: nat)
    requires |ops| + 1 < TWO_63 && i < j < |ops| && IsIssue(ops[i]) && IsIssue(ops[j])
    requires SwitchBelow(TWO_32, IssuedAt(ops, i)) && SwitchBelow(TWO_32, IssuedAt(ops, j))
    ensures SwitchKey(ops[i].sw) == SwitchKey(ops[j].sw) ==> IssuedAt(ops, i).version < IssuedAt(ops, j).version
    ensures SwitchPreimage(IssuedAt(ops, i)) != SwitchPreimage(IssuedAt(ops, j))
  {
    hide SwitchPreimage, ScopeKey, Issued;
    PreimageExact(IssuedAt(ops, i), IssuedAt(ops, j));
    IssuedGrows(ops, i, j, SwitchKey(ops[i].sw));
  }
}
