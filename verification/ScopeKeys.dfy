/** The three-part map key of the compliance store (scopeKey in
    server/control-plane/compliance/mem.go): the parts joined by NUL bytes. */
module ScopeKeys {
  import opened Bytes

  datatype Scope = Scope(tenant: Str, app: Str, build: Str)

  function ScopeKey(s: Scope): Str {
    s.tenant + [0] + s.app + [0] + s.build
  }

  predicate NulFree(s: Str) {
    forall i :: 0 <= i < |s| ==> s[i] != 0
  }

  predicate Plain(s: Scope) {
    NulFree(s.tenant) && NulFree(s.app) && NulFree(s.build)
  }

  function Nuls(s: Str): nat {
    if s == [] then 0 else (if s[0] == 0 then 1 else 0) + Nuls(s[1..])
  }

  lemma {:induction false} NulsAppend(a: Str, b: Str)
    ensures Nuls(a + b) == Nuls(a) + Nuls(b)
  {
    if a == [] {
      assert a + b == b;
    } else {
      NulsAppend(a[1..], b);
      assert (a + b)[1..] == a[1..] + b;
    }
  }

  lemma {:induction false} NulFreeCount(s: Str)
    ensures NulFree(s) <==> Nuls(s) == 0
  {
    if s == [] {
    } else {
      NulFreeCount(s[1..]);
      assert NulFree(s) <==> s[0] != 0 && NulFree(s[1..]) by {
        assert forall i :: 1 <= i < |s| ==> s[i] == s[1..][i - 1];
      }
    }
  }

  lemma {:induction false} KeyNuls(s: Scope)
    ensures Nuls(ScopeKey(s)) == 2 + Nuls(s.tenant) + Nuls(s.app) + Nuls(s.build)
  {
    NulsAppend(s.tenant + [0] + s.app + [0], s.build);
    NulsAppend(s.tenant + [0] + s.app, [0]);
    NulsAppend(s.tenant + [0], s.app);
    NulsAppend(s.tenant, [0]);
    assert Nuls([0]) == 1;
  }

  /** Two NUL-free heads before a NUL are equal when the joined strings are. */
  lemma {:induction false} SplitAtNul(a: Str, x: Str, b: Str, y: Str)
    requires NulFree(a) && NulFree(b) && a + [0] + x == b + [0] + y
    ensures a == b && x == y
  {
    var s, t := a + [0] + x, b + [0] + y;
    assert s[|a|] == 0 && t[|b|] == 0;
    assert forall i :: 0 <= i < |a| ==> s[i] == a[i];
    assert forall i :: 0 <= i < |b| ==> t[i] == b[i];
    assert |a| == |b|;
    assert a == s[..|a|] && b == t[..|b|] && x == s[|a| + 1..] && y == t[|b| + 1..];
  }

  lemma {:induction false} PlainKeysDiffer(s: Scope, t: Scope)
    requires Plain(s) && Plain(t) && ScopeKey(s) == ScopeKey(t)
    ensures s == t
  {
    assert ScopeKey(s) == s.tenant + [0] + (s.app + [0] + s.build);
    assert ScopeKey(t) == t.tenant + [0] + (t.app + [0] + t.build);
    SplitAtNul(s.tenant, s.app + [0] + s.build, t.tenant, t.app + [0] + t.build);
    SplitAtNul(s.app, s.build, t.app, t.build);
  }

  lemma {:induction false} NulSplits(s: Str) returns (a: Str, b: Str)
    requires !NulFree(s)
    ensures s == a + [0] + b
  {
    var i :| 0 <= i < |s| && s[i] == 0;
    a, b := s[..i], s[i + 1..];
  }

  /** A scope whose parts hold a NUL shares its key with another scope. */
  lemma {:induction false} NulCollides(s: Scope) returns (t: Scope)
    requires !Plain(s)
    ensures t != s && ScopeKey(t) == ScopeKey(s)
  {
    if !NulFree(s.tenant) {
      var a, b := NulSplits(s.tenant);
      t := Scope(a, b, s.app + [0] + s.build);
      assert |t.tenant| < |s.tenant|;
      assert ScopeKey(t) == a + [0] + b + [0] + (s.app + [0] + s.build) == ScopeKey(s);
    } else if !NulFree(s.app) {
      var a, b := NulSplits(s.app);
      t := Scope(s.tenant, a, b + [0] + s.build);
      assert |t.app| < |s.app|;
      assert ScopeKey(t) == s.tenant + [0] + a + [0] + (b + [0] + s.build) == ScopeKey(s);
    } else {
      var a, b := NulSplits(s.build);
      t := Scope(s.tenant, s.app + [0] + a, b);
      assert |t.app| > |s.app|;
      assert ScopeKey(t) == s.tenant + [0] + (s.app + [0] + a) + [0] + b == ScopeKey(s);
    }
  }

  /** A scope has its map entry to itself if and only if its parts are free of NUL. */
  lemma {:induction false} OwnKeyExact(s: Scope)
    ensures Plain(s) <==> forall t: Scope :: ScopeKey(t) == ScopeKey(s) ==> t == s
  {
    if Plain(s) {
      forall t: Scope | ScopeKey(t) == ScopeKey(s) ensures t == s {
        KeyNuls(s);
        KeyNuls(t);
        NulFreeCount(s.tenant);
        NulFreeCount(s.app);
        NulFreeCount(s.build);
        NulFreeCount(t.tenant);
        NulFreeCount(t.app);
        NulFreeCount(t.build);
        PlainKeysDiffer(s, t);
      }
    } else {
      var t := NulCollides(s);
    }
  }
}
