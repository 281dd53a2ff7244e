/** Trust nonces, sessions and request sequences as one protocol
    (server/data-plane/trust/nonce.go and service.go,
    server/control-plane/registry/mem.go). One step is one Redis command or script, or
    one lock section of the session store, so every interleaving of concurrent
    attestations, proofs and revocations is a run. */
module Trust {
  import opened Bytes

  // ---- Nonce keys ----

  function HexDigit(n: int): Byte
    requires 0 <= n < 16
  {
    if n < 10 then 48 + n else 87 + n
  }

  function Hex(b: Str): (r: Str)
    ensures |r| == 2 * |b| && forall i :: 0 <= i < |r| ==> r[i] != 58
  {
    if b == [] then [] else [HexDigit(b[0] as int / 16), HexDigit(b[0] as int % 16)] + Hex(b[1..])
  }

  lemma {:induction false} HexInjective(a: Str, b: Str)
    requires Hex(a) == Hex(b)
    ensures a == b
  {
    if a != [] && b != [] {
      var x, y := Hex(a), Hex(b);
      assert x[0] == HexDigit(a[0] as int / 16) && y[0] == HexDigit(b[0] as int / 16);
      assert x[1] == HexDigit(a[0] as int % 16) && y[1] == HexDigit(b[0] as int % 16);
      assert a[0] as int / 16 == b[0] as int / 16 && a[0] as int % 16 == b[0] as int % 16;
      assert Hex(a[1..]) == x[2..] && Hex(b[1..]) == y[2..];
      HexInjective(a[1..], b[1..]);
      assert a == [a[0]] + a[1..] && b == [b[0]] + b[1..];
    }
  }

  function NonceKey(tenant: Str, nonce: Str): Str {
    Ascii("nonce:{") + tenant + Ascii("}:") + Hex(nonce)
  }

  /** Keys of different tenants or nonces never coincide, whatever a tenant id holds. */
  lemma {:induction false} NonceKeyInjective(t: Str, n: Str, u: Str, m: Str)
    requires NonceKey(t, n) == NonceKey(u, m)
    ensures t == u && n == m
  {
    hide Hex;
    var x, y := NonceKey(t, n), NonceKey(u, m);
    var i, j := 7 + |t| + 1, 7 + |u| + 1;
    assert x[i] == 58 && y[j] == 58;
    assert forall k :: i < k < |x| ==> x[k] == Hex(n)[k - i - 1];
    assert forall k :: j < k < |y| ==> y[k] == Hex(m)[k - j - 1];
    assert i == j;
    assert t == x[7..7 + |t|] && u == y[7..7 + |u|];
    assert Hex(n) == x[i + 1..] && Hex(m) == y[j + 1..];
    HexInjective(n, m);
  }

  // ---- State ----

  datatype Status = Active | Revoked | Failed

  datatype Session = Session(tenant: Str, app: Str, riskLevel: int, expiresAt: int, lastSequence: int, status: Status)

  /** A nonce together with the tenant and app it was issued for. */
  datatype Grant = Grant(tenant: Str, nonce: Str, app: Str)

  /** A request proof that has passed every check but the sequence. */
  datatype Proof = Proof(tenant: Str, token: Str, seq_: int)

  /** `passed` holds the attestations whose nonce was consumed and that have not ended.
      `issued`, `minted`, `owner` and `used` record what happened; no step reads them. */
  datatype State = State(
    nonces: map<Str, Str>, sessions: map<Str, Session>, passed: multiset<Grant>, checked: multiset<Proof>,
    issued: multiset<Grant>, minted: multiset<Grant>, owner: map<Str, Grant>, used: map<Str, seq<int>>)

  datatype Label =
    | Issue(g: Grant)
    | Expire(key: Str)
    | Consume(g: Grant)
    | Reject(g: Grant)
    | Fail(g: Grant, token: Str)
    | Mint(g: Grant, token: Str, riskLevel: int, expiresAt: int)
    | Check(p: Proof, now: int, signed: bool)
    | Use(p: Proof)
    | Revoke(tenant: Str, token: Str)

  function Initial(): State {
    State(map[], map[], multiset{}, multiset{}, multiset{}, multiset{}, map[], map[])
  }

  function Uses(s: State, token: Str): seq<int> {
    if token in s.used then s.used[token] else []
  }

  /** The Lua script: a nonce is consumed only for the app it was issued for. */
  predicate Redeems(nonces: map<Str, Str>, g: Grant) {
    var key := NonceKey(g.tenant, g.nonce);
    key in nonces && nonces[key] == g.app
  }

  /** What ConsumeSequence answers. */
  datatype UseResult = Used | Replay | NotFound

  function UseOf(sessions: map<Str, Session>, p: Proof): UseResult {
    if p.token !in sessions || sessions[p.token].tenant != p.tenant || sessions[p.token].status != Active then NotFound
    else if p.seq_ <= sessions[p.token].lastSequence then Replay
    else Used
  }

  function AfterConsume(s: State, g: Grant): State {
    if g.tenant == [] || g.app == [] || !Redeems(s.nonces, g) then s
    else s.(nonces := s.nonces - {NonceKey(g.tenant, g.nonce)}, passed := s.passed + multiset{g})
  }

  function AfterMint(s: State, g: Grant, token: Str, level: int, expires: int): State {
    s.(passed := s.passed - multiset{g}, minted := s.minted + multiset{g}, owner := s.owner[token := g],
       sessions := s.sessions[token := Session(g.tenant, g.app, level, expires, 0, Active)])
  }

  function AfterUse(s: State, p: Proof): (r: State)
    ensures r.nonces == s.nonces && r.issued == s.issued && r.passed == s.passed && r.minted == s.minted
    ensures r.owner == s.owner
  {
    var t := s.(checked := s.checked - multiset{p});
    if !UseOf(s.sessions, p).Used? then t
    else t.(sessions := s.sessions[p.token := s.sessions[p.token].(lastSequence := p.seq_)],
      used := s.used[p.token := Uses(s, p.token) + [p.seq_]])
  }

  function AfterRevoke(s: State, tenant: Str, token: Str): (r: State)
    ensures r.nonces == s.nonces && r.issued == s.issued && r.passed == s.passed && r.minted == s.minted
    ensures r.owner == s.owner
  {
    if token !in s.sessions || s.sessions[token].tenant != tenant then s
    else s.(sessions := s.sessions[token := s.sessions[token].(status := Revoked)])
  }

  predicate Checks(s: State, p: Proof, now: int, signed: bool) {
    && p.token in s.sessions && s.sessions[p.token].tenant == p.tenant && s.sessions[p.token].status == Active
    && now < s.sessions[p.token].expiresAt && signed
  }

  /** Minted and recorded token ids are fresh UUIDs. */
  function Step(s: State, l: Label): Option<State> {
    match l
    case Issue(g) =>
      Some(s.(nonces := s.nonces[NonceKey(g.tenant, g.nonce) := g.app], issued := s.issued + multiset{g}))
    case Expire(key) => Some(s.(nonces := s.nonces - {key}))
    case Consume(g) => Some(AfterConsume(s, g))
    case Reject(g) => if g in s.passed then Some(s.(passed := s.passed - multiset{g})) else None
    case Fail(g, token) =>
      if g !in s.passed || token in s.sessions then None
      else Some(s.(passed := s.passed - multiset{g},
        sessions := s.sessions[token := Session(g.tenant, g.app, 0, 0, 0, Failed)]))
    case Mint(g, token, level, expires) =>
      if g !in s.passed || token in s.sessions then None else Some(AfterMint(s, g, token, level, expires))
    case Check(p, now, signed) => Some(if Checks(s, p, now, signed) then s.(checked := s.checked + multiset{p}) else s)
    case Use(p) => if p in s.checked then Some(AfterUse(s, p)) else None
    case Revoke(tenant, token) => Some(AfterRevoke(s, tenant, token))
  }

  // ---- Invariant ----

  function Outstanding(s: State, g: Grant): nat {
    if Redeems(s.nonces, g) then 1 else 0
  }

  /** Every issue of a nonce is spent at most once, by its own tenant and app. */
  ghost predicate Spent(s: State) {
    forall g: Grant :: s.minted[g] + s.passed[g] + Outstanding(s, g) <= s.issued[g]
  }

  function Owned(s: State, g: Grant): set<Str> {
    set token | token in s.owner && s.owner[token] == g
  }

  predicate Owns(s: State, token: Str, g: Grant) {
    token in s.sessions && s.sessions[token].tenant == g.tenant && s.sessions[token].app == g.app
  }

  /** A session was minted from a nonce of its own tenant and app, one session for each
      minting. */
  ghost predicate Minted(s: State) {
    && (forall token :: token in s.sessions && s.sessions[token].status == Active ==> token in s.owner)
    && (forall token :: token in s.owner ==> Owns(s, token, s.owner[token]))
    && (forall g: Grant :: |Owned(s, g)| == s.minted[g])
  }

  ghost predicate ClimbsTo(u: seq<int>, session: Option<Session>) {
    && (u != [] ==> session.Some? && u[0] >= 1 && u[|u| - 1] == session.value.lastSequence)
    && (u == [] && session.Some? ==> session.value.lastSequence == 0)
    && (forall i, j :: 0 <= i < j < |u| ==> u[i] < u[j])
  }

  function SessionOf(s: State, token: Str): Option<Session> {
    if token in s.sessions then Some(s.sessions[token]) else None
  }

  /** The accepted sequence numbers of a token climb from one to the stored last one. */
  ghost predicate Climbs(s: State) {
    forall token :: ClimbsTo(Uses(s, token), SessionOf(s, token))
  }

  ghost predicate Inv(s: State) {
    Spent(s) && Minted(s) && Climbs(s)
  }

  // ---- Nonces ----

  lemma {:induction false} IssueSpends(s: State, g: Grant)
    requires Spent(s)
    ensures Spent(Step(s, Issue(g)).value)
  {
    hide NonceKey;
    var t := Step(s, Issue(g)).value;
    forall x: Grant ensures t.minted[x] + t.passed[x] + Outstanding(t, x) <= t.issued[x] {
      assert s.minted[x] + s.passed[x] + Outstanding(s, x) <= s.issued[x];
      if NonceKey(x.tenant, x.nonce) == NonceKey(g.tenant, g.nonce) {
        NonceKeyInjective(x.tenant, x.nonce, g.tenant, g.nonce);
      }
    }
  }

  lemma {:induction false} ConsumeSpends(s: State, g: Grant)
    requires Spent(s)
    ensures Spent(AfterConsume(s, g))
  {
    hide NonceKey;
    var t := AfterConsume(s, g);
    forall x: Grant ensures t.minted[x] + t.passed[x] + Outstanding(t, x) <= t.issued[x] {
      assert s.minted[x] + s.passed[x] + Outstanding(s, x) <= s.issued[x];
    }
  }

  lemma {:induction false} ExpireSpends(s: State, key: Str)
    requires Spent(s)
    ensures Spent(s.(nonces := s.nonces - {key}))
  {
    hide NonceKey;
    var t := s.(nonces := s.nonces - {key});
    forall x: Grant ensures t.minted[x] + t.passed[x] + Outstanding(t, x) <= t.issued[x] {
      assert s.minted[x] + s.passed[x] + Outstanding(s, x) <= s.issued[x];
    }
  }

  /** A passed attestation ends, in at most one session. */
  lemma {:induction false} EndSpends(s: State, t: State, g: Grant)
    requires Spent(s) && g in s.passed && t.issued == s.issued && t.nonces == s.nonces
    requires t.passed == s.passed - multiset{g} && (t.minted == s.minted || t.minted == s.minted + multiset{g})
    ensures Spent(t)
  {
    hide NonceKey, Redeems;
    forall x: Grant ensures t.minted[x] + t.passed[x] + Outstanding(t, x) <= t.issued[x] {
      assert s.minted[x] + s.passed[x] + Outstanding(s, x) <= s.issued[x];
    }
  }

  lemma {:induction false} SameSpends(s: State, t: State)
    requires Spent(s) && t.issued == s.issued && t.nonces == s.nonces && t.passed == s.passed && t.minted == s.minted
    ensures Spent(t)
  {
    hide NonceKey, Redeems;
    forall x: Grant ensures t.minted[x] + t.passed[x] + Outstanding(t, x) <= t.issued[x] {
      assert s.minted[x] + s.passed[x] + Outstanding(s, x) <= s.issued[x];
    }
  }

  lemma {:induction false} StepSpends(s: State, l: Label)
    requires Spent(s) && Step(s, l).Some?
    ensures Spent(Step(s, l).value)
  {
    hide Spent, Step;
    match l {
      case Issue(g) => IssueSpends(s, g);
      case Consume(_) => NonceSpends(s, l);
      case Expire(_) => NonceSpends(s, l);
      case Reject(_) => PassedSpends(s, l);
      case Fail(_, _) => PassedSpends(s, l);
      case Mint(_, _, _, _) => PassedSpends(s, l);
      case _ => SessionSpends(s, l);
    }
  }

  lemma {:induction false} NonceSpends(s: State, l: Label)
    requires Spent(s) && (l.Consume? || l.Expire?)
    ensures Spent(Step(s, l).value)
  {
    hide Spent, NonceKey, AfterConsume;
    if l.Consume? {
      ConsumeSpends(s, l.g);
    } else {
      ExpireSpends(s, l.key);
    }
  }

  lemma {:induction false} PassedSpends(s: State, l: Label)
    requires Spent(s) && (l.Reject? || l.Fail? || l.Mint?) && Step(s, l).Some?
    ensures Spent(Step(s, l).value)
  {
    hide Spent;
    EndSpends(s, Step(s, l).value, l.g);
  }

  lemma {:induction false} SessionSpends(s: State, l: Label)
    requires Spent(s) && (l.Check? || l.Use? || l.Revoke?) && Step(s, l).Some?
    ensures Spent(Step(s, l).value)
  {
    hide Spent, AfterUse, AfterRevoke, Checks;
    SameSpends(s, Step(s, l).value);
  }

  // ---- Sessions ----

  lemma {:induction false} MintOwns(s: State, g: Grant, token: Str, level: int, expires: int)
    requires Minted(s) && token !in s.sessions
    ensures Minted(AfterMint(s, g, token, level, expires))
  {
    var t := AfterMint(s, g, token, level, expires);
    assert token !in s.owner;
    forall x: Grant ensures |Owned(t, x)| == t.minted[x] {
      MintCounts(s, t, g, token, x);
    }
    hide Owned;
  }

  lemma {:induction false} MintCounts(s: State, t: State, g: Grant, token: Str, x: Grant)
    requires token !in s.owner && t.owner == s.owner[token := g] && t.minted == s.minted + multiset{g}
    requires |Owned(s, x)| == s.minted[x]
    ensures |Owned(t, x)| == t.minted[x]
  {
    if x == g {
      assert Owned(t, x) == Owned(s, x) + {token};
    } else {
      assert Owned(t, x) == Owned(s, x);
    }
  }

  /** One session is added unminted, or changes without changing hands. */
  lemma {:induction false} SessionOwns(s: State, t: State, token: Str, x: Session)
    requires Minted(s) && t.owner == s.owner && t.minted == s.minted && t.sessions == s.sessions[token := x]
    requires token !in s.sessions ==> x.status != Active
    requires token in s.sessions ==> x.tenant == s.sessions[token].tenant && x.app == s.sessions[token].app
    requires token in s.sessions && x.status == Active ==> s.sessions[token].status == Active
    ensures Minted(t)
  {
    forall g: Grant ensures |Owned(t, g)| == t.minted[g] {
      assert Owned(t, g) == Owned(s, g);
    }
  }

  lemma {:induction false} SameOwns(s: State, t: State)
    requires Minted(s) && t.owner == s.owner && t.minted == s.minted && t.sessions == s.sessions
    ensures Minted(t)
  {
    forall g: Grant ensures |Owned(t, g)| == t.minted[g] {
      assert Owned(t, g) == Owned(s, g);
    }
  }

  lemma {:induction false} StepMints(s: State, l: Label)
    requires Minted(s) && Step(s, l).Some?
    ensures Minted(Step(s, l).value)
  {
    hide Minted, NonceKey, Redeems, AfterUse, AfterRevoke, AfterMint, Checks;
    var t := Step(s, l).value;
    match l {
      case Mint(g, token, level, expires) => MintOwns(s, g, token, level, expires);
      case Fail(g, token) => SessionOwns(s, t, token, t.sessions[token]);
      case Use(p) => UseOwns(s, p);
      case Revoke(tenant, token) => RevokeOwns(s, tenant, token);
      case _ => QuietMints(s, l);
    }
  }

  lemma {:induction false} QuietMints(s: State, l: Label)
    requires Minted(s) && Step(s, l).Some? && !(l.Mint? || l.Fail? || l.Use? || l.Revoke?)
    ensures Minted(Step(s, l).value)
  {
    hide Minted, NonceKey, Redeems, AfterUse, AfterRevoke, AfterMint, Checks, Owned;
    SameOwns(s, Step(s, l).value);
  }

  lemma {:induction false} UseOwns(s: State, p: Proof)
    requires Minted(s)
    ensures Minted(AfterUse(s, p))
  {
    hide Minted, Uses;
    var t := AfterUse(s, p);
    if UseOf(s.sessions, p).Used? {
      SessionOwns(s, t, p.token, t.sessions[p.token]);
    } else {
      SameOwns(s, t);
    }
  }

  lemma {:induction false} RevokeOwns(s: State, tenant: Str, token: Str)
    requires Minted(s)
    ensures Minted(AfterRevoke(s, tenant, token))
  {
    hide Minted;
    var t := AfterRevoke(s, tenant, token);
    if token in s.sessions && s.sessions[token].tenant == tenant {
      SessionOwns(s, t, token, t.sessions[token]);
    } else {
      SameOwns(s, t);
    }
  }

  /** What a step other than a use does to one token: its session keeps its last
      sequence, or is new, and its accepted numbers stay. */
  lemma {:induction false} TokenFrame(s: State, l: Label, token: Str)
    requires Step(s, l).Some? && !(l.Use? && l.p.token == token)
    ensures Framed(s, Step(s, l).value, token)
  {
    hide NonceKey, Redeems, Checks, UseOf, Framed, Step;
    match l {
      case Mint(_, _, _, _) => MintFrame(s, l, token);
      case Fail(_, _) => MintFrame(s, l, token);
      case Use(_) => UseFrame(s, l, token);
      case Revoke(_, _) => UseFrame(s, l, token);
      case _ => NonceFrame(s, l, token);
    }
  }

  predicate Framed(s: State, t: State, token: Str) {
    && Uses(t, token) == Uses(s, token)
    && (token in s.sessions ==> token in t.sessions && t.sessions[token].lastSequence == s.sessions[token].lastSequence)
    && (token in s.sessions && s.sessions[token].status != Active ==> t.sessions[token].status != Active)
    && (token in t.sessions && token !in s.sessions ==> t.sessions[token].lastSequence == 0)
  }

  lemma {:induction false} MintFrame(s: State, l: Label, token: Str)
    requires (l.Mint? || l.Fail?) && Step(s, l).Some?
    ensures Framed(s, Step(s, l).value, token)
  {
  }

  lemma {:induction false} UseFrame(s: State, l: Label, token: Str)
    requires (l.Use? && l.p.token != token) || l.Revoke?
    requires Step(s, l).Some?
    ensures Framed(s, Step(s, l).value, token)
  {
    hide UseOf;
  }

  lemma {:induction false} NonceFrame(s: State, l: Label, token: Str)
    requires (l.Issue? || l.Expire? || l.Consume? || l.Reject? || l.Check?) && Step(s, l).Some?
    ensures Framed(s, Step(s, l).value, token)
  {
    hide NonceKey, Redeems, Checks;
  }

  lemma {:induction false} UseClimbs(s: State, p: Proof)
    requires ClimbsTo(Uses(s, p.token), SessionOf(s, p.token))
    ensures ClimbsTo(Uses(AfterUse(s, p), p.token), SessionOf(AfterUse(s, p), p.token))
  {
    var u, t := Uses(s, p.token), AfterUse(s, p);
    if UseOf(s.sessions, p).Used? {
      assert Uses(t, p.token) == u + [p.seq_];
      assert u != [] ==> p.seq_ > u[|u| - 1];
    }
  }

  lemma {:induction false} StepClimbs(s: State, l: Label)
    requires Climbs(s) && Step(s, l).Some?
    ensures Climbs(Step(s, l).value)
  {
    hide Step, ClimbsTo, AfterUse, Uses, Climbs;
    var t := Step(s, l).value;
    forall token ensures ClimbsTo(Uses(t, token), SessionOf(t, token)) {
      ClimbsAt(s, token);
      TokenClimbs(s, l, token);
    }
    ClimbsAll(t);
  }

  lemma {:induction false} ClimbsAt(s: State, token: Str)
    requires Climbs(s)
    ensures ClimbsTo(Uses(s, token), SessionOf(s, token))
  {
  }

  lemma {:induction false} ClimbsAll(s: State)
    requires forall token :: ClimbsTo(Uses(s, token), SessionOf(s, token))
    ensures Climbs(s)
  {
  }

  lemma {:induction false} TokenClimbs(s: State, l: Label, token: Str)
    requires ClimbsTo(Uses(s, token), SessionOf(s, token)) && Step(s, l).Some?
    ensures ClimbsTo(Uses(Step(s, l).value, token), SessionOf(Step(s, l).value, token))
  {
    hide Uses, AfterUse;
    if l.Use? && l.p.token == token {
      UseClimbs(s, l.p);
    } else {
      TokenFrame(s, l, token);
      hide Step;
    }
  }

  // ---- Runs ----

  ghost predicate IsRun(states: seq<State>, labels: seq<Label>) {
    && |states| == |labels| + 1 && states[0] == Initial()
    && forall i :: 0 <= i < |labels| ==> Step(states[i], labels[i]) == Some(states[i + 1])
  }

  lemma {:induction false} InitialInv()
    ensures Inv(Initial())
  {
    var s := Initial();
    forall g: Grant ensures |Owned(s, g)| == s.minted[g] {
      assert Owned(s, g) == {};
    }
  }

  lemma {:induction false} RunInv(states: seq<State>, labels: seq<Label>, n: nat)
    requires IsRun(states, labels) && n <= |labels|
    ensures Inv(states[n])
  {
    hide Spent, Minted, Climbs, Step;
    if n == 0 {
      InitialInv();
    } else {
      RunInv(states, labels, n - 1);
      assert Step(states[n - 1], labels[n - 1]) == Some(states[n]);
      StepSpends(states[n - 1], labels[n - 1]);
      StepMints(states[n - 1], labels[n - 1]);
      StepClimbs(states[n - 1], labels[n - 1]);
    }
  }

  // ---- What holds on every run ----

  /** Accepted sequence numbers of one token strictly increase from at least one, even
      when session reads and sequence checks interleave. */
  lemma {:induction false} SequencesIncrease(states: seq<State>, labels: seq<Label>, n: nat, token: Str, i: nat, j: nat)
    requires IsRun(states, labels) && n <= |labels| && i <= j < |Uses(states[n], token)|
    ensures 1 <= Uses(states[n], token)[i] && (i < j ==> Uses(states[n], token)[i] < Uses(states[n], token)[j])
  {
    hide Spent, Minted, Climbs, Step, Uses;
    RunInv(states, labels, n);
    ClimbsAt(states[n], token);
    assert i > 0 ==> Uses(states[n], token)[0] < Uses(states[n], token)[i];
  }

  /** No nonce mints more sessions than the times it was issued, and only for the tenant
      and app it was issued for. */
  lemma {:induction false} NonceMintsOnce(states: seq<State>, labels: seq<Label>, n: nat, g: Grant)
    requires IsRun(states, labels) && n <= |labels|
    ensures |Owned(states[n], g)| <= states[n].issued[g]
  {
    hide Climbs, Step, Owned;
    RunInv(states, labels, n);
    var s := states[n];
    assert s.minted[g] + s.passed[g] + Outstanding(s, g) <= s.issued[g] && |Owned(s, g)| == s.minted[g];
  }

  /** Behind every active session there is a nonce issued for its tenant and app. */
  lemma {:induction false} ActiveSessionWasIssued(states: seq<State>, labels: seq<Label>, n: nat, token: Str)
    requires IsRun(states, labels) && n <= |labels| && token in states[n].sessions
    requires states[n].sessions[token].status == Active
    ensures token in states[n].owner
    ensures var g := states[n].owner[token];
      states[n].issued[g] >= 1 && g.tenant == states[n].sessions[token].tenant && g.app == states[n].sessions[token].app
  {
    hide Climbs, Step, Spent;
    RunInv(states, labels, n);
    var g := states[n].owner[token];
    assert token in Owned(states[n], g);
    NonceMintsOnce(states, labels, n, g);
  }

  lemma {:induction false} RevokedStays(s: State, l: Label, token: Str)
    requires token in s.sessions && s.sessions[token].status != Active && Step(s, l).Some?
    ensures var t := Step(s, l).value;
      token in t.sessions && t.sessions[token].status != Active && Uses(t, token) == Uses(s, token)
  {
    if !(l.Use? && l.p.token == token) {
      TokenFrame(s, l, token);
      hide Step;
    }
  }

  /** Once a session is revoked (or failed), nothing is accepted for its token again. */
  lemma {:induction false} NoUseAfterRevocation(states: seq<State>, labels: seq<Label>, m: nat, n: nat, token: Str)
    requires IsRun(states, labels) && m <= n <= |labels|
    requires token in states[m].sessions && states[m].sessions[token].status != Active
    ensures token in states[n].sessions && states[n].sessions[token].status != Active
    ensures Uses(states[n], token) == Uses(states[m], token)
    decreases n - m
  {
    if m < n {
      hide Step, Uses;
      NoUseAfterRevocation(states, labels, m, n - 1, token);
      assert Step(states[n - 1], labels[n - 1]) == Some(states[n]);
      RevokedStays(states[n - 1], labels[n - 1], token);
    }
  }
}
