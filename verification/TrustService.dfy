/** The nonce and session stores and the request-proof check as they run
    (server/data-plane/trust/nonce.go and service.go,
    server/control-plane/registry/mem.go), proved against the protocol's functions. */
module TrustService {
  import opened Bytes
  import opened Trust
  import Risk

  /** Single-use nonces in Redis; expiry is left to Redis. */
  class NonceStore {
    var redis: map<Str, Str>

    constructor ()
      ensures redis == map[]
    {
      redis := map[];
    }

    method Issue(tenant: Str, app: Str, nonce: Str)
      modifies this
      ensures redis == old(redis)[NonceKey(tenant, nonce) := app]
      ensures Redeems(redis, Grant(tenant, nonce, app))
    {
      redis := redis[NonceKey(tenant, nonce) := app];
    }

    /** True once, and only for the app the nonce was issued for; every other nonce
        stays redeemable exactly as it was. */
    method Consume(tenant: Str, nonce: Str, app: Str) returns (ok: bool)
      modifies this
      ensures ok <==> old(Redeems(redis, Grant(tenant, nonce, app)))
      ensures !ok ==> redis == old(redis)
      ensures ok ==> forall x :: !Redeems(redis, Grant(tenant, nonce, x))
      ensures forall g: Grant :: g.tenant != tenant || g.nonce != nonce ==>
        (Redeems(redis, g) <==> old(Redeems(redis, g)))
    {
      var key := NonceKey(tenant, nonce);
      ok := key in redis && redis[key] == app;
      if ok {
        forall g: Grant | g.tenant != tenant || g.nonce != nonce ensures NonceKey(g.tenant, g.nonce) != key {
          if NonceKey(g.tenant, g.nonce) == key {
            NonceKeyInjective(g.tenant, g.nonce, tenant, nonce);
          }
        }
        hide NonceKey;
        redis := redis - {key};
      }
    }
  }

  class SessionStore {
    var sessions: map<Str, Session>

    constructor ()
      ensures sessions == map[]
    {
      sessions := map[];
    }

    method CreateTrustSession(token: Str, x: Session) returns (ok: bool)
      modifies this
      ensures ok <==> x.tenant != [] && token != []
      ensures sessions == if ok then old(sessions)[token := x.(status := Active)] else old(sessions)
    {
      if x.tenant == [] || token == [] {
        return false;
      }
      sessions := sessions[token := x.(status := Active)];
      ok := true;
    }

    method GetTrustSession(tenant: Str, token: Str) returns (r: Option<Session>)
      ensures r.Some? <==> token in sessions && sessions[token].tenant == tenant
      ensures r.Some? ==> r.value == sessions[token]
    {
      if token !in sessions || sessions[token].tenant != tenant {
        return None;
      }
      r := Some(sessions[token]);
    }

    /** Advances the sequence under the store's lock, whatever was read before. */
    method ConsumeSequence(tenant: Str, token: Str, n: int) returns (r: UseResult)
      modifies this
      ensures r == UseOf(old(sessions), Proof(tenant, token, n))
      ensures r.Used? ==>
        token in old(sessions) && sessions == old(sessions)[token := old(sessions)[token].(lastSequence := n)]
      ensures !r.Used? ==> sessions == old(sessions)
    {
      if token !in sessions || sessions[token].tenant != tenant || sessions[token].status != Active {
        return NotFound;
      }
      if n <= sessions[token].lastSequence {
        return Replay;
      }
      sessions := sessions[token := sessions[token].(lastSequence := n)];
      r := Used;
    }

    method RevokeTrustSession(tenant: Str, token: Str) returns (found: bool)
      modifies this
      ensures found <==> token in old(sessions) && old(sessions)[token].tenant == tenant
      ensures sessions == if found then old(sessions)[token := old(sessions)[token].(status := Revoked)]
        else old(sessions)
      ensures found ==> forall n :: UseOf(sessions, Proof(tenant, token, n)) == NotFound
    {
      if token !in sessions || sessions[token].tenant != tenant {
        return false;
      }
      sessions := sessions[token := sessions[token].(status := Revoked)];
      found := true;
    }

    /** A failed attestation leaves a session nobody can use. */
    method RecordFailedAttestation(x: Session, token: Str) returns (ok: bool)
      modifies this
      ensures ok <==> x.tenant != []
      ensures sessions == if ok then old(sessions)[token := x.(status := Failed)] else old(sessions)
      ensures ok ==> forall tenant, n :: UseOf(sessions, Proof(tenant, token, n)) == NotFound
    {
      if x.tenant == [] {
        return false;
      }
      sessions := sessions[token := x.(status := Failed)];
      ok := true;
    }
  }

  /** A request proof as received; `signed` says whether the HMAC over it verifies. */
  datatype Request = Request(
    token: Str, wellFormedToken: bool, requestHash: Str, nonce: Str, signature: Str, seq_: int, signed: bool)

  predicate Complete(m: Request) {
    m.token != [] && m.requestHash != [] && m.nonce != [] && m.signature != [] && m.wellFormedToken
  }

  datatype Verdict = Denied | Decided(decision: Risk.Severity)

  /** A request passes exactly when it is complete, its session is this tenant's, active
      and unexpired, its signature holds and its sequence number is new; it then advances
      the sequence and gets the policy's decision for the session's level. Everything
      else is denied and changes nothing. */
  method ValidateRequestProof(
    store: SessionStore, tenant: Str, m: Request, now: int, mode: Option<Risk.Mode>)
    returns (v: Verdict)
    modifies store
    ensures var p := Proof(tenant, m.token, m.seq_);
      v.Decided? <==>
        && Complete(m) && tenant != [] && UseOf(old(store.sessions), p).Used?
        && now < old(store.sessions)[m.token].expiresAt && m.signed
    ensures v.Denied? ==> store.sessions == old(store.sessions)
    ensures v.Decided? ==>
      && m.token in old(store.sessions)
      && store.sessions == old(store.sessions)[m.token := old(store.sessions)[m.token].(lastSequence := m.seq_)]
      && UseOf(store.sessions, Proof(tenant, m.token, m.seq_)) == Replay
      && v.decision == Risk.Decision(LevelOf(old(store.sessions)[m.token]),
           if mode.Some? then mode.value else Risk.StepUpMode)
  {
    if !Complete(m) || tenant == [] {
      return Denied;
    }
    var sess := store.GetTrustSession(tenant, m.token);
    if sess.None? || sess.value.status != Active || now >= sess.value.expiresAt || !m.signed {
      return Denied;
    }
    var r := store.ConsumeSequence(tenant, m.token, m.seq_);
    if !r.Used? {
      return Denied;
    }
    v := Decided(Risk.Decision(LevelOf(sess.value), if mode.Some? then mode.value else Risk.StepUpMode));
  }

  /** The stored level, read as a trust level; anything else is unspecified. */
  function LevelOf(x: Session): Risk.Level {
    if 0 <= x.riskLevel <= 5 then x.riskLevel else 0
  }

  /** What an attestation presents: the device's risk bits, whether the app is registered
      with a package id, and what the platform verifier and the fleet guard make of it. */
  datatype Attested = Attested(
    registered: bool, accepted: bool, wire: Risk.Bits, derived: Risk.Bits, fleet: bool, expiresAt: int)

  /** Mints a session exactly when the nonce was live for this tenant and app and the
      attestation of a registered app was accepted; its level is the policy's level of
      the fused risk, and a live nonce is spent either way. */
  method VerifyAttestation(
    nonces: NonceStore, store: SessionStore, tenant: Str, app: Str, nonce: Str, a: Attested, policy: Risk.Policy,
    token: Str)
    returns (minted: bool)
    requires token !in store.sessions && token != []
    modifies nonces, store
    ensures minted <==>
      tenant != [] && app != [] && old(Redeems(nonces.redis, Grant(tenant, nonce, app))) && a.registered && a.accepted
    ensures tenant != [] && app != [] && old(Redeems(nonces.redis, Grant(tenant, nonce, app))) ==>
      forall x :: !Redeems(nonces.redis, Grant(tenant, nonce, x))
    ensures minted ==>
      && token in store.sessions && store.sessions == old(store.sessions)[token := store.sessions[token]]
      && store.sessions[token].tenant == tenant && store.sessions[token].app == app &&
           store.sessions[token].status == Active
      && store.sessions[token].lastSequence == 0
      && Risk.IsLevel(Risk.Score(Risk.Fused(a.wire, a.derived, a.fleet), policy.weights), policy.thresholds,
           LevelOf(store.sessions[token]))
    ensures !minted ==> forall p :: UseOf(store.sessions, p).Used? ==> UseOf(old(store.sessions), p).Used?
  {
    if tenant == [] || app == [] {
      return false;
    }
    var ok := nonces.Consume(tenant, nonce, app);
    if !ok || !a.registered {
      return false;
    }
    if !a.accepted {
      var _ := store.RecordFailedAttestation(Session(tenant, app, 0, 0, 0, Failed), token);
      return false;
    }
    var reported := Risk.FromWire(a.wire);
    var bits: Risk.Bits := reported + a.derived;
    if a.fleet {
      bits := bits + {Risk.BIT_FLEET_ANOMALY};
    }
    assert bits == Risk.Fused(a.wire, a.derived, a.fleet);
    var score := Risk.ScoreBits(bits, policy.weights);
    var level := Risk.LevelOf(score, policy.thresholds);
    hide Risk.IsLevel, Risk.Score, Risk.Fused;
    minted := store.CreateTrustSession(token, Session(tenant, app, level, a.expiresAt, 0, Active));
  }
}
