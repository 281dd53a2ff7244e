/** What a kill switch is signed over (server/control-plane/compliance/killswitch.go). The
    signature scheme itself is any function of the bytes. */
module SwitchSigning {
  import opened Bytes
  import opened AuditChain
  import opened KillSwitch

  const SWITCH_DOMAIN: Str := Ascii("kseal/v1/kill-switch")
  const CONFIG_DOMAIN: Str := Ascii("kseal/v1/signed-config")
  const PROOF_DOMAIN: Str := Ascii("kseal/v1/request-proof")

  datatype SigningKey = SigningKey(id: Str, sign: Str -> Str)

  function CommandCode(c: Command): int {
    match c
    case Unspecified => 0
    case Enable => 1
    case Disable => 2
    case Unknown(code) => code
  }

  /** Go's uint64 of a 64-bit integer. */
  function Word(v: int): UInt64 {
    v % TWO_64
  }

  function SwitchParts(ks: Switch): seq<Part> {
    [LP(SWITCH_DOMAIN), LP(ks.tenantId), LP(ks.appId), LP(ks.buildHash), U64(Word(CommandCode(ks.command))),
     U64(Word(ks.version)), U64(Word(ks.issuedAt)), LP(ks.reason)]
  }

  function SwitchPreimage(ks: Switch): Str {
    PartsBytes(SwitchParts(ks))
  }

  /** Two switches that order the same: only who signed them, and the signature, may differ. */
  predicate SameOrder(a: Switch, b: Switch) {
    && a.tenantId == b.tenantId && a.appId == b.appId && a.buildHash == b.buildHash
    && CommandCode(a.command) == CommandCode(b.command)
    && a.version == b.version && a.issuedAt == b.issuedAt && a.reason == b.reason
  }

  /** Every text is shorter than `b`, and the numbers are 64-bit ones. */
  predicate SwitchBelow(b: nat, ks: Switch) {
    && |ks.tenantId| < b && |ks.appId| < b && |ks.buildHash| < b && |ks.reason| < b
    && -TWO_63 <= ks.version < TWO_63 && -TWO_63 <= CommandCode(ks.command) < TWO_63
  }

  lemma {:induction false} WordInjective(v: int, w: int)
    requires -TWO_63 <= v < TWO_63 && -TWO_63 <= w < TWO_63 && Word(v) == Word(w)
    ensures v == w
  {
    assert Word(v) == if v < 0 then v + TWO_64 else v;
    assert Word(w) == if w < 0 then w + TWO_64 else w;
  }

  /** The signed bytes tell everything a switch orders, and nothing else: neither the key's
      id nor the signature is part of them. */
  lemma {:induction false} PreimageExact(a: Switch, b: Switch)
    requires SwitchBelow(TWO_32, a) && SwitchBelow(TWO_32, b)
    ensures SwitchPreimage(a) == SwitchPreimage(b) <==> SameOrder(a, b)
  {
    hide PartsBytes, Word;
    if SwitchPreimage(a) == SwitchPreimage(b) {
      var ps, qs := SwitchParts(a), SwitchParts(b);
      SwitchShort(a);
      SwitchShort(b);
      PartsInjective(ps, qs);
      assert ps[1] == qs[1] && ps[2] == qs[2] && ps[3] == qs[3] && ps[4] == qs[4]
          && ps[5] == qs[5] && ps[6] == qs[6] && ps[7] == qs[7];
      WordInjective(CommandCode(a.command), CommandCode(b.command));
      WordInjective(a.version, b.version);
      WordInjective(a.issuedAt, b.issuedAt);
    }
  }

  lemma {:induction false} SwitchShort(ks: Switch)
    requires SwitchBelow(TWO_32, ks)
    ensures AllShort(SwitchParts(ks))
  {
    assert |SWITCH_DOMAIN| == 20;
  }

  ghost predicate SigningInjectiveBelow(b: nat) {
    forall x: Switch, y: Switch :: SwitchBelow(b, x) && SwitchBelow(b, y) && SwitchPreimage(x) == SwitchPreimage(y) ==>
      SameOrder(x, y)
  }

  /** A signature orders one thing only, precisely as long as no text reaches 2^32 bytes. */
  lemma {:induction false} SigningInjectiveExactly(b: nat)
    ensures SigningInjectiveBelow(b) <==> b <= TWO_32
  {
    hide SwitchPreimage;
    if b <= TWO_32 {
      forall x: Switch, y: Switch | SwitchBelow(b, x) && SwitchBelow(b, y) && SwitchPreimage(x) == SwitchPreimage(y)
        ensures SameOrder(x, y)
      {
        PreimageExact(x, y);
      }
    } else {
      var x, y := LongScopesCollide();
      assert SwitchBelow(b, x) && SwitchBelow(b, y);
    }
  }

  lemma {:induction false} LongScopesCollide() returns (x: Switch, y: Switch)
    ensures !SameOrder(x, y) && SwitchPreimage(x) == SwitchPreimage(y)
    ensures forall b :: b > TWO_32 ==> SwitchBelow(b, x) && SwitchBelow(b, y)
  {
    hide PartsBytes, Word;
    x := Switch([], LongField(), [], Disable, 1, 0, [], [], []);
    y := Switch([], [], LongField(), Disable, 1, 0, [], [], []);
    var ps, qs := SwitchParts(x), SwitchParts(y);
    var front, back := ps[..2], ps[4..];
    assert ps == front + [LP(LongField()), LP([])] + back;
    assert qs == front + [LP([]), LP(LongField())] + back;
    LongFieldSlidesIn(front, back);
    assert |x.appId| != |y.appId|;
  }

  // ---- Domain separation ----

  /** Bytes that open with different domain tags differ, whatever follows. */
  lemma {:induction false} TagsSeparate(a: Str, b: Str, x: seq<Part>, y: seq<Part>)
    requires a != b && |a| < TWO_32 && |b| < TWO_32
    ensures PartsBytes([LP(a)] + x) != PartsBytes([LP(b)] + y)
  {
    hide PartBytes;
    assert ([LP(a)] + x)[1..] == x && ([LP(b)] + y)[1..] == y;
    if PartsBytes([LP(a)] + x) == PartsBytes([LP(b)] + y) {
      PartInjective(LP(a), LP(b), PartsBytes(x), PartsBytes(y));
    }
  }

  /** A kill switch's bytes are never those of an audit event, a signed config or a
      request proof, however long any field is. */
  lemma {:induction false} DomainsSeparate(
    ks: Switch, tenant: Str, n: Int64, e: Entry, createdAt: Int64, prev: Str, rest: seq<Part>)
    ensures SwitchPreimage(ks) != Preimage(tenant, n, e, createdAt, prev)
    ensures SwitchPreimage(ks) != PartsBytes([LP(CONFIG_DOMAIN)] + rest)
    ensures SwitchPreimage(ks) != PartsBytes([LP(PROOF_DOMAIN)] + rest)
  {
    hide PartsBytes;
    Tags();
    var ps, qs := SwitchParts(ks), PreimageParts(tenant, n, e, createdAt, prev);
    assert ps == [LP(SWITCH_DOMAIN)] + ps[1..] && qs == [LP(AUDIT_DOMAIN)] + qs[1..];
    TagsSeparate(SWITCH_DOMAIN, AUDIT_DOMAIN, ps[1..], qs[1..]);
    TagsSeparate(SWITCH_DOMAIN, CONFIG_DOMAIN, ps[1..], rest);
    TagsSeparate(SWITCH_DOMAIN, PROOF_DOMAIN, ps[1..], rest);
  }

  lemma {:induction false} Tags()
    ensures |SWITCH_DOMAIN| == |AUDIT_DOMAIN| == 20 && |CONFIG_DOMAIN| == |PROOF_DOMAIN| == 22
    ensures SWITCH_DOMAIN[9] != AUDIT_DOMAIN[9]
  {
  }

  // ---- Signing ----

  method BuildSwitchPreimage(ks: Switch) returns (buf: Str)
    ensures buf == SwitchPreimage(ks)
  {
    buf := JoinParts([LP(SWITCH_DOMAIN), LP(ks.tenantId), LP(ks.appId), LP(ks.buildHash),
                      U64(Word(CommandCode(ks.command))), U64(Word(ks.version)), U64(Word(ks.issuedAt)),
                      LP(ks.reason)]);
  }

  function Signed(key: SigningKey, ks: Switch): Switch {
    ks.(signature := key.sign(SwitchPreimage(ks)))
  }

  lemma {:induction false} SignedCarries(key: SigningKey, ks: Switch)
    ensures Signed(key, ks).signature == key.sign(SwitchPreimage(Signed(key, ks)))
    ensures SameOrder(Signed(key, ks), ks) && Signed(key, ks).keyId == ks.keyId
  {
    hide PartsBytes;
    assert SwitchParts(Signed(key, ks)) == SwitchParts(ks);
  }
}
