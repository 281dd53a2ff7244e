/** The tamper-evident audit trail (server/control-plane/compliance/audit.go): the
    canonical bytes an event commits to and the chain that links the events. */
module AuditChain {
  import opened Bytes
  import opened Sorting

  datatype Entry = Entry(action: Str, resourceType: Str, resourceId: Str, actorKeyId: Str, metadata: map<Str, Str>)

  datatype AuditEvent = AuditEvent(
    tenantId: Str, seq_: Int64, entry: Entry, prevHash: Str, hash: Str, createdAt: Int64)

  datatype VerifyResult = VerifyResult(intact: bool, verifiedCount: int, brokenSeq: int, headHash: Str)

  /** A digest, hex-encoded: SHA-256 in the source, any function of the bytes here. */
  type Digest = Str -> Str

  ghost predicate IsDigest(h: Digest) {
    forall x :: 0 < |h(x)| < TWO_32
  }

  // ---- Length-prefixed parts ----

  datatype Part = LP(field: Str) | U64(value: UInt64)

  function Put32(n: nat): (r: Str)
    requires n < TWO_32
    ensures |r| == 4
  {
    var low := n % 0x100_0000;
    var lower := low % 0x1_0000;
    [n / 0x100_0000, low / 0x1_0000, lower / 0x100, lower % 0x100]
  }

  function Put64(v: UInt64): (r: Str)
    ensures |r| == 8
  {
    Put32(v / TWO_32) + Put32(v % TWO_32)
  }

  lemma {:induction false} Put32Injective(m: nat, n: nat)
    requires m < TWO_32 && n < TWO_32 && Put32(m) == Put32(n)
    ensures m == n
  {
    var a, b := Put32(m), Put32(n);
    assert a[0] == b[0] && a[1] == b[1] && a[2] == b[2] && a[3] == b[3];
  }

  lemma {:induction false} SplitEqual(a: Str, b: Str, x: Str, y: Str)
    requires a + x == b + y && |a| == |b|
    ensures a == b && x == y
  {
    assert (a + x)[..|a|] == a && (b + y)[..|a|] == b;
    assert (a + x)[|a|..] == x && (b + y)[|a|..] == y;
  }

  lemma {:induction false} Put64Injective(v: UInt64, w: UInt64)
    requires Put64(v) == Put64(w)
    ensures v == w
  {
    SplitEqual(Put32(v / TWO_32), Put32(w / TWO_32), Put32(v % TWO_32), Put32(w % TWO_32));
    Put32Injective(v / TWO_32, w / TWO_32);
    Put32Injective(v % TWO_32, w % TWO_32);
  }

  /** appendLP writes the length as a uint32, so it wraps at 2^32; appendUint64 writes 8 bytes. */
  function PartBytes(p: Part): (r: Str)
    ensures |r| >= 4
  {
    match p
    case LP(f) => Put32(|f| % TWO_32) + f
    case U64(v) => Put64(v)
  }

  function PartsBytes(ps: seq<Part>): Str {
    if ps == [] then [] else PartBytes(ps[0]) + PartsBytes(ps[1..])
  }

  /** The length fits its prefix. */
  predicate Short(p: Part) {
    p.LP? ==> |p.field| < TWO_32
  }

  predicate AllShort(ps: seq<Part>) {
    forall i :: 0 <= i < |ps| ==> Short(ps[i])
  }

  predicate SameKinds(ps: seq<Part>, qs: seq<Part>) {
    forall i :: 0 <= i < |ps| && i < |qs| ==> (ps[i].LP? <==> qs[i].LP?)
  }

  lemma {:induction false} FieldInjective(f: Str, g: Str, x: Str, y: Str)
    requires |f| < TWO_32 && |g| < TWO_32
    requires Put32(|f|) + f + x == Put32(|g|) + g + y
    ensures f == g && x == y
  {
    assert Put32(|f|) + f + x == Put32(|f|) + (f + x) && Put32(|g|) + g + y == Put32(|g|) + (g + y);
    SplitEqual(Put32(|f|), Put32(|g|), f + x, g + y);
    Put32Injective(|f|, |g|);
    SplitEqual(f, g, x, y);
  }

  lemma {:induction false} PartForm(p: Part)
    requires Short(p)
    ensures PartBytes(p) == match p case LP(f) => Put32(|f|) + f case U64(v) => Put64(v)
  {
    hide Put32, Put64;
  }

  lemma {:induction false} PartInjective(p: Part, q: Part, x: Str, y: Str)
    requires Short(p) && Short(q) && (p.LP? <==> q.LP?)
    requires PartBytes(p) + x == PartBytes(q) + y
    ensures p == q && x == y
  {
    hide Put32, Put64, PartBytes;
    PartForm(p);
    PartForm(q);
    if p.LP? {
      FieldInjective(p.field, q.field, x, y);
    } else {
      SplitEqual(Put64(p.value), Put64(q.value), x, y);
      Put64Injective(p.value, q.value);
    }
  }

  /** Length-prefixed lists of the same layout are uniquely decodable. */
  lemma {:induction false} PartsInjective(ps: seq<Part>, qs: seq<Part>)
    requires AllShort(ps) && AllShort(qs) && SameKinds(ps, qs)
    requires PartsBytes(ps) == PartsBytes(qs)
    ensures ps == qs
  {
    if ps != [] && qs != [] {
      PartInjective(ps[0], qs[0], PartsBytes(ps[1..]), PartsBytes(qs[1..]));
      PartsInjective(ps[1..], qs[1..]);
      assert ps == [ps[0]] + ps[1..] && qs == [qs[0]] + qs[1..];
    } else {
      assert |PartsBytes(ps)| == |PartsBytes(qs)|;
    }
  }

  lemma {:induction false} PartsAppend(ps: seq<Part>, p: Part)
    ensures PartsBytes(ps + [p]) == PartsBytes(ps) + PartBytes(p)
  {
    hide PartBytes;
    if ps == [] {
      assert ps + [p] == [p];
      assert PartsBytes([p]) == PartBytes(p) + PartsBytes([p][1..]);
    } else {
      PartsAppend(ps[1..], p);
      assert (ps + [p])[1..] == ps[1..] + [p];
      assert PartsBytes(ps + [p]) == PartBytes(ps[0]) + (PartsBytes(ps[1..]) + PartBytes(p));
    }
  }

  // ---- Metadata ----

  ghost predicate IsKeyOrder(s: seq<Str>, keys: set<Str>) {
    multiset(s) == multiset(keys) && Sorted(LexLess, s)
  }

  lemma {:induction false} LexOrder()
    ensures StrictOrder(LexLess)
    ensures forall x: Str, y: Str :: x != y ==> LexLess(x, y) || LexLess(y, x)
  {
    forall x: Str ensures !LexLess(x, x) { LexIrreflexive(x); }
    forall x: Str, y: Str, z: Str | LexLess(x, y) && LexLess(y, z) ensures LexLess(x, z) { LexTransitive(x, y, z); }
    forall x: Str, y: Str | x != y ensures LexLess(x, y) || LexLess(y, x) { LexTotal(x, y); }
  }

  lemma {:induction false} KeyOrderUnique(s: seq<Str>, t: seq<Str>, keys: set<Str>)
    requires IsKeyOrder(s, keys) && IsKeyOrder(t, keys)
    ensures s == t
  {
    LexOrder();
    SortUnique(LexLess, s, t);
  }

  lemma {:induction false} KeyOrderExists(keys: set<Str>)
    ensures exists s :: IsKeyOrder(s, keys)
  {
    var listed := Listed(keys);
    LexOrder();
    SortSorts(LexLess, listed);
    assert IsKeyOrder(Sort(LexLess, listed), keys);
  }

  /** Some listing of a set. */
  ghost function Listed(keys: set<Str>): (r: seq<Str>)
    ensures multiset(r) == multiset(keys)
  {
    if keys == {} then []
    else
      var k :| k in keys;
      assert multiset(keys) == multiset(keys - {k}) + multiset{k};
      [k] + Listed(keys - {k})
  }

  ghost function SortedKeys(keys: set<Str>): (s: seq<Str>)
    ensures IsKeyOrder(s, keys)
    ensures forall k :: k in s <==> k in keys
  {
    KeyOrderExists(keys);
    var s :| IsKeyOrder(s, keys);
    assert forall k :: k in s <==> k in multiset(s);
    s
  }

  function MetadataParts(keys: seq<Str>, md: map<Str, Str>): seq<Part>
    requires forall k :: k in keys ==> k in md
  {
    if keys == [] then [] else [LP(keys[0]), LP(md[keys[0]])] + MetadataParts(keys[1..], md)
  }

  ghost function CanonicalMetadata(md: map<Str, Str>): Str {
    PartsBytes(MetadataParts(SortedKeys(md.Keys), md))
  }

  lemma {:induction false} MetadataPartsAt(keys: seq<Str>, md: map<Str, Str>)
    requires forall k :: k in keys ==> k in md
    ensures |MetadataParts(keys, md)| == 2 * |keys|
    ensures forall i :: 0 <= i < |keys| ==>
      MetadataParts(keys, md)[2 * i] == LP(keys[i]) && MetadataParts(keys, md)[2 * i + 1] == LP(md[keys[i]])
  {
    if keys == [] {
    } else {
      MetadataPartsAt(keys[1..], md);
      forall i | 0 <= i < |keys|
        ensures MetadataParts(keys, md)[2 * i] == LP(keys[i]) && MetadataParts(keys, md)[2 * i + 1] == LP(md[keys[i]])
      {
        if i > 0 {
          assert MetadataParts(keys, md)[2 * i] == MetadataParts(keys[1..], md)[2 * (i - 1)];
          assert MetadataParts(keys, md)[2 * i + 1] == MetadataParts(keys[1..], md)[2 * (i - 1) + 1];
        }
      }
    }
  }

  ghost predicate ShortMetadata(md: map<Str, Str>) {
    forall k :: k in md ==> |k| < TWO_32 && |md[k]| < TWO_32
  }

  lemma {:induction false} MetadataKinds(keys: seq<Str>, md: map<Str, Str>)
    requires forall k :: k in keys ==> k in md
    ensures forall i :: 0 <= i < |MetadataParts(keys, md)| ==> MetadataParts(keys, md)[i].LP?
    ensures ShortMetadata(md) ==> AllShort(MetadataParts(keys, md))
  {
    if keys == [] {
    } else {
      MetadataKinds(keys[1..], md);
    }
  }

  lemma {:induction false} SameEntries(ks: seq<Str>, ls: seq<Str>, m: map<Str, Str>, n: map<Str, Str>)
    requires (forall k :: k in ks ==> k in m) && (forall k :: k in ls ==> k in n)
    requires MetadataParts(ks, m) == MetadataParts(ls, n)
    ensures ks == ls && forall i :: 0 <= i < |ks| ==> m[ks[i]] == n[ks[i]]
  {
    MetadataPartsAt(ks, m);
    MetadataPartsAt(ls, n);
    forall i | 0 <= i < |ks| ensures ks[i] == ls[i] && m[ks[i]] == n[ls[i]] {
      assert MetadataParts(ks, m)[2 * i] == MetadataParts(ls, n)[2 * i];
      assert MetadataParts(ks, m)[2 * i + 1] == MetadataParts(ls, n)[2 * i + 1];
    }
  }

  /** Different maps have different canonical bytes. */
  lemma {:induction false} MetadataInjective(m: map<Str, Str>, n: map<Str, Str>)
    requires ShortMetadata(m) && ShortMetadata(n) && CanonicalMetadata(m) == CanonicalMetadata(n)
    ensures m == n
  {
    hide PartsBytes, IsKeyOrder, MetadataParts;
    var ks, ls := SortedKeys(m.Keys), SortedKeys(n.Keys);
    MetadataKinds(ks, m);
    MetadataKinds(ls, n);
    PartsInjective(MetadataParts(ks, m), MetadataParts(ls, n));
    SameEntries(ks, ls, m, n);
    SameMaps(ks, m, n);
  }

  lemma {:induction false} SameMaps(ks: seq<Str>, m: map<Str, Str>, n: map<Str, Str>)
    requires forall k :: k in ks <==> k in m.Keys
    requires forall k :: k in ks <==> k in n.Keys
    requires forall i :: 0 <= i < |ks| ==> m[ks[i]] == n[ks[i]]
    ensures m == n
  {
    assert m.Keys == n.Keys;
    forall k | k in m ensures m[k] == n[k] {
      assert k in ks;
    }
  }

  /** The keys as ranging over a Go map yields them: each once, in any order. */
  method RangeKeys(md: map<Str, Str>) returns (keys: seq<Str>)
    ensures multiset(keys) == multiset(md.Keys)
  {
    keys := [];
    var left := md.Keys;
    while left != {}
      invariant left <= md.Keys && multiset(keys) + multiset(left) == multiset(md.Keys)
      decreases left
    {
      var k :| k in left;
      assert multiset(left) == multiset(left - {k}) + multiset{k};
      keys := keys + [k];
      left := left - {k};
    }
  }

  /** canonicalMetadata: whatever order the keys come out of the map in, the bytes are the same. */
  method WriteMetadata(md: map<Str, Str>) returns (buf: Str)
    ensures buf == CanonicalMetadata(md)
  {
    var keys := RangeKeys(md);
    LexOrder();
    SortSorts(LexLess, keys);
    keys := Sort(LexLess, keys);
    KeyOrderUnique(keys, SortedKeys(md.Keys), md.Keys);
    buf := WriteEntries(keys, md);
  }

  method WriteEntries(keys: seq<Str>, md: map<Str, Str>) returns (buf: Str)
    requires forall k :: k in keys ==> k in md
    ensures buf == PartsBytes(MetadataParts(keys, md))
  {
    buf := [];
    for i := 0 to |keys|
      invariant buf == PartsBytes(MetadataParts(keys[..i], md))
    {
      var k := keys[i];
      ghost var parts := MetadataParts(keys[..i], md);
      PartsAppend(parts, LP(k));
      PartsAppend(parts + [LP(k)], LP(md[k]));
      MetadataPartsSnoc(keys[..i], k, md);
      assert keys[..i + 1] == keys[..i] + [k];
      buf := buf + PartBytes(LP(k));
      buf := buf + PartBytes(LP(md[k]));
    }
    assert keys[..|keys|] == keys;
  }

  lemma {:induction false} MetadataPartsSnoc(keys: seq<Str>, k: Str, md: map<Str, Str>)
    requires k in md && forall j :: j in keys ==> j in md
    ensures MetadataParts(keys + [k], md) == MetadataParts(keys, md) + [LP(k)] + [LP(md[k])]
  {
    if keys == [] {
      assert keys + [k] == [k];
      assert MetadataParts([k], md) == [LP(k), LP(md[k])] + MetadataParts([k][1..], md);
    } else {
      MetadataPartsSnoc(keys[1..], k, md);
      assert (keys + [k])[1..] == keys[1..] + [k];
    }
  }

  // ---- The event preimage ----

  const AUDIT_DOMAIN: Str := Ascii("kseal/v1/audit-event")

  /** Go's uint64(v). */
  function ToUInt64(v: Int64): UInt64 {
    if v < 0 then v + TWO_64 else v
  }

  ghost function PreimageParts(tenant: Str, n: Int64, e: Entry, createdAt: Int64, prevHash: Str): seq<Part> {
    [LP(AUDIT_DOMAIN), LP(tenant), U64(ToUInt64(n)), LP(e.action), LP(e.resourceType), LP(e.resourceId),
     LP(e.actorKeyId), LP(CanonicalMetadata(e.metadata)), U64(ToUInt64(createdAt)), LP(prevHash)]
  }

  ghost function Preimage(tenant: Str, n: Int64, e: Entry, createdAt: Int64, prevHash: Str): Str {
    PartsBytes(PreimageParts(tenant, n, e, createdAt, prevHash))
  }

  /** The sizes the source relies on: every field, and the metadata as a whole, fits
      a 32-bit length. */
  ghost predicate Bounded(e: Entry) {
    && |e.action| < TWO_32 && |e.resourceType| < TWO_32 && |e.resourceId| < TWO_32 && |e.actorKeyId| < TWO_32
    && ShortMetadata(e.metadata) && |CanonicalMetadata(e.metadata)| < TWO_32
  }

  lemma {:induction false} PreimageShort(tenant: Str, n: Int64, e: Entry, createdAt: Int64, prevHash: Str)
    requires |tenant| < TWO_32 && Bounded(e) && |prevHash| < TWO_32
    ensures AllShort(PreimageParts(tenant, n, e, createdAt, prevHash))
  {
  }

  lemma {:induction false} ToUInt64Injective(v: Int64, w: Int64)
    ensures ToUInt64(v) == ToUInt64(w) ==> v == w
  {
  }

  lemma {:induction false} PartsDetermine(
    tenant: Str, m: Int64, d: Entry, s: Int64, p: Str, n: Int64, e: Entry, t: Int64, q: Str)
    requires ShortMetadata(d.metadata) && ShortMetadata(e.metadata)
    requires PreimageParts(tenant, m, d, s, p) == PreimageParts(tenant, n, e, t, q)
    ensures m == n && d == e && s == t && p == q
  {
    var ps, qs := PreimageParts(tenant, m, d, s, p), PreimageParts(tenant, n, e, t, q);
    assert ps[2] == qs[2] && ps[3] == qs[3] && ps[4] == qs[4] && ps[5] == qs[5]
        && ps[6] == qs[6] && ps[7] == qs[7] && ps[8] == qs[8] && ps[9] == qs[9];
    ToUInt64Injective(m, n);
    ToUInt64Injective(s, t);
    MetadataInjective(d.metadata, e.metadata);
  }

  /** The preimage determines every field it is built from. */
  lemma {:induction false} PreimageInjective(
    tenant: Str, m: Int64, d: Entry, s: Int64, p: Str, n: Int64, e: Entry, t: Int64, q: Str)
    requires |tenant| < TWO_32 && Bounded(d) && Bounded(e) && |p| < TWO_32 && |q| < TWO_32
    requires Preimage(tenant, m, d, s, p) == Preimage(tenant, n, e, t, q)
    ensures m == n && d == e && s == t && p == q
  {
    hide PartsBytes, AllShort;
    PreimageShort(tenant, m, d, s, p);
    PreimageShort(tenant, n, e, t, q);
    PartsInjective(PreimageParts(tenant, m, d, s, p), PreimageParts(tenant, n, e, t, q));
    PartsDetermine(tenant, m, d, s, p, n, e, t, q);
  }

  lemma {:induction false} PartsConcat(ps: seq<Part>, qs: seq<Part>)
    ensures PartsBytes(ps + qs) == PartsBytes(ps) + PartsBytes(qs)
    decreases qs
  {
    hide PartBytes;
    if qs == [] {
      assert ps + qs == ps;
    } else {
      PartsAppend(ps, qs[0]);
      PartsConcat(ps + [qs[0]], qs[1..]);
      assert ps + [qs[0]] + qs[1..] == ps + qs;
    }
  }

  lemma {:induction false} PartsPair(p: Part, q: Part)
    ensures PartsBytes([p, q]) == PartBytes(p) + PartBytes(q)
  {
    PartsAppend([], p);
    PartsAppend([p], q);
    assert [] + [p] == [p] && [p] + [q] == [p, q];
  }

  /** 2^32 zero bytes: a field whose 32-bit length prefix reads zero. */
  function LongField(): (z: Str)
    ensures |z| == TWO_32 && forall i :: 0 <= i < |z| ==> z[i] == 0
  {
    seq(TWO_32, i => 0)
  }

  lemma {:induction false} LongFieldSlides()
    ensures PartsBytes([LP(LongField()), LP([])]) == PartsBytes([LP([]), LP(LongField())])
  {
    PartsPair(LP(LongField()), LP([]));
    PartsPair(LP([]), LP(LongField()));
    assert PartBytes(LP([])) == [0, 0, 0, 0];
    assert PartBytes(LP(LongField())) == [0, 0, 0, 0] + LongField();
  }

  lemma {:induction false} LongFieldSlidesIn(front: seq<Part>, back: seq<Part>)
    ensures PartsBytes(front + [LP(LongField()), LP([])] + back) == PartsBytes(front + [LP([]), LP(LongField())] + back)
  {
    hide PartsBytes;
    LongFieldSlides();
    PartsConcat(front, [LP(LongField()), LP([])]);
    PartsConcat(front, [LP([]), LP(LongField())]);
    PartsConcat(front + [LP(LongField()), LP([])], back);
    PartsConcat(front + [LP([]), LP(LongField())], back);
  }

  /** The 32-bit prefix is not enough on its own: two different entries with a field
      of 2^32 bytes have the same preimage. */
  lemma {:induction false} LongFieldsCollide(tenant: Str, n: Int64, createdAt: Int64, prevHash: Str)
    returns (d: Entry, e: Entry)
    ensures d != e && Preimage(tenant, n, d, createdAt, prevHash) == Preimage(tenant, n, e, createdAt, prevHash)
    ensures forall b :: b > TWO_32 ==> EntryBelow(b, d) && EntryBelow(b, e)
  {
    d, e := Entry(LongField(), [], [], [], map[]), Entry([], LongField(), [], [], map[]);
    var ps, qs := PreimageParts(tenant, n, d, createdAt, prevHash), PreimageParts(tenant, n, e, createdAt, prevHash);
    var front, back := ps[..3], ps[5..];
    assert ps == front + [LP(LongField()), LP([])] + back;
    assert qs == front + [LP([]), LP(LongField())] + back;
    LongFieldSlidesIn(front, back);
    assert |d.action| != |e.action|;
    NoMetadata();
  }

  lemma {:induction false} NoMetadata()
    ensures CanonicalMetadata(map[]) == []
  {
    var none: map<Str, Str> := map[];
    var keys := SortedKeys(none.Keys);
    assert multiset(keys) == multiset{} && |keys| == |multiset(keys)|;
  }

  /** Every length in the entry, its encoded metadata included, is below `b`. */
  ghost predicate EntryBelow(b: nat, e: Entry) {
    && |e.action| < b && |e.resourceType| < b && |e.resourceId| < b && |e.actorKeyId| < b
    && (forall k :: k in e.metadata ==> |k| < b && |e.metadata[k]| < b) && |CanonicalMetadata(e.metadata)| < b
  }

  /** Over events whose lengths are all below `b`, the preimage determines the event. */
  ghost predicate InjectiveBelow(b: nat) {
    forall tenant: Str, m: Int64, d: Entry, s: Int64, p: Str, n: Int64, e: Entry, t: Int64, q: Str ::
      (&& |tenant| < b && EntryBelow(b, d) && |p| < b && EntryBelow(b, e) && |q| < b
       && Preimage(tenant, m, d, s, p) == Preimage(tenant, n, e, t, q)) ==> m == n && d == e && s == t && p == q
  }

  /** The encoding is injective below a length if and only if the length fits the 32-bit
      prefix. */
  lemma {:induction false} InjectiveExactly(b: nat)
    ensures InjectiveBelow(b) <==> b <= TWO_32
  {
    hide Preimage, CanonicalMetadata;
    if b <= TWO_32 {
      forall tenant: Str, m: Int64, d: Entry, s: Int64, p: Str, n: Int64, e: Entry, t: Int64, q: Str |
        && |tenant| < b && EntryBelow(b, d) && |p| < b && EntryBelow(b, e) && |q| < b
        && Preimage(tenant, m, d, s, p) == Preimage(tenant, n, e, t, q)
        ensures m == n && d == e && s == t && p == q
      {
        PreimageInjective(tenant, m, d, s, p, n, e, t, q);
      }
    } else {
      var d, e := LongFieldsCollide([], 1, 0, []);
      assert Preimage([], 1, d, 0, []) == Preimage([], 1, e, 0, []);
      assert EntryBelow(b, d) && EntryBelow(b, e);
    }
  }

  // ---- The chain ----

  ghost function HashAuditEvent(h: Digest, tenant: Str, n: Int64, e: Entry, createdAt: Int64, prevHash: Str): Str {
    h(Preimage(tenant, n, e, createdAt, prevHash))
  }

  /** The hash the event at position `i` must link to. */
  function PrevHash(evs: seq<AuditEvent>, i: nat): Str
    requires i <= |evs|
  {
    if i == 0 then [] else evs[i - 1].hash
  }

  ghost predicate EventIntact(h: Digest, tenant: Str, evs: seq<AuditEvent>, i: nat)
    requires i < |evs|
  {
    && evs[i].seq_ == i + 1
    && evs[i].prevHash == PrevHash(evs, i)
    && evs[i].hash == HashAuditEvent(h, tenant, evs[i].seq_, evs[i].entry, evs[i].createdAt, PrevHash(evs, i))
  }

  ghost predicate ChainIntact(h: Digest, tenant: Str, evs: seq<AuditEvent>) {
    forall i :: 0 <= i < |evs| ==> EventIntact(h, tenant, evs, i)
  }

  /** What recompute must answer: it verifies the longest intact prefix and names the
      first event that breaks the chain. */
  ghost predicate Verdict(h: Digest, tenant: Str, evs: seq<AuditEvent>, r: VerifyResult) {
    && 0 <= r.verifiedCount <= |evs|
    && (forall i :: 0 <= i < r.verifiedCount ==> EventIntact(h, tenant, evs, i))
    && (r.verifiedCount < |evs| ==>
        !EventIntact(h, tenant, evs, r.verifiedCount) && r.brokenSeq == evs[r.verifiedCount].seq_)
    && (r.intact <==> r.verifiedCount == |evs|)
    && (r.intact ==> r.brokenSeq == 0)
    && r.headHash == PrevHash(evs, r.verifiedCount)
  }

  method BuildPreimage(tenant: Str, n: Int64, e: Entry, createdAt: Int64, prevHash: Str) returns (buf: Str)
    ensures buf == Preimage(tenant, n, e, createdAt, prevHash)
  {
    var metadata := WriteMetadata(e.metadata);
    buf := JoinParts([LP(AUDIT_DOMAIN), LP(tenant), U64(ToUInt64(n)), LP(e.action), LP(e.resourceType),
                      LP(e.resourceId), LP(e.actorKeyId), LP(metadata), U64(ToUInt64(createdAt)), LP(prevHash)]);
  }

  /** Successive appendLP and appendUint64 calls on one buffer. */
  method JoinParts(ps: seq<Part>) returns (buf: Str)
    ensures buf == PartsBytes(ps)
  {
    buf := [];
    for i := 0 to |ps|
      invariant buf == PartsBytes(ps[..i])
    {
      PartsAppend(ps[..i], ps[i]);
      assert ps[..i + 1] == ps[..i] + [ps[i]];
      buf := buf + PartBytes(ps[i]);
    }
    assert ps[..|ps|] == ps;
  }

  method Recompute(h: Digest, tenant: Str, evs: seq<AuditEvent>) returns (res: VerifyResult)
    ensures Verdict(h, tenant, evs, res)
  {
    hide Preimage;
    var prevHash: Str := [];
    var verified, head: Str := 0, [];
    var expectSeq := 1;
    for i := 0 to |evs|
      invariant verified == i && expectSeq == i + 1 && prevHash == head == PrevHash(evs, i)
      invariant forall j :: 0 <= j < i ==> EventIntact(h, tenant, evs, j)
    {
      var ev := evs[i];
      if ev.seq_ != expectSeq {
        return VerifyResult(false, verified, ev.seq_, head);
      }
      var preimage := BuildPreimage(tenant, ev.seq_, ev.entry, ev.createdAt, prevHash);
      var want := h(preimage);
      if ev.prevHash != prevHash || ev.hash != want {
        return VerifyResult(false, verified, ev.seq_, head);
      }
      prevHash := ev.hash;
      verified := verified + 1;
      head := ev.hash;
      expectSeq := expectSeq + 1;
    }
    res := VerifyResult(true, verified, 0, head);
  }

  ghost predicate AllBounded(tenant: Str, evs: seq<AuditEvent>) {
    |tenant| < TWO_32 && |evs| < TWO_63 && forall i :: 0 <= i < |evs| ==> Bounded(evs[i].entry)
  }

  /** Two events agree on everything the hash covers. */
  predicate Agree(a: AuditEvent, b: AuditEvent) {
    a.seq_ == b.seq_ && a.entry == b.entry && a.createdAt == b.createdAt && a.prevHash == b.prevHash && a.hash == b.hash
  }

  ghost predicate ChainsAgree(a: seq<AuditEvent>, b: seq<AuditEvent>) {
    |a| == |b| && forall i :: 0 <= i < |a| ==> Agree(a[i], b[i])
  }

  /** The bytes event `i` of a chain commits to. */
  ghost function EventPreimage(tenant: Str, evs: seq<AuditEvent>, i: nat): Str
    requires i < |evs|
  {
    Preimage(tenant, evs[i].seq_, evs[i].entry, evs[i].createdAt, evs[i].prevHash)
  }

  /** Event `i` of one chain and event `j` of the other have different preimages with
      the same digest. */
  ghost predicate Collide(h: Digest, tenant: Str, a: seq<AuditEvent>, b: seq<AuditEvent>, i: nat, j: nat) {
    && i < |a| && j < |b|
    && EventPreimage(tenant, a, i) != EventPreimage(tenant, b, j)
    && h(EventPreimage(tenant, a, i)) == h(EventPreimage(tenant, b, j))
  }

  lemma {:induction false} ShortHashes(h: Digest, tenant: Str, evs: seq<AuditEvent>, i: nat)
    requires IsDigest(h) && ChainIntact(h, tenant, evs) && i <= |evs|
    ensures |PrevHash(evs, i)| < TWO_32 && (i > 0 ==> PrevHash(evs, i) != [])
  {
    if i > 0 {
      assert EventIntact(h, tenant, evs, i - 1);
    }
  }

  lemma {:induction false} DropLast(h: Digest, tenant: Str, evs: seq<AuditEvent>)
    requires evs != [] && ChainIntact(h, tenant, evs)
    ensures ChainIntact(h, tenant, evs[..|evs| - 1])
    ensures PrevHash(evs[..|evs| - 1], |evs| - 1) == PrevHash(evs, |evs| - 1)
  {
    var front := evs[..|evs| - 1];
    forall i | 0 <= i < |front| ensures EventIntact(h, tenant, front, i) {
      assert EventIntact(h, tenant, evs, i);
    }
  }

  lemma {:induction false} LastHash(h: Digest, tenant: Str, evs: seq<AuditEvent>)
    requires evs != [] && ChainIntact(h, tenant, evs)
    ensures PrevHash(evs, |evs|) == h(EventPreimage(tenant, evs, |evs| - 1))
  {
    assert EventIntact(h, tenant, evs, |evs| - 1);
  }

  lemma {:induction false} LastAgree(h: Digest, tenant: Str, a: seq<AuditEvent>, b: seq<AuditEvent>)
    requires IsDigest(h) && AllBounded(tenant, a) && AllBounded(tenant, b)
    requires a != [] && b != [] && ChainIntact(h, tenant, a) && ChainIntact(h, tenant, b)
    requires EventPreimage(tenant, a, |a| - 1) == EventPreimage(tenant, b, |b| - 1)
    ensures |a| == |b| && Agree(a[|a| - 1], b[|b| - 1])
    ensures PrevHash(a, |a| - 1) == PrevHash(b, |b| - 1)
  {
    var m, n := |a| - 1, |b| - 1;
    ShortHashes(h, tenant, a, m);
    ShortHashes(h, tenant, b, n);
    assert EventIntact(h, tenant, a, m) && EventIntact(h, tenant, b, n);
    PreimageInjective(tenant, a[m].seq_, a[m].entry, a[m].createdAt, a[m].prevHash,
                      b[n].seq_, b[n].entry, b[n].createdAt, b[n].prevHash);
  }

  /** The head hash binds the whole chain: two intact chains with one head agree on
      every hashed field of every event, or an event of one and an event of the other
      have different preimages with the same digest. Nothing is assumed of the digest
      but its output size. */
  lemma {:induction false} HeadBindsOrCollides(h: Digest, tenant: Str, a: seq<AuditEvent>, b: seq<AuditEvent>)
    returns (i: nat, j: nat)
    requires IsDigest(h) && AllBounded(tenant, a) && AllBounded(tenant, b)
    requires ChainIntact(h, tenant, a) && ChainIntact(h, tenant, b)
    requires PrevHash(a, |a|) == PrevHash(b, |b|)
    ensures ChainsAgree(a, b) || Collide(h, tenant, a, b, i, j)
    decreases |a|
  {
    hide Preimage, Bounded;
    i, j := 0, 0;
    ShortHashes(h, tenant, a, |a|);
    ShortHashes(h, tenant, b, |b|);
    if a != [] && b != [] {
      LastHash(h, tenant, a);
      LastHash(h, tenant, b);
      i, j := |a| - 1, |b| - 1;
      if EventPreimage(tenant, a, i) == EventPreimage(tenant, b, j) {
        LastAgree(h, tenant, a, b);
        var m := |a| - 1;
        DropLast(h, tenant, a);
        DropLast(h, tenant, b);
        i, j := HeadBindsOrCollides(h, tenant, a[..m], b[..m]);
        if ChainsAgree(a[..m], b[..m]) {
          ExtendAgreement(a, b);
        }
      }
    }
  }

  lemma {:induction false} ExtendAgreement(a: seq<AuditEvent>, b: seq<AuditEvent>)
    requires a != [] && |a| == |b| && Agree(a[|a| - 1], b[|b| - 1])
    requires ChainsAgree(a[..|a| - 1], b[..|b| - 1])
    ensures ChainsAgree(a, b)
  {
    forall i | 0 <= i < |a| ensures Agree(a[i], b[i]) {
      if i < |a| - 1 {
        assert Agree(a[..|a| - 1][i], b[..|b| - 1][i]);
      }
    }
  }

  /** The digest tells the events of the two chains apart. */
  ghost predicate Distinguishes(h: Digest, tenant: Str, a: seq<AuditEvent>, b: seq<AuditEvent>) {
    forall i, j :: 0 <= i < |a| && 0 <= j < |b| ==> !Collide(h, tenant, a, b, i, j)
  }

  /** Under a digest without collisions among these events, what recompute reports pins
      the whole chain. */
  lemma {:induction false} HeadBinds(
    h: Digest, tenant: Str, a: seq<AuditEvent>, b: seq<AuditEvent>, r: VerifyResult, s: VerifyResult)
    requires IsDigest(h) && Distinguishes(h, tenant, a, b) && AllBounded(tenant, a) && AllBounded(tenant, b)
    requires Verdict(h, tenant, a, r) && Verdict(h, tenant, b, s)
    requires r.intact && s.intact && r.headHash == s.headHash
    ensures ChainsAgree(a, b)
  {
    hide Preimage, Bounded, EventIntact, ChainsAgree, EventPreimage;
    var i, j := HeadBindsOrCollides(h, tenant, a, b);
  }

  /** Removing one event from an intact chain leaves an intact chain exactly when it
      was the last one: a dropped tail shows only in the count and the head hash. */
  lemma {:induction false} DropDetected(h: Digest, tenant: Str, evs: seq<AuditEvent>, k: nat)
    requires ChainIntact(h, tenant, evs) && k < |evs|
    ensures ChainIntact(h, tenant, evs[..k] + evs[k + 1..]) <==> k == |evs| - 1
  {
    var cut := evs[..k] + evs[k + 1..];
    if k == |evs| - 1 {
      assert cut == evs[..|evs| - 1];
      DropLast(h, tenant, evs);
    } else {
      assert cut[k] == evs[k + 1];
      assert EventIntact(h, tenant, evs, k + 1);
      assert !EventIntact(h, tenant, cut, k);
    }
  }

  /** Swapping the contents of two positions is always detected. */
  lemma {:induction false} ReorderDetected(h: Digest, tenant: Str, evs: seq<AuditEvent>, i: nat, j: nat)
    requires ChainIntact(h, tenant, evs) && i < j < |evs|
    ensures !ChainIntact(h, tenant, evs[i := evs[j]][j := evs[i]])
  {
    var swapped := evs[i := evs[j]][j := evs[i]];
    assert EventIntact(h, tenant, evs, i) && EventIntact(h, tenant, evs, j);
    assert !EventIntact(h, tenant, swapped, i);
  }
}
