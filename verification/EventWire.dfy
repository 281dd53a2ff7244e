/** The encoder and the sticky-error decoder of event_codec.go as they run: a buffer
    that grows, and a reader that advances over its bytes and latches its first error. */
module EventWire {
  import opened Bytes
  import opened EventCodec

  method AppendUvarint(buf: Str, v: UInt64) returns (r: Str)
    ensures r == buf + UvarintBytes(v)
  {
    r := buf;
    var x: int := v;
    while x >= 0x80
      invariant 0 <= x < TWO_64
      invariant r + UvarintBytes(x) == buf + UvarintBytes(v)
    {
      ghost var before := r + UvarintBytes(x);
      r := r + [x % 0x80 + 0x80];
      x := x / 0x80;
      assert r + UvarintBytes(x) == before;
    }
    r := r + [x];
  }

  method AppendString(buf: Str, s: GoString) returns (r: Str)
    ensures r == buf + TokenBytes(StrTok(s))
  {
    r := AppendUvarint(buf, |s|);
    r := r + s;
    assert r == buf + (UvarintBytes(|s|) + s);
  }

  method AppendVarint(buf: Str, i: Int64) returns (r: Str)
    ensures r == buf + TokenBytes(IntTok(i))
  {
    r := AppendUvarint(buf, ZigZag(i));
  }

  lemma {:induction false} TokensBytesAppend(ts: seq<Token>, t: Token)
    ensures TokensBytes(ts + [t]) == TokensBytes(ts) + TokenBytes(t)
  {
    hide TokenBytes;
    if ts == [] {
      assert ts + [t] == [t];
      assert TokensBytes([t]) == TokenBytes(t) + TokensBytes([]);
    } else {
      TokensBytesAppend(ts[1..], t);
      assert (ts + [t])[1..] == ts[1..] + [t];
      assert TokensBytes(ts + [t]) == TokenBytes(ts[0]) + TokensBytes(ts[1..] + [t]);
    }
  }

  /** The encoder's buffer once its first `i` fields are written. */
  ghost function Written(e: StoredEvent, i: nat): Str
    requires i <= 15
  {
    [VERSION] + TokensBytes(EventTokens(e)[..i])
  }

  ghost predicate Field(e: StoredEvent, i: nat, t: Token) {
    i < 15 && EventTokens(e)[i] == t
  }

  lemma {:induction false} WriteField(e: StoredEvent, i: nat, t: Token)
    requires Field(e, i, t)
    ensures Written(e, i + 1) == Written(e, i) + TokenBytes(t)
  {
    hide TokenBytes, TokensBytes;
    var ts := EventTokens(e);
    TokensBytesAppend(ts[..i], ts[i]);
    assert ts[..i + 1] == ts[..i] + [ts[i]];
  }

  method PutString(buf: Str, s: GoString, ghost e: StoredEvent, ghost i: nat) returns (r: Str)
    requires Field(e, i, StrTok(s)) && buf == Written(e, i)
    ensures r == Written(e, i + 1)
  {
    r := AppendString(buf, s);
    WriteField(e, i, StrTok(s));
  }

  method PutVarint(buf: Str, v: Int64, ghost e: StoredEvent, ghost i: nat) returns (r: Str)
    requires Field(e, i, IntTok(v)) && buf == Written(e, i)
    ensures r == Written(e, i + 1)
  {
    r := AppendVarint(buf, v);
    WriteField(e, i, IntTok(v));
  }

  method PutUvarint(buf: Str, v: UInt64, ghost e: StoredEvent, ghost i: nat) returns (r: Str)
    requires Field(e, i, UintTok(v)) && buf == Written(e, i)
    ensures r == Written(e, i + 1)
  {
    r := AppendUvarint(buf, v);
    WriteField(e, i, UintTok(v));
  }

  lemma {:induction false} WrittenEnds(e: StoredEvent)
    ensures Written(e, 0) == [VERSION] && Written(e, 15) == Encode(e)
  {
    assert EventTokens(e)[..0] == [];
    assert EventTokens(e)[..15] == EventTokens(e);
  }

  method EncodeStoredEvent(e: StoredEvent) returns (r: Str)
    ensures r == Encode(e)
  {
    WrittenEnds(e);
    r := [VERSION];
    r := PutString(r, e.id, e, 0);
    r := PutString(r, e.tenantId, e, 1);
    r := PutString(r, e.appId, e, 2);
    r := PutVarint(r, e.eventType, e, 3);
    r := PutVarint(r, e.riskLevel, e, 4);
    r := PutUvarint(r, e.riskBits, e, 5);
    r := PutUvarint(r, e.riskBitsLayout, e, 6);
    r := PutVarint(r, e.confidence, e, 7);
    r := PutString(r, e.buildHash, e, 8);
    r := PutString(r, e.policyHash, e, 9);
    r := PutString(r, e.installKeyHash, e, 10);
    r := PutVarint(r, e.timeBucket, e, 11);
    r := PutString(r, e.country, e, 12);
    r := PutVarint(r, e.platform, e, 13);
    r := PutVarint(r, e.receivedAt, e, 14);
  }

  // ---- Decoder ----

  const POW_128: seq<nat> :=
    [1, 0x80, 0x4000, 0x20_0000, 0x1000_0000, 0x8_0000_0000, 0x400_0000_0000, 0x2_0000_0000_0000,
     0x100_0000_0000_0000, 0x8000_0000_0000_0000]

  /** The result of a read whose first bytes contributed `acc`, each later byte counting `scale` times. */
  function Combine(acc: int, scale: int, r: (int, int)): (int, int) {
    if r.1 <= 0 then (0, r.1) else (acc + scale * r.0, r.1)
  }

  lemma {:induction false} CombineStep(acc: int, scale: int, low: int, r: (int, int))
    ensures Combine(acc, scale, if r.1 <= 0 then (0, r.1) else (low + 128 * r.0, r.1))
         == Combine(acc + scale * low, scale * 128, r)
  {
    assert scale * (low + 128 * r.0) == scale * low + scale * 128 * r.0;
  }

  lemma {:induction false} NoWrap(i: nat, acc: nat, low: nat)
    requires i <= 8 && acc < POW_128[i] && low < 128
    ensures POW_128[i + 1] == 128 * POW_128[i] && POW_128[i + 1] < TWO_64
    ensures acc + POW_128[i] * low < POW_128[i + 1]
  {
    assert POW_128[i] * low <= POW_128[i] * 127;
  }

  ghost predicate Accumulated(b: Str, i: nat, acc: int)
    requires i <= |b|
  {
    && i <= 10
    && (i < 10 ==> 0 <= acc < POW_128[i] && Uvarint(b, 0) == Combine(acc, POW_128[i], Uvarint(b[i..], i)))
    && (i == 10 ==> Uvarint(b, 0) == (0, if |b| > 10 then -11 else 0))
  }

  lemma {:induction false} UvarintTail(b: Str, i: nat)
    requires i < |b| && i < 10 && b[i] >= 0x80
    ensures var r := Uvarint(b[i + 1..], i + 1);
      Uvarint(b[i..], i) == if r.1 <= 0 then (0, r.1) else (b[i] - 0x80 + 128 * r.0, r.1)
  {
    assert b[i..][1..] == b[i + 1..];
  }

  lemma {:induction false} UvarintPastTen(b: Str)
    requires |b| >= 10
    ensures Uvarint(b[10..], 10) == (0, if |b| > 10 then -11 else 0)
  {
  }

  lemma {:induction false} MoreBytes(b: Str, i: nat, acc: nat, next: nat)
    requires i < |b| && i < 10 && Accumulated(b, i, acc) && b[i] >= 0x80
    requires i < 9 ==> next == acc + POW_128[i] * (b[i] - 0x80)
    ensures Accumulated(b, i + 1, next)
  {
    hide Uvarint;
    UvarintTail(b, i);
    if i < 9 {
      hide Combine;
      ScaleUp(Uvarint(b, 0), Uvarint(b[i..], i), i, acc, b[i] - 0x80, Uvarint(b[i + 1..], i + 1), next);
    } else {
      UvarintPastTen(b);
    }
  }

  lemma {:induction false} ScaleUp(
    whole: (int, int), tail: (int, int), i: nat, acc: nat, low: nat, r: (int, int), next: nat)
    requires i < 9 && acc < POW_128[i] && low < 128 && next == acc + POW_128[i] * low
    requires whole == Combine(acc, POW_128[i], tail)
    requires tail == if r.1 <= 0 then (0, r.1) else (low + 128 * r.0, r.1)
    ensures next < POW_128[i + 1] && whole == Combine(next, POW_128[i + 1], r)
  {
    NoWrap(i, acc, low);
    CombineStep(acc, POW_128[i], low, r);
  }

  lemma {:induction false} NoBytesYet(b: Str)
    ensures Accumulated(b, 0, 0)
  {
    assert b[0..] == b;
  }

  lemma {:induction false} BytesEnded(b: Str, acc: int)
    requires Accumulated(b, |b|, acc)
    ensures Uvarint(b, 0) == (0, 0)
  {
    assert b[|b|..] == [];
  }

  lemma {:induction false} LastByte(b: Str, i: nat, acc: int)
    requires i < |b| && i < 10 && Accumulated(b, i, acc) && b[i] < 0x80
    ensures Uvarint(b, 0) == if i == 9 && b[i] > 1 then (0, -(i + 1)) else (acc + POW_128[i] * b[i], i + 1)
  {
    assert b[i..][0] == b[i];
  }

  /** x |= uint64(b & 0x7f) << s, on 64 bits. */
  method OrShifted(acc: nat, i: nat, low: nat) returns (next: nat)
    requires i <= 9 && acc < POW_128[i] && low < 128
    ensures i < 9 ==> next == acc + POW_128[i] * low
  {
    if i < 9 {
      NoWrap(i, acc, low);
    }
    next := (acc + POW_128[i] * low) % TWO_64;
  }

  /** binary.Uvarint: the loop over the bytes, with its 64-bit accumulator. */
  method ReadUvarint(b: Str) returns (x: UInt64, n: int)
    ensures (x, n) == Uvarint(b, 0)
  {
    hide Uvarint, Combine;
    var acc: int := 0;
    NoBytesYet(b);
    for i := 0 to |b|
      invariant Accumulated(b, i, acc)
    {
      if i == 10 {
        return 0, -(i + 1);
      }
      if b[i] < 0x80 {
        LastByte(b, i, acc);
        if i == 9 && b[i] > 1 {
          return 0, -(i + 1);
        }
        return acc + POW_128[i] * b[i], i + 1;
      }
      var next := OrShifted(acc, i, b[i] - 0x80);
      MoreBytes(b, i, acc, next);
      acc := next;
    }
    BytesEnded(b, acc);
    x, n := 0, 0;
  }

  /** What the decoder has read: the bytes left, and its latched error. */
  datatype State = State(b: Str, err: Option<Error>)

  function Next(d: State, k: Kind): (State, Token) {
    if d.err.Some? then (d, Zero(k))
    else
      match ReadToken(k, d.b)
      case Err(e) =>
        // A string whose length was read has already moved past it when it fails.
        var n := Uvarint(d.b, 0).1;
        (State(if n > 0 then d.b[n..] else d.b, Some(e)), Zero(k))
      case Ok((t, n)) => (State(d.b[n..], None), t)
  }

  function Reads(d: State, ks: seq<Kind>): (r: (State, seq<Token>))
    ensures |r.1| == |ks|
    decreases ks
  {
    if ks == [] then (d, [])
    else
      var (d', t) := Next(d, ks[0]);
      var (d'', ts) := Reads(d', ks[1..]);
      (d'', [t] + ts)
  }

  lemma {:induction false} ReadsAppend(d: State, ks: seq<Kind>, k: Kind)
    ensures var (d', ts) := Reads(d, ks);
      Reads(d, ks + [k]) == (Next(d', k).0, ts + [Next(d', k).1])
    decreases ks
  {
    if ks == [] {
      assert ks + [k] == [k];
      assert Reads(Next(d, k).0, [k][1..]) == (Next(d, k).0, []);
      assert Reads(d, [k]).1 == [Next(d, k).1] == Reads(d, []).1 + [Next(d, k).1];
    } else {
      var (d', t) := Next(d, ks[0]);
      var (e, ts) := Reads(d', ks[1..]);
      ReadsAppend(d', ks[1..], k);
      assert (ks + [k])[1..] == ks[1..] + [k];
      assert [t] + (ts + [Next(e, k).1]) == ([t] + ts) + [Next(e, k).1];
    }
  }

  lemma {:induction false} StickyAfterError(d: State, ks: seq<Kind>)
    requires d.err.Some?
    ensures Reads(d, ks).0 == d
  {
    if ks == [] {
    } else {
      StickyAfterError(d, ks[1..]);
    }
  }

  /** Reading on after an error and checking once at the end gives what stopping at
      the first error gives. */
  lemma {:induction false} StickyIsFirstError(b: Str, ks: seq<Kind>)
    ensures var (d, ts) := Reads(State(b, None), ks);
      match ReadTokens(ks, b)
      case Err(e) => d.err == Some(e)
      case Ok((us, rest)) => d == State(rest, None) && ts == us
  {
    if ks == [] {
    } else {
      var d' := Next(State(b, None), ks[0]).0;
      if d'.err.Some? {
        StickyAfterError(d', ks[1..]);
      } else {
        StickyIsFirstError(d'.b, ks[1..]);
      }
    }
  }

  /** Reading a string is reading its length and then slicing it off. */
  lemma {:induction false} NextString(d: State)
    ensures var (m, t) := Next(d, UintKind);
      Next(d, StrKind) ==
        if m.err.Some? then (m, StrTok([]))
        else if t.u > MAX_ENCODED_STRING_LEN then (m.(err := Some(StringTooLong)), StrTok([]))
        else if |m.b| < t.u then (m.(err := Some(Truncated)), StrTok([]))
        else (State(m.b[t.u..], None), StrTok(m.b[..t.u]))
  {
    if d.err.None? {
      var (v, n) := Uvarint(d.b, 0);
      if n > 0 && v <= |d.b| - n {
        assert d.b[n..][..v] == d.b[n..n + v];
        assert d.b[n..][v..] == d.b[n + v..];
      }
    }
  }

  class Decoder {
    var b: Str
    var err: Option<Error>
    ghost const start: Str
    ghost var kinds: seq<Kind>
    ghost var tokens: seq<Token>

    ghost predicate Valid()
      reads this
    {
      Reads(State(start, None), kinds) == (State(b, err), tokens)
    }

    constructor (b: Str)
      ensures Valid() && start == b && kinds == [] && tokens == []
    {
      this.b, err := b, None;
      start, kinds, tokens := b, [], [];
    }

    method Uvarint() returns (v: UInt64)
      requires Valid()
      modifies this
      ensures Valid() && kinds == old(kinds) + [UintKind] && tokens == old(tokens) + [UintTok(v)]
    {
      ReadsAppend(State(start, None), kinds, UintKind);
      v := UvarintRaw();
      kinds, tokens := kinds + [UintKind], tokens + [UintTok(v)];
    }

    method UvarintRaw() returns (v: UInt64)
      modifies this`b, this`err
      ensures State(b, err) == Next(old(State(b, err)), UintKind).0
      ensures UintTok(v) == Next(old(State(b, err)), UintKind).1
    {
      if err.Some? {
        return 0;
      }
      var n;
      v, n := ReadUvarint(b);
      if n <= 0 {
        err := Some(Truncated);
        return 0;
      }
      b := b[n..];
    }

    method Varint() returns (v: Int64)
      requires Valid()
      modifies this
      ensures Valid() && kinds == old(kinds) + [IntKind] && tokens == old(tokens) + [IntTok(v)]
    {
      ReadsAppend(State(start, None), kinds, IntKind);
      v := 0;
      if err.None? {
        var u, n := ReadUvarint(b);
        if n <= 0 {
          err := Some(Truncated);
        } else {
          v := UnZigZag(u);
          b := b[n..];
        }
      }
      kinds, tokens := kinds + [IntKind], tokens + [IntTok(v)];
    }

    method String() returns (s: GoString)
      requires Valid()
      modifies this
      ensures Valid() && kinds == old(kinds) + [StrKind] && tokens == old(tokens) + [StrTok(s)]
    {
      ReadsAppend(State(start, None), kinds, StrKind);
      NextString(State(b, err));
      s := [];
      var n := UvarintRaw();
      if err.None? {
        if n > MAX_ENCODED_STRING_LEN {
          err := Some(StringTooLong);
        } else if |b| < n {
          err := Some(Truncated);
        } else {
          s := b[..n];
          b := b[n..];
        }
      }
      kinds, tokens := kinds + [StrKind], tokens + [StrTok(s)];
    }
  }

  /** The fields read so far, up to the risk bits and then to the end. */
  datatype Head = Head(
    id: GoString, tenantId: GoString, appId: GoString, eventType: Int64, riskLevel: Int64, riskBits: UInt64)
  datatype Tail = Tail(confidence: Int64, buildHash: GoString, policyHash: GoString, installKeyHash: GoString,
                       timeBucket: Int64, country: GoString, platform: Int64, receivedAt: Int64)

  ghost function HeadTokens(h: Head): seq<Token> {
    [StrTok(h.id), StrTok(h.tenantId), StrTok(h.appId), IntTok(h.eventType), IntTok(h.riskLevel), UintTok(h.riskBits)]
  }

  ghost function TailTokens(t: Tail): seq<Token> {
    [IntTok(t.confidence), StrTok(t.buildHash), StrTok(t.policyHash), StrTok(t.installKeyHash),
     IntTok(t.timeBucket), StrTok(t.country), IntTok(t.platform), IntTok(t.receivedAt)]
  }

  method ReadStrings(d: Decoder) returns (s0: GoString, s1: GoString, s2: GoString)
    requires d.Valid()
    modifies d
    ensures d.Valid() && d.kinds == old(d.kinds) + [StrKind, StrKind, StrKind]
    ensures d.tokens == old(d.tokens) + [StrTok(s0), StrTok(s1), StrTok(s2)]
  {
    s0 := d.String();
    s1 := d.String();
    s2 := d.String();
  }

  method ReadRisk(d: Decoder) returns (i0: Int64, i1: Int64, u: UInt64)
    requires d.Valid()
    modifies d
    ensures d.Valid() && d.kinds == old(d.kinds) + [IntKind, IntKind, UintKind]
    ensures d.tokens == old(d.tokens) + [IntTok(i0), IntTok(i1), UintTok(u)]
  {
    i0 := d.Varint();
    i1 := d.Varint();
    u := d.Uvarint();
  }

  method ReadOrigin(d: Decoder) returns (i0: Int64, s: GoString, i1: Int64, i2: Int64)
    requires d.Valid()
    modifies d
    ensures d.Valid() && d.kinds == old(d.kinds) + [IntKind, StrKind, IntKind, IntKind]
    ensures d.tokens == old(d.tokens) + [IntTok(i0), StrTok(s), IntTok(i1), IntTok(i2)]
  {
    i0 := d.Varint();
    s := d.String();
    i1 := d.Varint();
    i2 := d.Varint();
  }

  method ReadHead(d: Decoder) returns (h: Head)
    requires d.Valid() && d.kinds == []
    modifies d
    ensures d.Valid() && d.kinds == SCHEMA[..6] && d.tokens == HeadTokens(h)
  {
    var id, tenantId, appId := ReadStrings(d);
    var eventType, riskLevel, riskBits := ReadRisk(d);
    h := Head(id, tenantId, appId, eventType, riskLevel, riskBits);
  }

  method ReadTail(d: Decoder) returns (t: Tail)
    requires d.Valid()
    modifies d
    ensures d.Valid() && d.kinds == old(d.kinds) + SCHEMA[7..] && d.tokens == old(d.tokens) + TailTokens(t)
  {
    var confidence := d.Varint();
    var buildHash, policyHash, installKeyHash := ReadStrings(d);
    var timeBucket, country, platform, receivedAt := ReadOrigin(d);
    t := Tail(confidence, buildHash, policyHash, installKeyHash, timeBucket, country, platform, receivedAt);
    Regroup(old(d.kinds), [IntKind], [StrKind, StrKind, StrKind], [IntKind, StrKind, IntKind, IntKind], SCHEMA[7..]);
    Regroup(old(d.tokens), [IntTok(confidence)], [StrTok(buildHash), StrTok(policyHash), StrTok(installKeyHash)],
            [IntTok(timeBucket), StrTok(country), IntTok(platform), IntTok(receivedAt)], TailTokens(t));
  }

  lemma {:induction false} Regroup<T>(a: seq<T>, b: seq<T>, c: seq<T>, d: seq<T>, whole: seq<T>)
    requires b + c + d == whole
    ensures a + b + c + d == a + whole
  {
  }

  function EventFrom(h: Head, layout: UInt64, t: Tail): StoredEvent {
    StoredEvent(h.id, h.tenantId, h.appId, ToInt32(h.eventType), ToInt32(h.riskLevel), h.riskBits, layout % 256,
                ToInt32(t.confidence), t.buildHash, t.policyHash, t.installKeyHash, t.timeBucket, t.country,
                ToInt32(t.platform), t.receivedAt)
  }

  lemma {:induction false} AllFields(version: Byte, h: Head, layout: UInt64, t: Tail)
    requires version != VERSION ==> layout == LAYOUT_UNKNOWN
    ensures var ts := HeadTokens(h) + (if version == VERSION then [UintTok(layout)] else []) + TailTokens(t);
      Kinds(ts) == Schema(version) && EventOf(if version == VERSION then ts else Upgrade(ts)) == EventFrom(h, layout, t)
  {
    hide EventFrom, EventOf, Kinds;
    CurrentFields(h, layout, t);
    if version != VERSION {
      OldFields(h, t);
    }
  }

  lemma {:induction false} CurrentFields(h: Head, layout: UInt64, t: Tail)
    ensures var ts := HeadTokens(h) + [UintTok(layout)] + TailTokens(t);
      Kinds(ts) == SCHEMA && EventOf(ts) == EventFrom(h, layout, t)
  {
    hide ToInt32;
  }

  lemma {:induction false} OldFields(h: Head, t: Tail)
    ensures var ts := HeadTokens(h) + [] + TailTokens(t);
      Kinds(ts) == SCHEMA_V1 && Upgrade(ts) == HeadTokens(h) + [UintTok(LAYOUT_UNKNOWN)] + TailTokens(t)
  {
  }

  function SchemaFront(ver: Byte): seq<Kind> {
    if ver == VERSION then SCHEMA[..7] else SCHEMA[..6]
  }

  lemma {:induction false} SchemaParts(ver: Byte)
    ensures SchemaFront(ver) + SCHEMA[7..] == Schema(ver)
    ensures SCHEMA[..6] + [UintKind] == SCHEMA[..7]
  {
  }

  method ReadFront(d: Decoder, ver: Byte) returns (h: Head, layout: UInt64)
    requires d.Valid() && d.kinds == [] && (ver == VERSION || ver == VERSION_V1)
    modifies d
    ensures d.Valid() && d.kinds == SchemaFront(ver)
    ensures d.tokens == HeadTokens(h) + (if ver == VERSION then [UintTok(layout)] else [])
    ensures ver != VERSION ==> layout == LAYOUT_UNKNOWN
  {
    SchemaParts(ver);
    h := ReadHead(d);
    layout := LAYOUT_UNKNOWN;
    if ver >= VERSION {
      layout := d.Uvarint();
    }
  }

  method ReadFields(d: Decoder, ver: Byte) returns (e: StoredEvent)
    requires d.Valid() && d.kinds == [] && (ver == VERSION || ver == VERSION_V1)
    modifies d
    ensures d.Valid() && d.kinds == Schema(ver) && Kinds(d.tokens) == Schema(ver)
    ensures e == EventOf(if ver == VERSION then d.tokens else Upgrade(d.tokens))
  {
    var h, layout := ReadFront(d, ver);
    var t := ReadTail(d);
    SchemaParts(ver);
    AllFields(ver, h, layout, t);
    e := EventFrom(h, layout, t);
  }

  method DecodeStoredEvent(b: Str) returns (r: Result<StoredEvent>)
    ensures r == Decode(b)
  {
    if |b| == 0 {
      return Err(Truncated);
    }
    var ver := b[0];
    if ver != VERSION && ver != VERSION_V1 {
      return Err(BadVersion);
    }
    var d := new Decoder(b[1..]);
    var e := ReadFields(d, ver);
    StickyIsFirstError(b[1..], Schema(ver));
    if d.err.Some? {
      return Err(d.err.value);
    }
    if |d.b| != 0 {
      return Err(TrailingGarbage);
    }
    r := Ok(e);
  }
}
