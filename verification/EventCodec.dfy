/** The broker-internal wire form of a stored telemetry event
    (server/data-plane/ingest/event_codec.go). */
module EventCodec {
  import opened Bytes

  const MAX_ENCODED_STRING_LEN: int := 0x10_0000
  const VERSION: Byte := 2
  const VERSION_V1: Byte := 1

  /** A Go string: its length is a non-negative int. */
  type GoString = s: Str | |s| < TWO_63
  type Int32 = i: int | -0x8000_0000 <= i < 0x8000_0000

  datatype StoredEvent = StoredEvent(
    id: GoString, tenantId: GoString, appId: GoString,
    eventType: Int32, riskLevel: Int32, riskBits: UInt64, riskBitsLayout: Byte,
    confidence: Int32, buildHash: GoString, policyHash: GoString, installKeyHash: GoString,
    timeBucket: Int64, country: GoString, platform: Int32, receivedAt: Int64)

  const LAYOUT_UNKNOWN: Byte := 0

  datatype Error = Truncated | BadVersion | StringTooLong | TrailingGarbage
  datatype Result<+T> = Ok(value: T) | Err(error: Error)

  // ---- Varints (encoding/binary) ----

  function UvarintBytes(v: UInt64): (r: Str)
    ensures r != []
  {
    if v < 128 then [v] else [v % 128 + 128] + UvarintBytes(v / 128)
  }

  /** Value bound of a varint whose first `i` bytes are already read: 2^(64 - 7i). */
  function UvarintBound(i: nat): (r: nat)
    requires i <= 9
    ensures 2 <= r <= TWO_64
  {
    [0x1_0000_0000_0000_0000, 0x200_0000_0000_0000, 0x4_0000_0000_0000, 0x800_0000_0000, 0x10_0000_0000,
     0x2000_0000, 0x40_0000, 0x8000, 0x100, 2][i]
  }

  /** binary.Uvarint with `i` bytes already read: the value and the number of
      bytes consumed in all, or a count <= 0 when the bytes end early or overflow. */
  function Uvarint(b: Str, i: nat): (r: (int, int))
    requires i <= 10
    ensures r.1 > 0 ==> i <= 9 && i < r.1 <= i + |b| && 0 <= r.0 < UvarintBound(i)
    decreases 10 - i
  {
    if b == [] then (0, 0)
    else if i == 10 then (0, -(i + 1))
    else if b[0] < 128 then
      if i == 9 && b[0] > 1 then (0, -(i + 1)) else (b[0], i + 1)
    else
      var (v, n) := Uvarint(b[1..], i + 1);
      if n <= 0 then (0, n) else (b[0] - 128 + 128 * v, n)
  }

  function ZigZag(x: Int64): UInt64 {
    if x < 0 then -2 * x - 1 else 2 * x
  }

  function UnZigZag(u: UInt64): Int64 {
    if u % 2 == 1 then -(u / 2) - 1 else u / 2
  }

  lemma {:induction false} UvarintRoundTrip(v: UInt64, i: nat, rest: Str)
    requires i <= 9 && v < UvarintBound(i)
    ensures Uvarint(UvarintBytes(v) + rest, i) == (v, i + |UvarintBytes(v)|)
    decreases 10 - i
  {
    var b := UvarintBytes(v) + rest;
    if v >= 128 {
      UvarintRoundTrip(v / 128, i + 1, rest);
      assert b[1..] == UvarintBytes(v / 128) + rest;
    }
  }

  lemma {:induction false} UvarintPrefix(v: UInt64, i: nat, k: nat)
    requires i <= 9 && v < UvarintBound(i) && k < |UvarintBytes(v)|
    ensures Uvarint(UvarintBytes(v)[..k], i) == (0, 0)
    decreases 10 - i
  {
    if k == 0 {
    } else {
      UvarintPrefix(v / 128, i + 1, k - 1);
      assert UvarintBytes(v)[..k][1..] == UvarintBytes(v / 128)[..k - 1];
    }
  }

  lemma {:induction false} Base128(low: nat, high: nat)
    requires low < 128
    ensures (low + 128 * high) % 128 == low && (low + 128 * high) / 128 == high
  {
  }

  lemma {:induction false} UvarintBytesCons(low: nat, high: UInt64)
    requires low < 128 && low + 128 * high < TWO_64
    ensures high > 0 ==> UvarintBytes(low + 128 * high) == [low + 128] + UvarintBytes(high)
    ensures high == 0 ==> UvarintBytes(low + 128 * high) == [low]
  {
    Base128(low, high);
  }

  lemma {:induction false} UvarintShort(b: Str, i: nat, v: UInt64, n: nat)
    requires i <= 9 && n > 0 && Uvarint(b, i) == (v, n) && b[n - i - 1] != 0
    ensures v > 0 && UvarintBytes(v) == b[..n - i]
    decreases 10 - i
  {
    hide UvarintBytes;
    if b[0] >= 128 {
      var w: UInt64 := Uvarint(b[1..], i + 1).0;
      UvarintShort(b[1..], i + 1, w, n);
      UvarintBytesCons(b[0] - 128, w);
      assert b[..n - i] == [b[0]] + b[1..][..n - i - 1];
    } else {
      UvarintBytesCons(b[0], 0);
      assert b[..1] == [b[0]];
    }
  }

  lemma {:induction false} UvarintLong(b: Str, i: nat, v: UInt64, n: nat)
    requires i <= 9 && n > i + 1 && Uvarint(b, i) == (v, n) && b[n - i - 1] == 0
    ensures |UvarintBytes(v)| < n - i
    decreases 10 - i
  {
    var w: UInt64 := Uvarint(b[1..], i + 1).0;
    UvarintBytesCons(b[0] - 128, w);
    if n > i + 2 {
      UvarintLong(b[1..], i + 1, w, n);
    }
  }

  /** A varint is in shortest form when it is one byte or its last byte is not zero. */
  predicate ShortestForm(b: Str) {
    |b| == 1 || (b != [] && b[|b| - 1] != 0)
  }

  lemma {:induction false} UvarintShortest(b: Str)
    requires Uvarint(b, 0).1 > 0
    ensures ShortestForm(b[..Uvarint(b, 0).1]) <==> UvarintBytes(Uvarint(b, 0).0) == b[..Uvarint(b, 0).1]
  {
    var (v, n) := Uvarint(b, 0);
    if b[n - 1] != 0 {
      UvarintShort(b, 0, v, n);
    } else if n > 1 {
      UvarintLong(b, 0, v, n);
    } else {
      assert b[..1] == [b[0]];
    }
  }

  // ---- Fields ----

  datatype Kind = StrKind | IntKind | UintKind
  datatype Token = StrTok(s: GoString) | IntTok(i: Int64) | UintTok(u: UInt64)

  function KindOf(t: Token): Kind {
    match t
    case StrTok(_) => StrKind
    case IntTok(_) => IntKind
    case UintTok(_) => UintKind
  }

  function TokenBytes(t: Token): Str {
    match t
    case StrTok(s) => UvarintBytes(|s|) + s
    case IntTok(i) => UvarintBytes(ZigZag(i))
    case UintTok(u) => UvarintBytes(u)
  }

  function TokensBytes(ts: seq<Token>): Str {
    if ts == [] then [] else TokenBytes(ts[0]) + TokensBytes(ts[1..])
  }

  function Zero(k: Kind): Token {
    match k
    case StrKind => StrTok([])
    case IntKind => IntTok(0)
    case UintKind => UintTok(0)
  }

  /** One decoder read on the remaining bytes `b`: the value and how many bytes it took. */
  function ReadToken(k: Kind, b: Str): (r: Result<(Token, nat)>)
    ensures r.Ok? ==> KindOf(r.value.0) == k && 0 < r.value.1 <= |b|
  {
    var (v, n) := Uvarint(b, 0);
    if n <= 0 then Err(Truncated)
    else
      match k
      case UintKind => Ok((UintTok(v), n))
      case IntKind => Ok((IntTok(UnZigZag(v)), n))
      case StrKind =>
        if v > MAX_ENCODED_STRING_LEN then Err(StringTooLong)
        else if |b| - n < v then Err(Truncated)
        else Ok((StrTok(b[n..n + v]), n + v))
  }

  /** Reads the fields of kinds `ks` in order and returns them with the bytes left over. */
  function ReadTokens(ks: seq<Kind>, b: Str): (r: Result<(seq<Token>, Str)>)
    ensures r.Ok? ==> |r.value.0| == |ks| && forall j :: 0 <= j < |ks| ==> KindOf(r.value.0[j]) == ks[j]
  {
    if ks == [] then Ok(([], b))
    else
      match ReadToken(ks[0], b)
      case Err(e) => Err(e)
      case Ok((t, n)) =>
        match ReadTokens(ks[1..], b[n..])
        case Err(e) => Err(e)
        case Ok((ts, rest)) => Ok(([t] + ts, rest))
  }

  function Kinds(ts: seq<Token>): (ks: seq<Kind>)
    ensures |ks| == |ts| && forall j :: 0 <= j < |ts| ==> ks[j] == KindOf(ts[j])
  {
    seq(|ts|, j requires 0 <= j < |ts| => KindOf(ts[j]))
  }

  predicate TokenFits(t: Token) {
    t.StrTok? ==> |t.s| <= MAX_ENCODED_STRING_LEN
  }

  predicate TokensFit(ts: seq<Token>) {
    forall j :: 0 <= j < |ts| ==> TokenFits(ts[j])
  }

  lemma {:induction false} ZigZagRoundTrip(i: Int64)
    ensures UnZigZag(ZigZag(i)) == i
  {
  }

  lemma {:induction false} StringRoundTrip(s: GoString, rest: Str)
    ensures ReadToken(StrKind, TokenBytes(StrTok(s)) + rest) ==
      if TokenFits(StrTok(s)) then Ok((StrTok(s), |TokenBytes(StrTok(s))|)) else Err(StringTooLong)
  {
    hide UvarintBytes, Uvarint;
    var len := UvarintBytes(|s|);
    var b := TokenBytes(StrTok(s)) + rest;
    UvarintRoundTrip(|s|, 0, s + rest);
    assert b == len + (s + rest);
    assert b[|len|..|len| + |s|] == s;
  }

  lemma {:induction false} TokenRoundTrip(t: Token, rest: Str)
    ensures ReadToken(KindOf(t), TokenBytes(t) + rest) ==
      if TokenFits(t) then Ok((t, |TokenBytes(t)|)) else Err(StringTooLong)
  {
    match t
    case StrTok(s) => StringRoundTrip(s, rest);
    case IntTok(i) =>
      UvarintRoundTrip(ZigZag(i), 0, rest);
      ZigZagRoundTrip(i);
    case UintTok(u) => UvarintRoundTrip(u, 0, rest);
  }

  lemma {:induction false} TokenPrefix(t: Token, k: nat)
    requires TokenFits(t) && k < |TokenBytes(t)|
    ensures ReadToken(KindOf(t), TokenBytes(t)[..k]) == Err(Truncated)
  {
    match t
    case StrTok(s) =>
      var len := UvarintBytes(|s|);
      if k < |len| {
        UvarintPrefix(|s|, 0, k);
        assert TokenBytes(t)[..k] == len[..k];
      } else {
        UvarintRoundTrip(|s|, 0, s[..k - |len|]);
        assert TokenBytes(t)[..k] == len + s[..k - |len|];
      }
    case IntTok(i) => UvarintPrefix(ZigZag(i), 0, k);
    case UintTok(u) => UvarintPrefix(u, 0, k);
  }

  lemma {:induction false} TokensSplit(ts: seq<Token>, rest: Str)
    requires ts != []
    ensures TokensBytes(ts) + rest == TokenBytes(ts[0]) + (TokensBytes(ts[1..]) + rest)
    ensures (TokensBytes(ts) + rest)[|TokenBytes(ts[0])|..] == TokensBytes(ts[1..]) + rest
    ensures Kinds(ts)[0] == KindOf(ts[0]) && Kinds(ts)[1..] == Kinds(ts[1..])
    ensures TokensFit(ts) <==> TokenFits(ts[0]) && TokensFit(ts[1..])
  {
    assert forall j :: 0 <= j < |ts[1..]| ==> ts[1..][j] == ts[j + 1];
    assert forall j :: 1 <= j < |ts| ==> ts[j] == ts[1..][j - 1];
  }

  lemma {:induction false} TokensRoundTrip(ts: seq<Token>, rest: Str)
    ensures ReadTokens(Kinds(ts), TokensBytes(ts) + rest) ==
      if TokensFit(ts) then Ok((ts, rest)) else Err(StringTooLong)
  {
    if ts == [] {
      assert TokensBytes(ts) + rest == rest;
    } else {
      TokensSplit(ts, rest);
      TokenRoundTrip(ts[0], TokensBytes(ts[1..]) + rest);
      TokensRoundTrip(ts[1..], rest);
      assert ts == [ts[0]] + ts[1..];
    }
  }

  lemma {:induction false} TokensPrefix(ts: seq<Token>, k: nat)
    requires TokensFit(ts) && k < |TokensBytes(ts)|
    ensures ReadTokens(Kinds(ts), TokensBytes(ts)[..k]) == Err(Truncated)
  {
    hide ReadToken, TokenBytes, TokenFits;
    var b := TokensBytes(ts);
    var first := TokenBytes(ts[0]);
    assert Kinds(ts)[1..] == Kinds(ts[1..]);
    if k < |first| {
      TokenPrefix(ts[0], k);
      assert b[..k] == first[..k];
    } else {
      var tail := TokensBytes(ts[1..])[..k - |first|];
      TokenRoundTrip(ts[0], tail);
      TokensPrefix(ts[1..], k - |first|);
      assert b[..k] == first + tail;
      assert (first + tail)[|first|..] == tail;
    }
  }

  /** Every varint of the encoding, the string lengths included, is in shortest form. */
  predicate Shortest(ks: seq<Kind>, b: Str) {
    if ks == [] then true
    else
      match ReadToken(ks[0], b)
      case Err(_) => false
      case Ok((_, n)) => ShortestForm(b[..Uvarint(b, 0).1]) && Shortest(ks[1..], b[n..])
  }

  lemma {:induction false} UnZigZagRoundTrip(u: UInt64)
    ensures ZigZag(UnZigZag(u)) == u
  {
  }

  lemma {:induction false} TokenShortest(k: Kind, b: Str, t: Token, n: nat)
    requires ReadToken(k, b) == Ok((t, n))
    ensures ShortestForm(b[..Uvarint(b, 0).1]) ==> TokenBytes(t) == b[..n]
    ensures |TokenBytes(t)| <= n
    ensures |TokenBytes(t)| == n ==> ShortestForm(b[..Uvarint(b, 0).1])
  {
    var (v, m) := Uvarint(b, 0);
    UvarintShortest(b);
    UvarintLength(b, v, m);
    UnZigZagRoundTrip(v);
    assert k == StrKind ==> b[..n] == b[..m] + b[m..n];
  }

  lemma {:induction false} UvarintLength(b: Str, v: UInt64, n: nat)
    requires Uvarint(b, 0) == (v, n) && n > 0
    ensures |UvarintBytes(v)| <= n
    ensures |UvarintBytes(v)| == n ==> ShortestForm(b[..n])
  {
    if b[n - 1] != 0 {
      UvarintShort(b, 0, v, n);
    } else if n > 1 {
      UvarintLong(b, 0, v, n);
    }
  }

  lemma {:induction false} ReadTokensSplit(ks: seq<Kind>, b: Str, ts: seq<Token>, rest: Str)
    requires ks != [] && ReadTokens(ks, b) == Ok((ts, rest))
    ensures ReadToken(ks[0], b).Ok? && ReadToken(ks[0], b).value.0 == ts[0]
    ensures ReadTokens(ks[1..], b[ReadToken(ks[0], b).value.1..]) == Ok((ts[1..], rest))
  {
    var (t, n) := ReadToken(ks[0], b).value;
    var (tail, _) := ReadTokens(ks[1..], b[n..]).value;
    assert ts == [t] + tail;
  }

  lemma {:induction false} TokensShortest(ks: seq<Kind>, b: Str, ts: seq<Token>, rest: Str)
    requires ReadTokens(ks, b) == Ok((ts, rest))
    ensures |TokensBytes(ts)| + |rest| <= |b|
    ensures Shortest(ks, b) ==> TokensBytes(ts) + rest == b
    ensures |TokensBytes(ts)| + |rest| == |b| ==> Shortest(ks, b)
  {
    if ks == [] {
      assert TokensBytes(ts) + rest == rest;
    } else {
      ReadTokensSplit(ks, b, ts, rest);
      var n := ReadToken(ks[0], b).value.1;
      TokenShortest(ks[0], b, ts[0], n);
      TokensShortest(ks[1..], b[n..], ts[1..], rest);
      if Shortest(ks, b) {
        TokensConcat(ts, b, n, rest);
      }
    }
  }

  lemma {:induction false} TokensConcat(ts: seq<Token>, b: Str, n: nat, rest: Str)
    requires ts != [] && n <= |b|
    requires TokenBytes(ts[0]) == b[..n] && TokensBytes(ts[1..]) + rest == b[n..]
    ensures TokensBytes(ts) + rest == b
  {
    assert TokensBytes(ts) + rest == TokenBytes(ts[0]) + (TokensBytes(ts[1..]) + rest);
    assert b == b[..n] + b[n..];
  }

  // ---- Events ----

  function EventTokens(e: StoredEvent): seq<Token> {
    [StrTok(e.id), StrTok(e.tenantId), StrTok(e.appId), IntTok(e.eventType), IntTok(e.riskLevel),
     UintTok(e.riskBits), UintTok(e.riskBitsLayout), IntTok(e.confidence), StrTok(e.buildHash),
     StrTok(e.policyHash), StrTok(e.installKeyHash), IntTok(e.timeBucket), StrTok(e.country),
     IntTok(e.platform), IntTok(e.receivedAt)]
  }

  /** The fields of a version-1 record, which has no layout byte. */
  function EventTokensV1(e: StoredEvent): seq<Token> {
    EventTokens(e)[..6] + EventTokens(e)[7..]
  }

  const SCHEMA: seq<Kind> :=
    [StrKind, StrKind, StrKind, IntKind, IntKind, UintKind, UintKind, IntKind, StrKind,
     StrKind, StrKind, IntKind, StrKind, IntKind, IntKind]
  const SCHEMA_V1: seq<Kind> :=
    [StrKind, StrKind, StrKind, IntKind, IntKind, UintKind, IntKind, StrKind,
     StrKind, StrKind, IntKind, StrKind, IntKind, IntKind]

  /** Go's int32(v). */
  function ToInt32(v: Int64): Int32 {
    (v + 0x8000_0000) % 0x1_0000_0000 - 0x8000_0000
  }

  function EventOf(ts: seq<Token>): StoredEvent
    requires Kinds(ts) == SCHEMA
  {
    StoredEvent(ts[0].s, ts[1].s, ts[2].s, ToInt32(ts[3].i), ToInt32(ts[4].i), ts[5].u, ts[6].u % 256,
                ToInt32(ts[7].i), ts[8].s, ts[9].s, ts[10].s, ts[11].i, ts[12].s, ToInt32(ts[13].i), ts[14].i)
  }

  /** A version-1 record read as a version-2 one with an unknown layout. */
  function Upgrade(ts: seq<Token>): (r: seq<Token>)
    requires Kinds(ts) == SCHEMA_V1
    ensures Kinds(r) == SCHEMA
  {
    ts[..6] + [UintTok(LAYOUT_UNKNOWN)] + ts[6..]
  }

  function Encode(e: StoredEvent): Str {
    [VERSION] + TokensBytes(EventTokens(e))
  }

  function Schema(version: Byte): seq<Kind> {
    if version == VERSION then SCHEMA else SCHEMA_V1
  }

  /** The outcome of a record of the given version once its fields are read. */
  function Finish(version: Byte, r: Result<(seq<Token>, Str)>): Result<StoredEvent>
    requires r.Ok? ==> Kinds(r.value.0) == Schema(version)
  {
    match r
    case Err(e) => Err(e)
    case Ok((ts, rest)) =>
      if rest != [] then Err(TrailingGarbage)
      else Ok(EventOf(if version == VERSION then ts else Upgrade(ts)))
  }

  function Decode(b: Str): Result<StoredEvent> {
    if b == [] then Err(Truncated)
    else if b[0] != VERSION && b[0] != VERSION_V1 then Err(BadVersion)
    else
      var r := ReadTokens(Schema(b[0]), b[1..]);
      assert r.Ok? ==> Kinds(r.value.0) == Schema(b[0]);
      Finish(b[0], r)
  }

  predicate StringsFit(e: StoredEvent) {
    && |e.id| <= MAX_ENCODED_STRING_LEN && |e.tenantId| <= MAX_ENCODED_STRING_LEN
    && |e.appId| <= MAX_ENCODED_STRING_LEN && |e.buildHash| <= MAX_ENCODED_STRING_LEN
    && |e.policyHash| <= MAX_ENCODED_STRING_LEN && |e.installKeyHash| <= MAX_ENCODED_STRING_LEN
    && |e.country| <= MAX_ENCODED_STRING_LEN
  }

  lemma {:induction false} EventFacts(e: StoredEvent)
    ensures Kinds(EventTokens(e)) == SCHEMA && EventOf(EventTokens(e)) == e
    ensures TokensFit(EventTokens(e)) <==> StringsFit(e)
  {
    var ts := EventTokens(e);
    assert Kinds(ts) == SCHEMA;
    assert TokensFit(ts) ==> StringsFit(e) by {
      if TokensFit(ts) {
        assert TokenFits(ts[0]) && TokenFits(ts[1]) && TokenFits(ts[2]) && TokenFits(ts[8])
            && TokenFits(ts[9]) && TokenFits(ts[10]) && TokenFits(ts[12]);
      }
    }
  }

  lemma {:induction false} ReadEvent(e: StoredEvent, rest: Str)
    ensures ReadTokens(SCHEMA, (Encode(e) + rest)[1..]) ==
      if StringsFit(e) then Ok((EventTokens(e), rest)) else Err(StringTooLong)
  {
    EventFacts(e);
    TokensRoundTrip(EventTokens(e), rest);
    DropVersion(TokensBytes(EventTokens(e)), rest);
  }

  lemma {:induction false} DropVersion(fields: Str, rest: Str)
    ensures ([VERSION] + fields + rest)[1..] == fields + rest
  {
  }

  /** decodeStoredEvent undoes encodeStoredEvent exactly when no string is over the
      decoder's 1 MiB bound; over it, the record is refused. */
  lemma {:induction false} RoundTrip(e: StoredEvent)
    ensures Decode(Encode(e)) == if StringsFit(e) then Ok(e) else Err(StringTooLong)
  {
    EventFacts(e);
    ReadEvent(e, []);
    assert Encode(e) + [] == Encode(e);
  }

  /** No strict prefix of an encoded event decodes: the code is prefix-free. */
  lemma {:induction false} PrefixRejected(e: StoredEvent, k: nat)
    requires StringsFit(e) && k < |Encode(e)|
    ensures Decode(Encode(e)[..k]) == Err(Truncated)
  {
    hide TokensBytes, ReadTokens;
    EventFacts(e);
    if k > 0 {
      TokensPrefix(EventTokens(e), k - 1);
      assert Encode(e)[..k][1..] == TokensBytes(EventTokens(e))[..k - 1];
    }
  }

  lemma {:induction false} ExtensionRejected(e: StoredEvent, extra: Str)
    requires StringsFit(e) && extra != []
    ensures Decode(Encode(e) + extra) == Err(TrailingGarbage)
  {
    ReadEvent(e, extra);
  }

  lemma {:induction false} VersionOneFacts(e: StoredEvent)
    ensures Kinds(EventTokensV1(e)) == SCHEMA_V1
    ensures Upgrade(EventTokensV1(e)) == EventTokens(e.(riskBitsLayout := LAYOUT_UNKNOWN))
    ensures TokensFit(EventTokens(e)) ==> TokensFit(EventTokensV1(e))
  {
    var ts := EventTokens(e);
    var us := EventTokensV1(e);
    EventFacts(e);
    assert forall j :: 0 <= j < 6 ==> us[j] == ts[j];
    assert forall j :: 6 <= j < 14 ==> us[j] == ts[j + 1];
    assert forall j :: 6 <= j < 14 ==> SCHEMA_V1[j] == SCHEMA[j + 1];
    assert Kinds(us) == SCHEMA_V1;
  }

  /** A version-1 record decodes to the same event with an unknown layout. */
  lemma {:induction false} VersionOne(e: StoredEvent)
    requires StringsFit(e)
    ensures Decode([VERSION_V1] + TokensBytes(EventTokensV1(e))) == Ok(e.(riskBitsLayout := LAYOUT_UNKNOWN))
  {
    hide ReadTokens, TokensBytes, TokenFits;
    var ts := EventTokensV1(e);
    VersionOneFacts(e);
    EventFacts(e);
    TokensRoundTrip(ts, []);
    assert ([VERSION_V1] + TokensBytes(ts))[1..] == TokensBytes(ts) + [];
    EventFacts(e.(riskBitsLayout := LAYOUT_UNKNOWN));
  }

  /** The enum fields hold 32-bit values and the layout field one byte, so the
      decoder's conversions lose nothing. */
  predicate InRange(ts: seq<Token>)
    requires Kinds(ts) == SCHEMA
  {
    && ToInt32(ts[3].i) == ts[3].i && ToInt32(ts[4].i) == ts[4].i && ts[6].u < 256
    && ToInt32(ts[7].i) == ts[7].i && ToInt32(ts[13].i) == ts[13].i
  }

  lemma {:induction false} InRangeTokens(ts: seq<Token>)
    requires Kinds(ts) == SCHEMA
    ensures InRange(ts) <==> EventTokens(EventOf(ts)) == ts
  {
    var us := EventTokens(EventOf(ts));
    if us == ts {
      assert us[3] == ts[3] && us[4] == ts[4] && us[6] == ts[6] && us[7] == ts[7] && us[13] == ts[13];
    }
  }

  /** The decoder accepts bytes the encoder never writes. Re-encoding an accepted
      record gives back the same bytes exactly when it is a version-2 record whose
      varints are all in shortest form and whose narrow fields are in range. */
  lemma {:induction false} ExactInverse(b: Str)
    requires Decode(b).Ok?
    ensures Encode(Decode(b).value) == b <==>
      b[0] == VERSION && Shortest(SCHEMA, b[1..]) && InRange(ReadTokens(SCHEMA, b[1..]).value.0)
  {
    hide ReadTokens, TokensBytes, TokensFit, InRange, EventTokens;
    var e := Decode(b).value;
    var us := EventTokens(e);
    assert b == [b[0]] + b[1..];
    assert Encode(e)[1..] == TokensBytes(us) == TokensBytes(us) + [];
    if b[0] == VERSION {
      var ts := ReadTokens(SCHEMA, b[1..]).value.0;
      assert Kinds(ts) == SCHEMA;
      TokensShortest(SCHEMA, b[1..], ts, []);
      InRangeTokens(ts);
      if Encode(e) == b {
        EventFacts(e);
        TokensRoundTrip(us, []);
      }
    }
  }
}
