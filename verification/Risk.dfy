/** The risk pipeline (server/shared/risk/risk.go): device bits translated to server
    bits, fused, scored with saturation, mapped to a trust level and to a decision. */
module Risk {
  import opened Bytes

  /** A 64-bit risk bitset as the set of its bit positions; bitwise or is union. */
  type Bits = s: set<nat> | forall i :: i in s ==> i < 64

  type UInt32 = n: int | 0 <= n < TWO_32

  // ---- Wire bits ----

  const MAX_WIRE_BIT: nat := 20
  const MAX_DEVICE_BIT: nat := 15
  const BIT_FLEET_ANOMALY: nat := 32

  /** The server bit of each wire bit, from bit 0. */
  const WIRE_TO_SERVER: seq<nat> := [0, 0, 2, 2, 1, 3, 4, 4, 6, 10, 10, 6, 6, 5, 8, 4, 11, 12, 13, 14, 15]

  /** The server bits that some set wire bit up to the highest known one stands for. */
  function FromWireBits(wire: Bits): (r: Bits)
    ensures forall i :: i in r ==> i <= MAX_DEVICE_BIT
  {
    set i | i in wire && i <= MAX_WIRE_BIT :: WIRE_TO_SERVER[i]
  }

  method FromWire(wire: Bits) returns (out: Bits)
    ensures out == FromWireBits(wire)
  {
    out := {};
    for i := 0 to MAX_WIRE_BIT + 1
      invariant forall k :: k in out <==> exists j :: 0 <= j < i && j in wire && WIRE_TO_SERVER[j] == k
    {
      if i in wire {
        out := out + {WIRE_TO_SERVER[i]};
      }
    }
  }

  /** Translating a union is the union of the translations. */
  lemma {:induction false} TranslationUnion(a: Bits, b: Bits)
    ensures FromWireBits(a + b) == FromWireBits(a) + FromWireBits(b)
  {
  }

  /** The fleet bit never comes from a device, and neither does any bit above the
      device range; a wire bit above the highest known one means nothing. */
  lemma {:induction false} NeverFleet(wire: Bits)
    ensures BIT_FLEET_ANOMALY !in FromWireBits(wire)
    ensures FromWireBits(wire) == FromWireBits(set i | i in wire && i <= MAX_WIRE_BIT)
  {
  }

  // ---- Score ----

  const MAX_SCORE: int := TWO_32 - 1

  const DEFAULT_WEIGHTS: map<nat, UInt32> := map[
    0 := 40, 1 := 25, 2 := 20, 3 := 35, 4 := 60, 5 := 70, 6 := 30, 7 := 20, 8 := 45, 9 := 65, 10 := 15,
    11 := 30, 12 := 35, 13 := 40, 14 := 25, 15 := 45, 32 := 50]

  function Weight(weights: map<nat, UInt32>, i: nat): UInt32 {
    if i in weights then weights[i] else if i in DEFAULT_WEIGHTS then DEFAULT_WEIGHTS[i] else 0
  }

  /** The exact sum of the weights of the bits set below `n`. */
  function Sum(bits: Bits, weights: map<nat, UInt32>, n: nat): nat {
    if n == 0 then 0 else Sum(bits, weights, n - 1) + if n - 1 in bits then Weight(weights, n - 1) else 0
  }

  function Saturated(n: nat): UInt32 {
    if n > MAX_SCORE then MAX_SCORE else n
  }

  function Score(bits: Bits, weights: map<nat, UInt32>): UInt32 {
    Saturated(Sum(bits, weights, 64))
  }

  method AddSat(a: UInt32, b: UInt32) returns (r: UInt32)
    ensures r == Saturated(a + b)
  {
    if a > MAX_SCORE - b {
      return MAX_SCORE;
    }
    r := a + b;
  }

  /** Saturating at every addition gives the saturated sum. */
  method ScoreBits(bits: Bits, weights: map<nat, UInt32>) returns (total: UInt32)
    ensures total == Score(bits, weights)
  {
    hide Weight;
    total := 0;
    var i := 0;
    while i < 64
      invariant 0 <= i <= 64 && total == Saturated(Sum(bits, weights, i))
    {
      if i in bits {
        total := AddSat(total, Weight(weights, i));
      }
      i := i + 1;
    }
  }

  lemma {:induction false} SumMonotone(a: Bits, b: Bits, weights: map<nat, UInt32>, n: nat)
    requires a <= b && n <= 64
    ensures Sum(a, weights, n) <= Sum(b, weights, n)
  {
    hide Weight;
    if n == 0 {
    } else {
      SumMonotone(a, b, weights, n - 1);
    }
  }

  // ---- Level ----

  /** Trust levels by severity; zero is unspecified. */
  type Level = n: int | 0 <= n <= 5

  const TRUSTED: Level := 1
  const LOW_RISK: Level := 2
  const MEDIUM_RISK: Level := 3
  const HIGH_RISK: Level := 4
  const CRITICAL: Level := 5

  function LevelByName(name: string): Level {
    if name == "TRUSTED" || name == "TRUST_LEVEL_TRUSTED" then TRUSTED
    else if name == "LOW_RISK" || name == "TRUST_LEVEL_LOW_RISK" then LOW_RISK
    else if name == "MEDIUM_RISK" || name == "TRUST_LEVEL_MEDIUM_RISK" then MEDIUM_RISK
    else if name == "HIGH_RISK" || name == "TRUST_LEVEL_HIGH_RISK" then HIGH_RISK
    else if name == "CRITICAL" || name == "TRUST_LEVEL_CRITICAL" then CRITICAL
    else 0
  }

  function DefaultLevel(score: UInt32): Level {
    if score >= 130 then CRITICAL else if score >= 90 then HIGH_RISK else if score >= 50 then MEDIUM_RISK
    else if score >= 20 then LOW_RISK else TRUSTED
  }

  /** The most severe level whose minimum the score meets, whatever order the names are
      visited in; the default table when none are given. */
  ghost predicate IsLevel(score: UInt32, thresholds: map<string, UInt32>, level: Level) {
    if thresholds == map[] then level == DefaultLevel(score)
    else
      && level >= TRUSTED
      && (forall name :: name in thresholds && score >= thresholds[name] ==> LevelByName(name) <= level)
      && (level == TRUSTED ||
             exists name :: name in thresholds && score >= thresholds[name] && LevelByName(name) == level)
  }

  method LevelOf(score: UInt32, thresholds: map<string, UInt32>) returns (level: Level)
    ensures IsLevel(score, thresholds, level)
  {
    if thresholds == map[] {
      return DefaultLevel(score);
    }
    hide LevelByName;
    level := TRUSTED;
    var rest := thresholds.Keys;
    while rest != {}
      invariant rest <= thresholds.Keys && level >= TRUSTED
      invariant forall name :: name in thresholds && name !in rest && score >= thresholds[name] ==>
        LevelByName(name) <= level
      invariant level == TRUSTED ||
        exists name :: name in thresholds && score >= thresholds[name] && LevelByName(name) == level
      decreases |rest|
    {
      var name :| name in rest;
      rest := rest - {name};
      var l := LevelByName(name);
      if l == 0 {
        continue;
      }
      if score >= thresholds[name] && l > level {
        level := l;
      }
    }
  }

  const DEFAULT_THRESHOLDS: map<string,
    UInt32> := map["CRITICAL" := 130, "HIGH_RISK" := 90, "MEDIUM_RISK" := 50, "LOW_RISK" := 20]

  /** The built-in table means what the same thresholds given by name would mean. */
  lemma {:induction false} DefaultIsTable(score: UInt32)
    ensures IsLevel(score, DEFAULT_THRESHOLDS, DefaultLevel(score))
  {
    var t := DEFAULT_THRESHOLDS;
    assert LevelByName("CRITICAL") == CRITICAL && LevelByName("HIGH_RISK") == HIGH_RISK
        && LevelByName("MEDIUM_RISK") == MEDIUM_RISK && LevelByName("LOW_RISK") == LOW_RISK;
    hide LevelByName;
    assert "CRITICAL" in t && "HIGH_RISK" in t && "MEDIUM_RISK" in t && "LOW_RISK" in t;
  }

  /** The level is unique. */
  lemma {:induction false} LevelUnique(score: UInt32, thresholds: map<string, UInt32>, l: Level, m: Level)
    requires IsLevel(score, thresholds, l) && IsLevel(score, thresholds, m)
    ensures l == m
  {
    hide IsLevel;
    LevelMonotone(score, score, thresholds, l, m);
    LevelMonotone(score, score, thresholds, m, l);
  }

  /** A higher score never means a less severe level. */
  lemma {:induction false} LevelMonotone(s: UInt32, t: UInt32, thresholds: map<string, UInt32>, l: Level, m: Level)
    requires s <= t && IsLevel(s, thresholds, l) && IsLevel(t, thresholds, m)
    ensures l <= m
  {
    hide LevelByName;
    if thresholds != map[] && l != TRUSTED {
      var name :| name in thresholds && s >= thresholds[name] && LevelByName(name) == l;
      assert t >= thresholds[name];
    }
  }

  // ---- Decision ----

  datatype Mode = Unspecified | Observe | StepUpMode | Block

  /** Decisions by severity: allow, step up, deny. */
  type Severity = n: int | 1 <= n <= 3 witness 1

  const ALLOW: Severity := 1
  const STEP_UP: Severity := 2
  const DENY: Severity := 3

  /** Observing never gets in the way; only critical, or high risk while blocking, is
      denied; only trusted and low risk (or an unspecified level) are let through. */
  function Decision(level: Level, mode: Mode): (d: Severity)
    ensures d == DENY <==> mode != Observe && (level == CRITICAL || (level == HIGH_RISK && mode == Block))
    ensures d == ALLOW <==> mode == Observe || level <= LOW_RISK
  {
    if mode == Observe then ALLOW
    else if level == CRITICAL then DENY
    else if level == HIGH_RISK then if mode == Block then DENY else STEP_UP
    else if level == MEDIUM_RISK then STEP_UP
    else ALLOW
  }

  lemma {:induction false} DecisionMonotone(l: Level, m: Level, mode: Mode)
    requires l <= m
    ensures Decision(l, mode) <= Decision(m, mode)
  {
  }

  // ---- The whole pipeline ----

  /** A policy: per-bit weights, level thresholds and mode. */
  datatype Policy = Policy(weights: map<nat, UInt32>, thresholds: map<string, UInt32>, mode: Mode)

  /** What a session gets: device bits translated, fused with the attestation's, with
      the fleet bit when the guard raised it. */
  function Fused(wire: Bits, attestation: Bits, fleet: bool): Bits {
    FromWireBits(wire) + attestation + if fleet then {BIT_FLEET_ANOMALY} else {}
  }

  /** More bits never make the decision less severe, for every policy. */
  lemma {:induction false} BitsMonotone(a: Bits, b: Bits, p: Policy, l: Level, m: Level)
    requires a <= b && IsLevel(Score(a, p.weights), p.thresholds, l) && IsLevel(Score(b, p.weights), p.thresholds, m)
    ensures Score(a, p.weights) <= Score(b, p.weights) && l <= m && Decision(l, p.mode) <= Decision(m, p.mode)
  {
    hide IsLevel, Sum;
    SumMonotone(a, b, p.weights, 64);
    LevelMonotone(Score(a, p.weights), Score(b, p.weights), p.thresholds, l, m);
    DecisionMonotone(l, m, p.mode);
  }

  /** From device report to decision: reporting more wire bits, deriving more attestation
      bits, or raising the fleet bit never makes the outcome less severe. */
  lemma {:induction false} PipelineMonotone(
    wire: Bits, wire': Bits, att: Bits, att': Bits, fleet: bool, fleet': bool, p: Policy, l: Level, m: Level)
    requires wire <= wire' && att <= att' && (fleet ==> fleet')
    requires IsLevel(Score(Fused(wire, att, fleet), p.weights), p.thresholds, l)
    requires IsLevel(Score(Fused(wire', att', fleet'), p.weights), p.thresholds, m)
    ensures Decision(l, p.mode) <= Decision(m, p.mode)
  {
    TranslationUnion(wire, wire');
    assert wire + wire' == wire';
    assert Fused(wire, att, fleet) <= Fused(wire', att', fleet');
    hide Fused, IsLevel, Score, Decision;
    BitsMonotone(Fused(wire, att, fleet), Fused(wire', att', fleet'), p, l, m);
  }
}
