/** The cached read path of Snapshot (server/data-plane/fleet/engine.go) as a protocol:
    any number of readers race through a lock-free check, a mutex, a second check and a
    scan, while the clock runs. One step is one clock reading, one atomic load or
    store, or one lock operation. */
module SnapshotCache {
  import opened Bytes

  datatype Mutex = Free | Held(owner: nat) | Scanning(owner: nat, at: int)

  datatype Reader = Idle | Read(now: int) | Waiting

  /** `scans` are the clock readings of the full scans so far and `served` the pairs of a
      reader's clock reading and the scan it was answered from. */
  datatype State = State(
    clock: int, cache: Option<int>, mutex: Mutex, readers: map<nat, Reader>,
    scans: seq<int>, served: seq<(int, int)>)

  datatype Label =
    | Tick(to: int)
    | Start(reader: nat)
    | Load(reader: nat)
    | Lock(reader: nat)
    | Recheck
    | Publish

  function Initial(clock: int): State {
    State(clock, None, Free, map[], [], [])
  }

  function ReaderOf(s: State, r: nat): Reader {
    if r in s.readers then s.readers[r] else Idle
  }

  /** snapshotFresh */
  predicate Fresh(cache: Option<int>, now: int, ttl: int) {
    cache.Some? && now >= cache.value && now - cache.value < ttl
  }

  /** The step a label names, when it is enabled. */
  function Step(s: State, l: Label, ttl: int): Option<State> {
    match l
    case Tick(to) => if to >= s.clock then Some(s.(clock := to)) else None
    case Start(r) =>
      if ReaderOf(s, r).Idle? then Some(s.(readers := s.readers[r := Read(s.clock)])) else None
    case Load(r) =>
      (match ReaderOf(s, r)
       case Read(now) =>
         if Fresh(s.cache, now, ttl)
         then Some(s.(readers := s.readers[r := Idle], served := s.served + [(now, s.cache.value)]))
         else Some(s.(readers := s.readers[r := Waiting]))
       case _ => None)
    case Lock(r) =>
      if ReaderOf(s, r).Waiting? && s.mutex.Free?
      then Some(s.(mutex := Held(r), readers := s.readers[r := Idle])) else None
    case Recheck =>
      if !s.mutex.Held? then None
      else if Fresh(s.cache, s.clock, ttl)
      then Some(s.(mutex := Free, served := s.served + [(s.clock, s.cache.value)]))
      else Some(s.(mutex := Scanning(s.mutex.owner, s.clock), scans := s.scans + [s.clock]))
    case Publish =>
      if s.mutex.Scanning?
      then Some(s.(mutex := Free, cache := Some(s.mutex.at), served := s.served + [(s.mutex.at, s.mutex.at)]))
      else None
  }

  predicate IsRun(states: seq<State>, labels: seq<Label>, ttl: int) {
    && |states| == |labels| + 1
    && states[0] == Initial(states[0].clock)
    && forall i :: 0 <= i < |labels| ==> Step(states[i], labels[i], ttl) == Some(states[i + 1])
  }

  ghost predicate Spaced(scans: seq<int>, ttl: int) {
    forall i :: 0 <= i < |scans| - 1 ==> scans[i + 1] - scans[i] >= ttl
  }

  ghost predicate Inv(s: State, ttl: int) {
    && Spaced(s.scans, ttl)
    && (forall i :: 0 <= i < |s.served| ==> 0 <= s.served[i].0 - s.served[i].1 < ttl)
    && (s.scans != [] ==> s.scans[|s.scans| - 1] <= s.clock)
    && (match s.mutex
        case Scanning(_, at) => s.scans != [] && s.scans[|s.scans| - 1] == at
        case _ =>
          if s.scans == [] then s.cache.None? else s.cache == Some(s.scans[|s.scans| - 1]))
  }

  lemma {:induction false} StepKeepsInv(s: State, l: Label, ttl: int)
    requires ttl > 0 && Inv(s, ttl) && Step(s, l, ttl).Some?
    ensures Inv(Step(s, l, ttl).value, ttl)
  {
  }

  lemma {:induction false} RunKeepsInv(states: seq<State>, labels: seq<Label>, ttl: int, n: nat)
    requires ttl > 0 && IsRun(states, labels, ttl) && n < |states|
    ensures Inv(states[n], ttl)
  {
    if n > 0 {
      hide Inv, Step;
      RunKeepsInv(states, labels, ttl, n - 1);
      assert Step(states[n - 1], labels[n - 1], ttl) == Some(states[n]);
      StepKeepsInv(states[n - 1], labels[n - 1], ttl);
    } else {
      assert Inv(states[0], ttl);
    }
  }

  /** In every state of every run, no reader was answered from a scan `ttl` old, and
      successive scans are at least `ttl` apart, however many readers race. */
  lemma {:induction false} FreshAndSingleFlight(states: seq<State>, labels: seq<Label>, ttl: int, n: nat)
    requires ttl > 0 && IsRun(states, labels, ttl) && n < |states|
    ensures forall i :: 0 <= i < |states[n].served| ==> 0 <= states[n].served[i].0 - states[n].served[i].1 < ttl
    ensures forall i, j :: 0 <= i < j < |states[n].scans| ==> states[n].scans[j] - states[n].scans[i] >= (j - i) * ttl
  {
    RunKeepsInv(states, labels, ttl, n);
    forall i, j | 0 <= i < j < |states[n].scans|
      ensures states[n].scans[j] - states[n].scans[i] >= (j - i) * ttl
    {
      SpacedApart(states[n].scans, ttl, i, j);
    }
  }

  lemma {:induction false} SpacedApart(scans: seq<int>, ttl: int, i: nat, j: nat)
    requires Spaced(scans, ttl) && i < j < |scans|
    ensures scans[j] - scans[i] >= (j - i) * ttl
    decreases j
  {
    if j == i + 1 {
      assert scans[i + 1] - scans[i] >= ttl;
    } else {
      SpacedApart(scans, ttl, i, j - 1);
      assert scans[(j - 1) + 1] - scans[j - 1] >= ttl;
      assert (j - i) * ttl == (j - 1 - i) * ttl + ttl;
    }
  }
}
