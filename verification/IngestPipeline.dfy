/** The durable ingest pipeline as a protocol (server/data-plane/ingest/broker_kafka.go
    and writer.go): a consumer that hands decoded records to a Writer over a channel and
    remembers them in a FIFO, and a Writer that flushes batches to the store and then
    acknowledges by count. One step is one lock section, channel operation, store write
    or client call. The Kafka client is a log per partition, the offsets marked
    committable, and the offsets committed. */
module IngestPipeline {
  import opened Bytes
  import opened EventCodec

  datatype Record = Record(partition: nat, offset: nat)

  /** Where the Writer is: collecting a batch, retrying a flush, about to acknowledge a
      persisted batch, or marking the records it popped. */
  datatype Phase = Collecting | Flushing | Persisted | Marking(records: seq<Record>)

  /** `abandoned` counts the records at the front of `pending` whose flush was given up;
      no code reads it. */
  datatype State = State(
    logs: map<nat, seq<Str>>, committed: map<nat, nat>, store: seq<StoredEvent>,
    marked: map<nat, nat>, pos: map<nat, nat>, pending: seq<Record>, hand: Option<StoredEvent>, stopped: bool,
    channel: seq<StoredEvent>, batch: seq<StoredEvent>, phase: Phase, abandoned: nat)

  datatype Limits = Limits(channelCap: nat, batchSize: nat)

  datatype Label =
    | Produce(partition: nat, value: Str)
    | Poll(partition: nat)
    | Send
    | StopConsumer
    | Receive
    | Flush
    | WriteFails(landed: seq<StoredEvent>)
    | WriteSucceeds
    | Abandon
    | AckPop
    | AckMark
    | Commit(partition: nat)
    | Crash

  function At(m: map<nat, nat>, p: nat): nat {
    if p in m then m[p] else 0
  }

  function Log(s: State, p: nat): seq<Str> {
    if p in s.logs then s.logs[p] else []
  }

  function Decoded(v: Str): Option<StoredEvent> {
    match Decode(v)
    case Ok(e) => Some(e)
    case Err(_) => None
  }

  predicate Exists(s: State, r: Record) {
    r.offset < |Log(s, r.partition)|
  }

  /** The event of a record, or None for a record that does not decode. */
  function EventOfRecord(s: State, r: Record): Option<StoredEvent>
    requires Exists(s, r)
  {
    Decoded(Log(s, r.partition)[r.offset])
  }

  function Initial(): State {
    State(map[], map[], [], map[], map[], [], None, false, [], [], Collecting, 0)
  }

  /** MarkCommitRecords: a partition's mark only moves forward. */
  function Mark(m: map<nat, nat>, r: Record): map<nat, nat> {
    m[r.partition := if At(m, r.partition) > r.offset + 1 then At(m, r.partition) else r.offset + 1]
  }

  function MarkAll(m: map<nat, nat>, rs: seq<Record>): map<nat, nat>
    decreases rs
  {
    if rs == [] then m else MarkAll(Mark(m, rs[0]), rs[1..])
  }

  /** How many records Ack(len(batch)) pops. */
  function PopCount(s: State): (n: nat)
    ensures n <= |s.pending|
  {
    if |s.batch| <= |s.pending| then |s.batch| else |s.pending|
  }

  function Hand(s: State): seq<StoredEvent> {
    if s.hand.Some? then [s.hand.value] else []
  }

  /** The step a label names, when it is enabled. */
  function Step(lim: Limits, s: State, l: Label): Option<State> {
    match l
    case Produce(p, v) => Some(s.(logs := s.logs[p := Log(s, p) + [v]]))
    case Poll(p) =>
      var r := Record(p, At(s.pos, p));
      if s.stopped || s.hand.Some? || !Exists(s, r) then None
      else
        (match EventOfRecord(s, r)
         case Some(e) =>
           Some(s.(pos := s.pos[p := r.offset + 1], pending := s.pending + [r], hand := Some(e)))
         case None =>
           Some(s.(pos := s.pos[p := r.offset + 1], marked := Mark(s.marked, r))))
    case Send =>
      if !s.stopped && s.hand.Some? && |s.channel| < lim.channelCap
      then Some(s.(channel := s.channel + [s.hand.value], hand := None)) else None
    case StopConsumer => Some(s.(stopped := true))
    case Receive =>
      if !s.phase.Collecting? || s.channel == [] then None
      else
        var batch := s.batch + [s.channel[0]];
        Some(s.(channel := s.channel[1..], batch := batch,
                phase := if |batch| >= lim.batchSize then Flushing else Collecting))
    case Flush => if s.phase.Collecting? && s.batch != [] then Some(s.(phase := Flushing)) else None
    case WriteFails(landed) =>
      // A write that times out may still have reached the store in part.
      if s.phase.Flushing? && forall e :: e in landed ==> e in s.batch
      then Some(s.(store := s.store + landed)) else None
    case WriteSucceeds =>
      if s.phase.Flushing? then Some(s.(store := s.store + s.batch, phase := Persisted)) else None
    case Abandon =>
      if s.phase.Flushing? then Some(s.(batch := [], abandoned := s.abandoned + |s.batch|, phase := Collecting))
      else None
    case AckPop =>
      if !s.phase.Persisted? then None
      else
        var n := PopCount(s);
        Some(s.(pending := s.pending[n..], batch := [], phase := Marking(s.pending[..n])))
    case AckMark =>
      if s.phase.Marking? then Some(s.(marked := MarkAll(s.marked, s.phase.records), phase := Collecting)) else None
    case Commit(p) => Some(s.(committed := s.committed[p := At(s.marked, p)]))
    case Crash =>
      Some(State(s.logs, s.committed, s.store, s.committed, s.committed, [], None, false, [], [], Collecting, 0))
  }

  // ---- What the pipeline promises ----

  /** The record needs no redelivery: it does not decode, or its event is in the store. */
  ghost predicate Done(s: State, r: Record)
    requires Exists(s, r)
  {
    var e := EventOfRecord(s, r);
    e.None? || e.value in s.store
  }

  ghost predicate DoneBelow(s: State, p: nat, n: nat) {
    n <= |Log(s, p)| && forall o :: 0 <= o < n ==> Done(s, Record(p, o))
  }

  /** Everything marked committable, committed, or about to be marked is done. */
  ghost predicate Durable(s: State) {
    && (forall p :: DoneBelow(s, p, At(s.marked, p)) && DoneBelow(s, p, At(s.committed, p)))
    && (s.phase.Marking? ==>
        forall k :: 0 <= k < |s.phase.records| ==>
          DoneBelow(s, s.phase.records[k].partition, s.phase.records[k].offset + 1))
  }

  // ---- The invariant ----

  /** `pending` holds, in hand-off order, the abandoned records and then the records
      behind the batch, the channel and the event in hand. */
  ghost predicate Fifo(s: State) {
    && |s.pending| == s.abandoned + |s.batch + s.channel + Hand(s)|
    && (forall k :: 0 <= k < |s.pending| ==>
        Exists(s, s.pending[k]) && EventOfRecord(s, s.pending[k]).Some? &&
          s.pending[k].offset < At(s.pos, s.pending[k].partition))
    && (forall k :: 0 <= k < |s.batch + s.channel + Hand(s)| ==>
        EventOfRecord(s, s.pending[s.abandoned + k]) == Some((s.batch + s.channel + Hand(s))[k]))
  }

  /** Records of one partition wait in offset order. */
  ghost predicate InOrder(pending: seq<Record>) {
    forall i, j :: 0 <= i < j < |pending| && pending[i].partition == pending[j].partition ==>
      pending[i].offset < pending[j].offset
  }

  /** Every record read so far is done or still pending. */
  ghost predicate Covered(s: State) {
    forall p :: At(s.pos, p) <= |Log(s, p)|
      && forall o :: 0 <= o < At(s.pos, p) ==> Done(s, Record(p, o)) || Record(p, o) in s.pending
  }

  ghost predicate Inv(s: State) {
    && Fifo(s) && InOrder(s.pending) && Covered(s) && Durable(s)
    && (s.phase.Persisted? ==> forall k :: 0 <= k < |s.batch| ==> s.batch[k] in s.store)
    && (s.phase.Marking? ==> s.batch == [])
  }

  /** The two steps that need care. A record that does not decode is marked at once, so
      no earlier record of its partition may still wait for the store; and an
      acknowledgement pops from the front of `pending`, so the abandoned records it
      would pop must already be in the store. */
  ghost predicate Careful(s: State, l: Label) {
    match l
    case Poll(p) =>
      var r := Record(p, At(s.pos, p));
      Exists(s, r) && EventOfRecord(s, r).None? ==>
        forall k :: 0 <= k < |s.pending| && s.pending[k].partition == p ==>
          Exists(s, s.pending[k]) && Done(s, s.pending[k])
    case AckPop =>
      forall k :: 0 <= k < PopCount(s) && k < s.abandoned ==> Exists(s, s.pending[k]) && Done(s, s.pending[k])
    case _ => true
  }

  // ---- Frames ----

  /** Logs and the store only grow. */
  ghost predicate Extends(s: State, t: State) {
    && (forall p :: Log(s, p) <= Log(t, p))
    && (forall e :: e in s.store ==> e in t.store)
  }

  lemma {:induction false} RecordStays(s: State, t: State, r: Record)
    requires Extends(s, t) && Exists(s, r)
    ensures Exists(t, r) && EventOfRecord(t, r) == EventOfRecord(s, r)
    ensures Done(s, r) ==> Done(t, r)
  {
    hide Decoded;
    assert Log(s, r.partition) <= Log(t, r.partition);
  }

  lemma {:induction false} DoneBelowStays(s: State, t: State, p: nat, n: nat)
    requires Extends(s, t) && DoneBelow(s, p, n)
    ensures DoneBelow(t, p, n)
  {
    hide Decoded, Done;
    assert Log(s, p) <= Log(t, p);
    forall o | 0 <= o < n ensures Done(t, Record(p, o)) {
      assert Done(s, Record(p, o));
      RecordStays(s, t, Record(p, o));
    }
  }

  lemma {:induction false} DurableStays(s: State, t: State)
    requires Durable(s) && Extends(s, t) && t.marked == s.marked && t.committed == s.committed
    requires t.phase.Marking? ==> t.phase == s.phase
    ensures Durable(t)
  {
    hide DoneBelow, Extends;
    forall p ensures DoneBelow(t, p, At(t.marked, p)) && DoneBelow(t, p, At(t.committed, p)) {
      DoneBelowStays(s, t, p, At(t.marked, p));
      DoneBelowStays(s, t, p, At(t.committed, p));
    }
    if t.phase.Marking? {
      forall k | 0 <= k < |t.phase.records|
        ensures DoneBelow(t, t.phase.records[k].partition, t.phase.records[k].offset + 1)
      {
        DoneBelowStays(s, t, t.phase.records[k].partition, t.phase.records[k].offset + 1);
      }
    }
  }

  lemma {:induction false} CoveredStays(s: State, t: State)
    requires Covered(s) && Extends(s, t) && t.pos == s.pos && t.pending == s.pending
    ensures Covered(t)
  {
    hide Done;
    forall p
      ensures At(t.pos, p) <= |Log(t, p)|
      ensures forall o :: 0 <= o < At(t.pos, p) ==> Done(t, Record(p, o)) || Record(p, o) in t.pending
    {
      assert At(s.pos, p) <= |Log(s, p)| && Log(s, p) <= Log(t, p);
      forall o | 0 <= o < At(t.pos, p) ensures Done(t, Record(p, o)) || Record(p, o) in t.pending {
        RecordStays(s, t, Record(p, o));
      }
    }
  }

  lemma {:induction false} FifoStays(s: State, t: State)
    requires Fifo(s) && Extends(s, t) && t.pos == s.pos && t.pending == s.pending && t.abandoned == s.abandoned
    requires t.batch + t.channel + Hand(t) == s.batch + s.channel + Hand(s)
    ensures Fifo(t)
  {
    hide Decoded, Extends;
    forall k | 0 <= k < |t.pending|
      ensures Exists(t, t.pending[k]) && EventOfRecord(t, t.pending[k]) == EventOfRecord(s, s.pending[k])
    {
      RecordStays(s, t, s.pending[k]);
    }
  }

  /** A step that moves events along, extends the logs or the store, and touches no offset. */
  lemma {:induction false} MoveKeepsInv(s: State, t: State)
    requires Inv(s) && Extends(s, t) && t.pos == s.pos && t.pending == s.pending && t.abandoned == s.abandoned
    requires t.marked == s.marked && t.committed == s.committed
    requires t.batch + t.channel + Hand(t) == s.batch + s.channel + Hand(s)
    requires t.phase.Marking? ==> t.phase == s.phase && t.batch == s.batch
    requires t.phase.Persisted? ==> forall k :: 0 <= k < |t.batch| ==> t.batch[k] in t.store
    ensures Inv(t)
  {
    hide Fifo, Covered, Durable, Extends;
    FifoStays(s, t);
    CoveredStays(s, t);
    DurableStays(s, t);
  }

  lemma {:induction false} SendKeepsInv(lim: Limits, s: State)
    requires Inv(s) && Step(lim, s, Send).Some?
    ensures Inv(Step(lim, s, Send).value)
  {
    hide Fifo, Covered, Durable;
    var t := Step(lim, s, Send).value;
    assert t.batch + t.channel + Hand(t) == s.batch + s.channel + Hand(s);
    MoveKeepsInv(s, t);
  }

  lemma {:induction false} ReceiveKeepsInv(lim: Limits, s: State)
    requires Inv(s) && Step(lim, s, Receive).Some?
    ensures Inv(Step(lim, s, Receive).value)
  {
    hide Fifo, Covered, Durable;
    var t := Step(lim, s, Receive).value;
    assert s.channel == [s.channel[0]] + s.channel[1..];
    assert t.batch + t.channel + Hand(t) == s.batch + s.channel + Hand(s);
    MoveKeepsInv(s, t);
  }

  lemma {:induction false} ProduceKeepsInv(lim: Limits, s: State, p: nat, v: Str)
    requires Inv(s)
    ensures Inv(Step(lim, s, Produce(p, v)).value)
  {
    hide Fifo, Covered, Durable;
    var t := Step(lim, s, Produce(p, v)).value;
    assert forall q :: Log(t, q) == if q == p then Log(s, p) + [v] else Log(s, q);
    MoveKeepsInv(s, t);
  }

  lemma {:induction false} WriteKeepsInv(lim: Limits, s: State, l: Label)
    requires Inv(s) && (l.WriteFails? || l.WriteSucceeds?) && Step(lim, s, l).Some?
    ensures Inv(Step(lim, s, l).value)
  {
    hide Fifo, Covered, Durable;
    MoveKeepsInv(s, Step(lim, s, l).value);
  }

  lemma {:induction false} AbandonKeepsInv(lim: Limits, s: State)
    requires Inv(s) && Step(lim, s, Abandon).Some?
    ensures Inv(Step(lim, s, Abandon).value)
  {
    hide Decoded, Done;
    var t := Step(lim, s, Abandon).value;
    var rest := t.channel + Hand(t);
    assert t.batch + t.channel + Hand(t) == rest;
    assert s.batch + s.channel + Hand(s) == s.batch + rest;
    forall k | 0 <= k < |rest| ensures EventOfRecord(t, t.pending[t.abandoned + k]) == Some(rest[k]) {
      assert (s.batch + rest)[|s.batch| + k] == rest[k];
      assert EventOfRecord(s, s.pending[s.abandoned + (|s.batch| + k)]) == Some((s.batch + rest)[|s.batch| + k]);
    }
    assert Fifo(t);
    CoveredStays(s, t);
    DurableStays(s, t);
  }

  lemma {:induction false} PosInLog(s: State, t: State, p: nat)
    requires Covered(s) && Exists(s, Record(p, At(s.pos, p))) && t.logs == s.logs
    requires t.pos == s.pos[p := At(s.pos, p) + 1]
    ensures forall q :: At(t.pos, q) <= |Log(t, q)|
  {
    forall q ensures At(t.pos, q) <= |Log(t, q)| {
      assert At(s.pos, q) <= |Log(s, q)| && Log(t, q) == Log(s, q);
    }
  }

  lemma {:induction false} PollCovers(s: State, t: State, p: nat)
    requires Covered(s) && Exists(s, Record(p, At(s.pos, p))) && Extends(s, t) && t.logs == s.logs
    requires t.pos == s.pos[p := At(s.pos, p) + 1] && (forall r :: r in s.pending ==> r in t.pending)
    requires Done(t, Record(p, At(s.pos, p))) || Record(p, At(s.pos, p)) in t.pending
    ensures Covered(t)
  {
    hide Decoded, Done;
    PosInLog(s, t, p);
    forall q, o | 0 <= o < At(t.pos, q) ensures Done(t, Record(q, o)) || Record(q, o) in t.pending {
      if !(q == p && o == At(s.pos, p)) {
        assert o < At(s.pos, q) <= |Log(s, q)|;
        RecordStays(s, t, Record(q, o));
      }
    }
  }

  lemma {:induction false} PollFifo(s: State, t: State, p: nat, e: StoredEvent)
    requires Fifo(s) && s.hand.None? && Exists(s, Record(p, At(s.pos, p)))
    requires EventOfRecord(s, Record(p, At(s.pos, p))) == Some(e)
    requires t == s.(pos := s.pos[p := At(s.pos, p) + 1], pending := s.pending + [Record(p, At(s.pos, p))],
      hand := Some(e))
    ensures Fifo(t)
  {
    hide Decoded;
    var was := s.batch + s.channel + Hand(s);
    assert t.batch + t.channel + Hand(t) == was + [e];
    forall k | 0 <= k <= |was| ensures EventOfRecord(t, t.pending[t.abandoned + k]) == Some((was + [e])[k]) {
      if k < |was| {
        assert EventOfRecord(s, s.pending[s.abandoned + k]) == Some(was[k]);
      }
    }
  }

  lemma {:induction false} PollKeepsInv(lim: Limits, s: State, p: nat, e: StoredEvent)
    requires Inv(s) && Step(lim, s, Poll(p)).Some? && EventOfRecord(s, Record(p, At(s.pos, p))) == Some(e)
    ensures Inv(Step(lim, s, Poll(p)).value)
  {
    hide Decoded, Done, Covered, Durable;
    var t := Step(lim, s, Poll(p)).value;
    assert t.pending[|s.pending|] == Record(p, At(s.pos, p));
    PollFifo(s, t, p, e);
    PollCovers(s, t, p);
    DurableStays(s, t);
  }

  /** Everything below the position of `p` is done unless a pending record of `p` is not. */
  lemma {:induction false} PendingDone(s: State, p: nat)
    requires Fifo(s) && Covered(s)
    ensures DoneBelow(s, p, At(s.pos, p)) <==>
      forall k :: 0 <= k < |s.pending| && s.pending[k].partition == p ==> Done(s, s.pending[k])
  {
    hide Decoded, Done;
    if DoneBelow(s, p, At(s.pos, p)) {
      forall k | 0 <= k < |s.pending| && s.pending[k].partition == p ensures Done(s, s.pending[k]) {
        assert s.pending[k] == Record(p, s.pending[k].offset);
      }
    }
  }

  lemma {:induction false} PoisonExact(lim: Limits, s: State, p: nat)
    requires Inv(s) && Step(lim, s, Poll(p)).Some? && EventOfRecord(s, Record(p, At(s.pos, p))).None?
    ensures Durable(Step(lim, s, Poll(p)).value) <==> Careful(s, Poll(p))
    ensures Careful(s, Poll(p)) ==> Inv(Step(lim, s, Poll(p)).value)
  {
    hide Decoded;
    var t := Step(lim, s, Poll(p)).value;
    var r := Record(p, At(s.pos, p));
    assert Extends(s, t);
    PendingDone(s, p);
    assert Careful(s, Poll(p)) <==> DoneBelow(s, p, r.offset);
    assert DoneBelow(t, p, r.offset + 1) <==> DoneBelow(s, p, r.offset) by {
      assert Done(t, r);
      if DoneBelow(s, p, r.offset) {
        DoneBelowStays(s, t, p, r.offset);
      } else {
        assert forall o :: 0 <= o < r.offset ==> (Done(t, Record(p, o)) <==> Done(s, Record(p, o)));
      }
    }
    if DoneBelow(s, p, r.offset) {
      PoisonDurable(s, t, p);
      PoisonShape(s, t, p);
    } else {
      assert !DoneBelow(t, p, At(t.marked, p));
    }
  }

  lemma {:induction false} PoisonDurable(s: State, t: State, p: nat)
    requires Inv(s) && DoneBelow(t, p, At(s.pos, p) + 1)
    requires t == s.(pos := s.pos[p := At(s.pos, p) + 1], marked := Mark(s.marked, Record(p, At(s.pos, p))))
    ensures Durable(t)
  {
    hide Decoded, Done, DoneBelow;
    var u := s.(pos := t.pos);
    DurableStays(s, u);
    forall q ensures DoneBelow(t, q, At(t.marked, q)) && DoneBelow(t, q, At(t.committed, q)) {
      DoneBelowStays(u, t, q, At(u.marked, q));
      DoneBelowStays(u, t, q, At(u.committed, q));
    }
    if t.phase.Marking? {
      forall k | 0 <= k < |t.phase.records|
        ensures DoneBelow(t, t.phase.records[k].partition, t.phase.records[k].offset + 1)
      {
        DoneBelowStays(u, t, t.phase.records[k].partition, t.phase.records[k].offset + 1);
      }
    }
  }

  lemma {:induction false} PoisonShape(s: State, t: State, p: nat)
    requires Fifo(s) && Covered(s) && Exists(s, Record(p, At(s.pos, p)))
    requires EventOfRecord(s, Record(p, At(s.pos, p))).None?
    requires t == s.(pos := s.pos[p := At(s.pos, p) + 1], marked := Mark(s.marked, Record(p, At(s.pos, p))))
    ensures Fifo(t) && Covered(t)
  {
    hide Decoded;
    PollCovers(s, t, p);
  }

  // ---- Acknowledgement ----

  lemma {:induction false} PoppedDone(s: State, k: nat)
    requires Inv(s) && s.phase.Persisted? && k < PopCount(s) && s.abandoned <= k
    ensures Done(s, s.pending[k])
  {
    hide Decoded;
    var all := s.batch + s.channel + Hand(s);
    assert EventOfRecord(s, s.pending[s.abandoned + (k - s.abandoned)]) == Some(all[k - s.abandoned]);
    assert all[k - s.abandoned] == s.batch[k - s.abandoned];
  }

  /** The records below a popped one are done when all the popped ones are. */
  lemma {:induction false} PopDurable(s: State, n: nat, k: nat)
    requires Fifo(s) && InOrder(s.pending) && Covered(s) && k < n <= |s.pending|
    requires forall j :: 0 <= j < n ==> Done(s, s.pending[j])
    ensures DoneBelow(s, s.pending[k].partition, s.pending[k].offset + 1)
  {
    hide Decoded, Done;
    var r := s.pending[k];
    forall o | 0 <= o < r.offset + 1 ensures Done(s, Record(r.partition, o)) {
      if Record(r.partition, o) in s.pending {
        var j :| 0 <= j < |s.pending| && s.pending[j] == Record(r.partition, o);
        assert j <= k;
      }
    }
  }

  lemma {:induction false} AckPopExact(lim: Limits, s: State)
    requires Inv(s) && Step(lim, s, AckPop).Some?
    ensures Durable(Step(lim, s, AckPop).value) <==> Careful(s, AckPop)
    ensures Careful(s, AckPop) ==> Inv(Step(lim, s, AckPop).value)
  {
    hide Decoded, Done, Durable, Fifo, Covered, InOrder;
    var t := Step(lim, s, AckPop).value;
    var n := PopCount(s);
    PendingExist(s);
    if Careful(s, AckPop) {
      forall k | 0 <= k < n ensures Done(s, s.pending[k]) {
        if k >= s.abandoned {
          PoppedDone(s, k);
        }
      }
      AckPopSafe(s, t, n);
      AckPopShape(s, t, n);
    } else {
      var k :| 0 <= k < n && k < s.abandoned && !Done(s, s.pending[k]);
      AckPopUnsafe(s, t, n, k);
    }
  }

  lemma {:induction false} PendingExist(s: State)
    requires Fifo(s)
    ensures forall k :: 0 <= k < |s.pending| ==> Exists(s, s.pending[k])
  {
    hide Decoded;
  }

  lemma {:induction false} AckPopUnsafe(s: State, t: State, n: nat, k: nat)
    requires k < n <= |s.pending| && Exists(s, s.pending[k]) && !Done(s, s.pending[k])
    requires t == s.(pending := s.pending[n..], batch := [], phase := Marking(s.pending[..n]))
    ensures !Durable(t)
  {
    hide Decoded, Done;
    var r := s.pending[k];
    AckPopDone(s, t, r);
    assert t.phase.records[k] == r && r == Record(r.partition, r.offset);
    assert !DoneBelow(t, r.partition, r.offset + 1);
  }

  lemma {:induction false} AckPopDone(s: State, t: State, r: Record)
    requires Exists(s, r) && t.logs == s.logs && t.store == s.store
    ensures Exists(t, r) && (Done(t, r) <==> Done(s, r))
  {
  }

  lemma {:induction false} AckPopSafe(s: State, t: State, n: nat)
    requires Inv(s) && n == PopCount(s)
    requires t == s.(pending := s.pending[n..], batch := [], phase := Marking(s.pending[..n]))
    requires forall j :: 0 <= j < n ==> Done(s, s.pending[j])
    ensures Durable(t)
  {
    hide Decoded, Done, DoneBelow;
    var u := s.(pending := s.pending[n..], batch := [], phase := Collecting);
    DurableStays(s, u);
    forall q ensures DoneBelow(t, q, At(t.marked, q)) && DoneBelow(t, q, At(t.committed, q)) {
      DoneBelowStays(u, t, q, At(u.marked, q));
      DoneBelowStays(u, t, q, At(u.committed, q));
    }
    forall k | 0 <= k < n ensures DoneBelow(t, s.pending[k].partition, s.pending[k].offset + 1) {
      PopDurable(s, n, k);
      DoneBelowStays(s, t, s.pending[k].partition, s.pending[k].offset + 1);
    }
  }

  lemma {:induction false} AckPopFifo(s: State, t: State, n: nat)
    requires Fifo(s) && n == PopCount(s)
    requires t == s.(pending := s.pending[n..], batch := [], phase := Marking(s.pending[..n]))
    ensures Fifo(t)
  {
    hide Decoded;
    var rest := s.channel + Hand(s);
    assert s.batch + s.channel + Hand(s) == s.batch + rest && t.batch + t.channel + Hand(t) == rest;
    assert n == |s.batch|;
    forall k | 0 <= k < |rest| ensures EventOfRecord(t, t.pending[t.abandoned + k]) == Some(rest[k]) {
      assert EventOfRecord(s, s.pending[s.abandoned + (n + k)]) == Some((s.batch + rest)[n + k]);
      assert t.pending[t.abandoned + k] == s.pending[s.abandoned + (n + k)];
    }
  }

  lemma {:induction false} AckPopShape(s: State, t: State, n: nat)
    requires Inv(s) && n == PopCount(s)
    requires t == s.(pending := s.pending[n..], batch := [], phase := Marking(s.pending[..n]))
    requires forall j :: 0 <= j < n ==> Exists(s, s.pending[j]) && Done(s, s.pending[j])
    ensures Fifo(t) && InOrder(t.pending) && Covered(t)
  {
    hide Decoded, Done, Fifo;
    AckPopFifo(s, t, n);
    assert forall k :: 0 <= k < |t.pending| ==> t.pending[k] == s.pending[n + k];
    forall q, o | 0 <= o < At(t.pos, q) ensures Done(t, Record(q, o)) || Record(q, o) in t.pending {
      var r := Record(q, o);
      AckPopDone(s, t, r);
      if !Done(s, r) {
        var k :| 0 <= k < |s.pending| && s.pending[k] == r;
        assert k >= n;
        assert t.pending[k - n] == r;
      }
    }
  }

  lemma {:induction false} MarkAllAt(m: map<nat, nat>, rs: seq<Record>, p: nat)
    ensures At(MarkAll(m, rs), p) == At(m, p)
      || exists k :: 0 <= k < |rs| && rs[k].partition == p && At(MarkAll(m, rs), p) == rs[k].offset + 1
    decreases rs
  {
    if rs == [] {
    } else {
      MarkAllAt(Mark(m, rs[0]), rs[1..], p);
      var v := At(MarkAll(m, rs), p);
      if v != At(Mark(m, rs[0]), p) {
        var k :| 0 <= k < |rs[1..]| && rs[1..][k].partition == p && v == rs[1..][k].offset + 1;
        assert rs[k + 1] == rs[1..][k];
      } else if v != At(m, p) {
        assert rs[0].partition == p && v == rs[0].offset + 1;
      }
    }
  }

  lemma {:induction false} AckMarkKeepsInv(lim: Limits, s: State)
    requires Inv(s) && Step(lim, s, AckMark).Some?
    ensures Inv(Step(lim, s, AckMark).value)
  {
    hide Decoded, Done, MarkAll, DoneBelow, Covered, Fifo;
    var t := Step(lim, s, AckMark).value;
    FifoStays(s, t);
    CoveredStays(s, t);
    forall q ensures DoneBelow(t, q, At(t.marked, q)) && DoneBelow(t, q, At(t.committed, q)) {
      MarkAllAt(s.marked, s.phase.records, q);
      assert DoneBelow(s, q, At(t.marked, q));
      DoneBelowStays(s, t, q, At(t.marked, q));
      DoneBelowStays(s, t, q, At(t.committed, q));
    }
  }

  lemma {:induction false} CommitKeepsInv(lim: Limits, s: State, p: nat)
    requires Inv(s)
    ensures Inv(Step(lim, s, Commit(p)).value)
  {
    hide Decoded, Done, DoneBelow, Covered, Fifo;
    var t := Step(lim, s, Commit(p)).value;
    FifoStays(s, t);
    CoveredStays(s, t);
    forall q ensures DoneBelow(t, q, At(t.marked, q)) && DoneBelow(t, q, At(t.committed, q)) {
      DoneBelowStays(s, t, q, At(s.marked, q));
      DoneBelowStays(s, t, q, At(s.committed, q));
    }
    if t.phase.Marking? {
      forall k | 0 <= k < |t.phase.records|
        ensures DoneBelow(t, t.phase.records[k].partition, t.phase.records[k].offset + 1)
      {
        DoneBelowStays(s, t, t.phase.records[k].partition, t.phase.records[k].offset + 1);
      }
    }
  }

  lemma {:induction false} CrashKeepsInv(lim: Limits, s: State)
    requires Inv(s)
    ensures Inv(Step(lim, s, Crash).value)
  {
    hide Decoded, Done;
    var t := Step(lim, s, Crash).value;
    forall q ensures DoneBelow(t, q, At(s.committed, q)) {
      DoneBelowStays(s, t, q, At(s.committed, q));
    }
  }

  // ---- Runs ----

  /** One step, exactly: from a good state, what is marked or committed stays covered by
      the store if and only if the step is careful, and a careful step leads to a good
      state. */
  lemma {:induction false} StepExact(lim: Limits, s: State, l: Label)
    requires Inv(s) && Step(lim, s, l).Some?
    ensures Durable(Step(lim, s, l).value) <==> Careful(s, l)
    ensures Careful(s, l) ==> Inv(Step(lim, s, l).value)
  {
    match l {
      case Produce(p, v) => ProduceKeepsInv(lim, s, p, v);
      case Poll(p) =>
        var e := EventOfRecord(s, Record(p, At(s.pos, p)));
        if e.Some? {
          PollKeepsInv(lim, s, p, e.value);
        } else {
          PoisonExact(lim, s, p);
        }
      case Send => SendKeepsInv(lim, s);
      case StopConsumer => MoveKeepsInv(s, s.(stopped := true));
      case Receive => ReceiveKeepsInv(lim, s);
      case Flush => MoveKeepsInv(s, s.(phase := Flushing));
      case WriteFails(_) => WriteKeepsInv(lim, s, l);
      case WriteSucceeds => WriteKeepsInv(lim, s, l);
      case Abandon => AbandonKeepsInv(lim, s);
      case AckPop => AckPopExact(lim, s);
      case AckMark => AckMarkKeepsInv(lim, s);
      case Commit(p) => CommitKeepsInv(lim, s, p);
      case Crash => CrashKeepsInv(lim, s);
    }
  }

  ghost predicate IsRun(lim: Limits, states: seq<State>, labels: seq<Label>) {
    && |states| == |labels| + 1 && states[0] == Initial()
    && forall i :: 0 <= i < |labels| ==> Step(lim, states[i], labels[i]) == Some(states[i + 1])
  }

  /** The labels one after the other, from `s`. */
  function Exec(lim: Limits, s: State, labels: seq<Label>): Option<State>
    decreases |labels|
  {
    if labels == [] then Some(s)
    else
      var last := |labels| - 1;
      match Exec(lim, s, labels[..last])
      case None => None
      case Some(t) => Step(lim, t, labels[last])
  }

  lemma {:induction false} ExecThen(lim: Limits, s: State, labels: seq<Label>, l: Label)
    requires Exec(lim, s, labels).Some?
    ensures Exec(lim, s, labels + [l]) == Step(lim, Exec(lim, s, labels).value, l)
  {
    hide Step;
    assert (labels + [l])[..|labels|] == labels;
  }

  ghost predicate CarefulRun(states: seq<State>, labels: seq<Label>)
    requires |states| == |labels| + 1
  {
    forall i :: 0 <= i < |labels| ==> Careful(states[i], labels[i])
  }

  lemma {:induction false} InitialInv()
    ensures Inv(Initial())
  {
  }

  ghost predicate DurableUntil(states: seq<State>, n: nat)
    requires n < |states|
  {
    forall k :: 0 <= k <= n ==> Durable(states[k])
  }

  ghost predicate CarefulUntil(states: seq<State>, labels: seq<Label>, n: nat)
    requires |states| == |labels| + 1 && n <= |labels|
  {
    forall k :: 0 <= k < n ==> Careful(states[k], labels[k])
  }

  /** A run keeps everything marked or committed covered by the store, in each of its
      states, if and only if each of its steps is careful. */
  lemma {:induction false} RunExact(lim: Limits, states: seq<State>, labels: seq<Label>, n: nat)
    requires IsRun(lim, states, labels) && n <= |labels|
    ensures DurableUntil(states, n) <==> CarefulUntil(states, labels, n)
    ensures CarefulUntil(states, labels, n) ==> Inv(states[n])
  {
    if n == 0 {
      InitialInv();
    } else {
      assert Inv(states[n - 1]) ==> Durable(states[n - 1]);
      hide Inv, Step, Careful, Durable;
      var s, l := states[n - 1], labels[n - 1];
      RunExact(lim, states, labels, n - 1);
      assert Step(lim, s, l) == Some(states[n]);
      if CarefulUntil(states, labels, n - 1) {
        StepExact(lim, s, l);
      }
    }
  }

  lemma {:induction false} RunInv(lim: Limits, states: seq<State>, labels: seq<Label>, n: nat)
    requires IsRun(lim, states, labels) && CarefulRun(states, labels) && n <= |labels|
    ensures Inv(states[n])
  {
    hide Inv, Careful, IsRun;
    RunExact(lim, states, labels, n);
  }

  /** At least once through the store: on every interleaving of careful steps, crashes
      and failed writes included, every record below a partition's committed position
      that decodes has its event in the store. */
  lemma {:induction false} AtLeastOnce(lim: Limits, states: seq<State>, labels: seq<Label>, n: nat, r: Record)
    requires IsRun(lim, states, labels) && CarefulRun(states, labels) && n <= |labels|
    requires r.offset < At(states[n].committed, r.partition)
    ensures Exists(states[n], r)
    ensures var e := EventOfRecord(states[n], r); e.Some? ==> e.value in states[n].store
  {
    hide Decoded;
    RunInv(lim, states, labels, n);
    assert DoneBelow(states[n], r.partition, At(states[n].committed, r.partition));
    assert Done(states[n], Record(r.partition, r.offset));
  }

  /** The pop takes exactly the records of the persisted batch when nothing was abandoned. */
  lemma {:induction false} AckPopsTheBatch(lim: Limits, states: seq<State>, labels: seq<Label>, n: nat, k: nat)
    requires IsRun(lim, states, labels) && CarefulRun(states, labels) && n <= |labels|
    requires states[n].phase.Persisted? && states[n].abandoned == 0 && k < |states[n].batch|
    ensures PopCount(states[n]) == |states[n].batch| && Exists(states[n], states[n].pending[k])
    ensures EventOfRecord(states[n], states[n].pending[k]) == Some(states[n].batch[k])
  {
    hide Decoded;
    var s := states[n];
    RunInv(lim, states, labels, n);
    var all := s.batch + s.channel + Hand(s);
    assert EventOfRecord(s, s.pending[s.abandoned + k]) == Some(all[k]);
    assert all[k] == s.batch[k];
  }

  /** A drained pipeline has stored everything that was ever produced. */
  lemma {:induction false} DrainedIsComplete(lim: Limits, states: seq<State>, labels: seq<Label>, n: nat, r: Record)
    requires IsRun(lim, states, labels) && CarefulRun(states, labels) && n <= |labels|
    requires states[n].pending == [] && At(states[n].pos, r.partition) == |Log(states[n], r.partition)|
    requires Exists(states[n], r)
    ensures Done(states[n], r)
  {
    hide Decoded, Done;
    RunInv(lim, states, labels, n);
    assert r == Record(r.partition, r.offset);
  }

  // ---- Events published by this server ----

  /** Every value ever logged decodes: there is no poison record. */
  ghost predicate NoPoison(labels: seq<Label>) {
    forall i :: 0 <= i < |labels| && labels[i].Produce? ==> Decoded(labels[i].value).Some?
  }

  /** Every value ever logged was written by Publish from an event the decoder accepts. */
  ghost predicate Published(labels: seq<Label>) {
    forall i :: 0 <= i < |labels| && labels[i].Produce? ==>
      exists e: StoredEvent :: StringsFit(e) && labels[i].value == Encode(e)
  }

  ghost predicate NothingAbandoned(labels: seq<Label>) {
    forall i :: 0 <= i < |labels| ==> !labels[i].Abandon?
  }

  /** Only Produce writes a log, and only at its end. */
  lemma {:induction false} StepLog(lim: Limits, s: State, l: Label, p: nat)
    requires Step(lim, s, l).Some?
    ensures Log(Step(lim, s, l).value, p) == if l.Produce? && l.partition == p then Log(s, p) + [l.value] else Log(s, p)
  {
    hide Decoded, MarkAll;
  }

  lemma {:induction false} EncodedDecodes(e: StoredEvent)
    requires StringsFit(e)
    ensures Decoded(Encode(e)) == Some(e)
  {
    hide Decode, Encode, StringsFit;
    RoundTrip(e);
  }

  lemma {:induction false} LoggedDecodes(lim: Limits, states: seq<State>, labels: seq<Label>, n: nat, p: nat, o: nat)
    requires IsRun(lim, states, labels) && NoPoison(labels) && n <= |labels| && o < |Log(states[n], p)|
    ensures Decoded(Log(states[n], p)[o]).Some?
  {
    hide Decoded, Step;
    assert n > 0;
    var s, l := states[n - 1], labels[n - 1];
    assert Step(lim, s, l) == Some(states[n]);
    StepLog(lim, s, l, p);
    if o < |Log(s, p)| {
      LoggedDecodes(lim, states, labels, n - 1, p, o);
    }
  }

  lemma {:induction false} NoAbandonNoCount(lim: Limits, states: seq<State>, labels: seq<Label>, n: nat)
    requires IsRun(lim, states, labels) && NothingAbandoned(labels) && n <= |labels|
    ensures states[n].abandoned == 0
  {
    if n == 0 {
    } else {
      NoAbandonNoCount(lim, states, labels, n - 1);
      assert Step(lim, states[n - 1], labels[n - 1]) == Some(states[n]);
    }
  }

  /** A run with no poison record and no abandoned flush takes only careful steps. */
  lemma {:induction false} CarefulWithoutPoison(lim: Limits, states: seq<State>, labels: seq<Label>)
    requires IsRun(lim, states, labels) && NoPoison(labels) && NothingAbandoned(labels)
    ensures CarefulRun(states, labels)
  {
    forall i | 0 <= i < |labels| ensures Careful(states[i], labels[i]) {
      hide Decoded, NoPoison, NothingAbandoned, IsRun;
      NoAbandonNoCount(lim, states, labels, i);
      var s, l := states[i], labels[i];
      if l.Poll? && Exists(s, Record(l.partition, At(s.pos, l.partition))) {
        LoggedDecodes(lim, states, labels, i, l.partition, At(s.pos, l.partition));
      }
    }
  }

  /** Events published by this server, with strings the decoder accepts, are never
      poison. */
  lemma {:induction false} PublishedIsNoPoison(labels: seq<Label>)
    requires Published(labels)
    ensures NoPoison(labels)
  {
    hide Decoded, Encode, StringsFit;
    forall i | 0 <= i < |labels| && labels[i].Produce? ensures Decoded(labels[i].value).Some? {
      var e: StoredEvent :| StringsFit(e) && labels[i].value == Encode(e);
      EncodedDecodes(e);
    }
  }

  // ---- The two ways to lose an event ----

  /** A state of a pipeline with one partition, seen from outside its maps. */
  ghost predicate Looks(s: State, log: seq<Str>, pos: nat, marked: nat, committed: nat, store: seq<StoredEvent>,
                        pending: seq<Record>, hand: Option<StoredEvent>, channel: seq<StoredEvent>,
                        batch: seq<StoredEvent>, phase: Phase) {
    && Log(s, 0) == log && At(s.pos, 0) == pos && At(s.marked, 0) == marked && At(s.committed, 0) == committed
    && s.store == store && s.pending == pending && s.hand == hand && !s.stopped
    && s.channel == channel && s.batch == batch && s.phase == phase
  }

  lemma {:induction false} Then(lim: Limits, states: seq<State>, labels: seq<Label>, l: Label)
    returns (states': seq<State>, labels': seq<Label>)
    requires IsRun(lim, states, labels) && Step(lim, states[|labels|], l).Some?
    ensures |states'| == |labels'| + 1 && IsRun(lim, states', labels')
    ensures states'[|labels'|] == Step(lim, states[|labels|], l).value
    ensures NothingAbandoned(labels) && !l.Abandon? ==> NothingAbandoned(labels')
    ensures Published(labels) && (l.Produce? ==> exists e: StoredEvent :: StringsFit(e) && l.value == Encode(e)) ==>
      Published(labels')
  {
    hide Step, StringsFit, Encode;
    states', labels' := states + [Step(lim, states[|labels|], l).value], labels + [l];
  }

  lemma {:induction false} TwoProduced(lim: Limits, v: Str, w: Str) returns (states: seq<State>, labels: seq<Label>)
    ensures |states| == |labels| + 1 && IsRun(lim, states, labels) && NothingAbandoned(labels)
    ensures (exists e: StoredEvent :: StringsFit(e) && v == Encode(e)) ==>
      (exists e: StoredEvent :: StringsFit(e) && w == Encode(e)) ==> Published(labels)
    ensures Looks(states[|labels|], [v, w], 0, 0, 0, [], [], None, [], [], Collecting)
  {
    hide Decoded, Encode, StringsFit;
    states, labels := [Initial(), Initial().(logs := map[0 := [v]]), Initial().(logs := map[0 := [v, w]])],
      [Produce(0, v), Produce(0, w)];
    assert Log(states[0], 0) + [v] == [v] && Log(states[1], 0) + [w] == [v, w];
    assert map[][0 := [v]] == map[0 := [v]] && map[0 := [v]][0 := [v, w]] == map[0 := [v, w]];
  }

  /** The consumer polls the record of `e` and hands it over. */
  lemma {:induction false} Delivered(
    lim: Limits, states0: seq<State>, labels0: seq<Label>, log: seq<Str>, pos: nat, pending: seq<Record>,
    e: StoredEvent)
    returns (states: seq<State>, labels: seq<Label>)
    requires IsRun(lim, states0, labels0) && lim.channelCap > 0 && pos < |log| && Decoded(log[pos]) == Some(e)
    requires Looks(states0[|labels0|], log, pos, 0, 0, [], pending, None, [], [], Collecting)
    ensures |states| == |labels| + 1 && IsRun(lim, states, labels)
    ensures (NothingAbandoned(labels0) ==> NothingAbandoned(labels)) && (Published(labels0) ==> Published(labels))
    ensures Looks(states[|labels|], log, pos + 1, 0, 0, [], pending + [Record(0, pos)], None, [e], [], Collecting)
  {
    hide Decoded, IsRun, Published, NothingAbandoned;
    states, labels := Then(lim, states0, labels0, Poll(0));
    assert Looks(states[|labels|], log, pos + 1, 0, 0, [], pending + [Record(0, pos)], Some(e), [], [], Collecting);
    states, labels := Then(lim, states, labels, Send);
  }

  /** The Writer takes the event and, with a batch size of one, starts a flush. */
  lemma {:induction false} Batched(
    lim: Limits, states0: seq<State>, labels0: seq<Label>, log: seq<Str>, pos: nat, pending: seq<Record>,
    e: StoredEvent)
    returns (states: seq<State>, labels: seq<Label>)
    requires IsRun(lim, states0, labels0) && Published(labels0) && lim.batchSize <= 1
    requires Looks(states0[|labels0|], log, pos, 0, 0, [], pending, None, [e], [], Collecting)
    ensures |states| == |labels| + 1 && IsRun(lim, states, labels) && Published(labels)
    ensures Looks(states[|labels|], log, pos, 0, 0, [], pending, None, [], [e], Flushing)
  {
    hide Decoded, IsRun, Published, NothingAbandoned;
    states, labels := Then(lim, states0, labels0, Receive);
  }

  /** An undecodable record behind a good one: the mark it leaves covers the good
      record, which a crash after the next commit then loses for good. */
  lemma {:induction false} PoisonLoses(lim: Limits, e: StoredEvent) returns (states: seq<State>, labels: seq<Label>)
    requires StringsFit(e) && lim.channelCap > 0
    ensures |states| == |labels| + 1 && IsRun(lim, states, labels) && NothingAbandoned(labels)
    ensures Looks(states[|labels|], [Encode(e), []], 2, 2, 2, [], [], None, [], [], Collecting)
  {
    EncodedDecodes(e);
    EmptyIsPoison();
    hide Decoded, Encode, StringsFit, IsRun, Published, NothingAbandoned, Looks;
    states, labels := TwoProduced(lim, Encode(e), []);
    states, labels := Delivered(lim, states, labels, [Encode(e), []], 0, [], e);
    states, labels := PoisonedAndCrashed(lim, states, labels, [Encode(e), []], e);
  }

  lemma {:induction false} EmptyIsPoison()
    ensures Decoded([]).None?
  {
  }

  lemma {:induction false} PoisonedAndCrashed(
    lim: Limits, states0: seq<State>, labels0: seq<Label>, log: seq<Str>, e: StoredEvent)
    returns (states: seq<State>, labels: seq<Label>)
    requires IsRun(lim, states0, labels0) && NothingAbandoned(labels0) && |log| == 2 && Decoded(log[1]).None?
    requires Looks(states0[|labels0|], log, 1, 0, 0, [], [] + [Record(0, 0)], None, [e], [], Collecting)
    ensures |states| == |labels| + 1 && IsRun(lim, states, labels) && NothingAbandoned(labels)
    ensures Looks(states[|labels|], log, 2, 2, 2, [], [], None, [], [], Collecting)
  {
    hide Decoded, IsRun, Published, NothingAbandoned;
    states, labels := Then(lim, states0, labels0, Poll(0));
    assert Looks(states[|labels|], log, 2, 2, 0, [], [Record(0, 0)], None, [e], [], Collecting);
    states, labels := Then(lim, states, labels, Commit(0));
    states, labels := Then(lim, states, labels, Crash);
  }

  /** An abandoned batch: the acknowledgement of the next batch releases the abandoned
      record instead of its own, although every record is well formed. */
  lemma {:induction false} AbandonLoses(
    lim: Limits, a: StoredEvent, b: StoredEvent)
    returns (states: seq<State>, labels: seq<Label>)
    requires StringsFit(a) && StringsFit(b) && lim.channelCap > 0 && lim.batchSize <= 1
    ensures |states| == |labels| + 1 && IsRun(lim, states, labels) && Published(labels)
    ensures Looks(states[|labels|], [Encode(a), Encode(b)], 1, 1, 1, [b], [], None, [], [], Collecting)
  {
    EncodedDecodes(b);
    hide Decoded, Encode, StringsFit, IsRun, Published, NothingAbandoned, Looks;
    var log, first := [Encode(a), Encode(b)], [Record(0, 0)];
    assert first + [Record(0, 1)] == [Record(0, 0), Record(0, 1)];
    states, labels := FirstAbandoned(lim, a, b);
    states, labels := Delivered(lim, states, labels, log, 1, first, b);
    states, labels := Batched(lim, states, labels, log, 2, first + [Record(0, 1)], b);
    states, labels := AckedAndCrashed(lim, states, labels, log, b);
  }

  /** The first of two records is taken, and its flush given up. */
  lemma {:induction false} FirstAbandoned(lim: Limits, a: StoredEvent, b: StoredEvent)
    returns (states: seq<State>, labels: seq<Label>)
    requires StringsFit(a) && StringsFit(b) && lim.channelCap > 0 && lim.batchSize <= 1
    ensures |states| == |labels| + 1 && IsRun(lim, states, labels) && Published(labels)
    ensures Looks(states[|labels|], [Encode(a), Encode(b)], 1, 0, 0, [], [Record(0, 0)], None, [], [], Collecting)
  {
    EncodedDecodes(a);
    hide Decoded, Encode, StringsFit, IsRun, Published, NothingAbandoned, Looks;
    var log, first := [Encode(a), Encode(b)], [Record(0, 0)];
    assert [] + first == first;
    states, labels := TwoProduced(lim, Encode(a), Encode(b));
    states, labels := Delivered(lim, states, labels, log, 0, [], a);
    states, labels := Batched(lim, states, labels, log, 1, first, a);
    states, labels := Abandoned(lim, states, labels, log, first, a);
  }

  lemma {:induction false} Abandoned(
    lim: Limits, states0: seq<State>, labels0: seq<Label>, log: seq<Str>, pending: seq<Record>, e: StoredEvent)
    returns (states: seq<State>, labels: seq<Label>)
    requires IsRun(lim, states0, labels0) && Published(labels0)
    requires Looks(states0[|labels0|], log, 1, 0, 0, [], pending, None, [], [e], Flushing)
    ensures |states| == |labels| + 1 && IsRun(lim, states, labels) && Published(labels)
    ensures Looks(states[|labels|], log, 1, 0, 0, [], pending, None, [], [], Collecting)
  {
    hide Decoded, IsRun, Published, NothingAbandoned;
    states, labels := Then(lim, states0, labels0, WriteFails([]));
    states, labels := Then(lim, states, labels, Abandon);
  }

  lemma {:induction false} AckedAndCrashed(
    lim: Limits, states0: seq<State>, labels0: seq<Label>, log: seq<Str>, b: StoredEvent)
    returns (states: seq<State>, labels: seq<Label>)
    requires IsRun(lim, states0, labels0) && Published(labels0)
    requires Looks(states0[|labels0|], log, 2, 0, 0, [], [Record(0, 0), Record(0, 1)], None, [], [b], Flushing)
    ensures |states| == |labels| + 1 && IsRun(lim, states, labels) && Published(labels)
    ensures Looks(states[|labels|], log, 1, 1, 1, [b], [], None, [], [], Collecting)
  {
    hide Decoded, IsRun, Published;
    states, labels := Then(lim, states0, labels0, WriteSucceeds);
    states, labels := Then(lim, states, labels, AckPop);
    assert Looks(states[|labels|], log, 2, 0, 0, [b], [Record(0, 1)], None, [], [], Marking([Record(0, 0)]));
    states, labels := Then(lim, states, labels, AckMark);
    assert Looks(states[|labels|], log, 2, 1, 0, [b], [Record(0, 1)], None, [], [], Collecting);
    states, labels := Then(lim, states, labels, Commit(0));
    states, labels := Then(lim, states, labels, Crash);
  }
}
