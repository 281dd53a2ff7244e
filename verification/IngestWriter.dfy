/** The consumer's bookkeeping and the batching Writer as they run
    (server/data-plane/ingest/broker_kafka.go and writer.go). Methods are proved against
    steps of the pipeline protocol: a ghost protocol state that agrees with the fields
    before a call is taken, by the steps the call performs, to one that agrees with them
    after it. */
module IngestWriter {
  import opened Bytes
  import opened EventCodec
  import EventWire
  import opened IngestPipeline

  // ---- The consumer half of the broker ----

  /** Records handed off and not yet persisted, offsets marked committable, and the
      hand-off channel. */
  class KafkaBroker {
    var pending: seq<Record>
    var marked: map<nat, nat>
    var out: seq<StoredEvent>

    ghost predicate Sees(s: State)
      reads this
    {
      s.pending == pending && s.marked == marked && s.channel == out
    }

    constructor (committed: map<nat, nat>)
      ensures pending == [] && marked == committed && out == []
    {
      pending, marked, out := [], committed, [];
    }

    /** Pops and marks the first `n` records, all of them when there are fewer. */
    method Ack(n: int)
      modifies this
      ensures out == old(out)
      ensures n <= 0 ==> pending == old(pending) && marked == old(marked)
      ensures n > 0 ==>
        var k := if n <= |old(pending)| then n else |old(pending)|;
        pending == old(pending)[k..] && marked == MarkAll(old(marked), old(pending)[..k])
    {
      if n <= 0 {
        return;
      }
      var k := if n > |pending| then |pending| else n;
      var recs := pending[..k];
      pending := pending[k..];
      MarkCommitRecords(recs);
    }

    method MarkCommitRecords(recs: seq<Record>)
      modifies this`marked
      ensures marked == MarkAll(old(marked), recs)
    {
      var i := 0;
      while i < |recs|
        invariant 0 <= i <= |recs|
        invariant MarkAll(marked, recs[i..]) == MarkAll(old(marked), recs)
      {
        marked := Mark(marked, recs[i]);
        assert recs[i..][1..] == recs[i + 1..];
        i := i + 1;
      }
    }

    /** One polled record: marked at once when it does not decode, otherwise remembered
        and then handed over, unless the consumer is stopped while it waits for room. */
    method Handle(
      lim: Limits, rec: Record, value: Str, stop: bool, ghost s: State)
      returns (ghost labels: seq<Label>, ghost t: State)
      requires Sees(s) && !s.stopped && s.hand.None? && rec.offset == At(s.pos, rec.partition)
      requires Exists(s, rec) && Log(s, rec.partition)[rec.offset] == value
      requires !stop ==> |out| < lim.channelCap
      modifies this
      ensures labels == [Poll(rec.partition)] +
        if Decoded(value).None? then [] else if stop then [StopConsumer] else [Send]
      ensures Exec(lim, s, labels) == Some(t) && Sees(t)
    {
      var r := EventWire.DecodeStoredEvent(value);
      hide Exec, Decode;
      labels, t := [], s;
      NoLabels(lim, s);
      ExecThen(lim, s, labels, Poll(rec.partition));
      labels, t := [Poll(rec.partition)], Step(lim, s, Poll(rec.partition)).value;
      assert [] + [Poll(rec.partition)] == labels;
      match r {
        case Err(_) =>
          MarkCommitRecords([rec]);
          assert labels + [] == labels;
        case Ok(e) =>
          pending := pending + [rec];
          if stop {
            ExecThen(lim, s, labels, StopConsumer);
            labels, t := labels + [StopConsumer], t.(stopped := true);
          } else {
            out := out + [e];
            ExecThen(lim, s, labels, Send);
            labels, t := labels + [Send], Step(lim, t, Send).value;
          }
      }
    }
  }

  lemma {:induction false} ExecAppend(lim: Limits, s: State, first: seq<Label>, second: seq<Label>)
    requires Exec(lim, s, first).Some?
    ensures Exec(lim, s, first + second) == Exec(lim, Exec(lim, s, first).value, second)
    decreases |second|
  {
    hide Step;
    if second == [] {
      assert first + second == first;
    } else {
      var last := |second| - 1;
      ExecAppend(lim, s, first, second[..last]);
      assert (first + second)[..|first + second| - 1] == first + second[..last];
    }
  }

  lemma {:induction false} NoLabels(lim: Limits, s: State)
    ensures Exec(lim, s, []) == Some(s)
  {
  }

  // ---- Flushing ----

  /** One attempt to write a batch: it succeeds, or fails after some of the events may
      have reached the store, and the Writer may then be told to stop. */
  datatype Attempt = Written | Failed(landed: seq<StoredEvent>, stop: bool)

  predicate Final(a: Attempt) {
    a.Written? || a.stop
  }

  /** The attempts of one flush: all but the last one fail and are retried. */
  ghost predicate OneFlush(batch: seq<StoredEvent>, attempts: seq<Attempt>) {
    && |attempts| > 0 && Final(attempts[|attempts| - 1])
    && (forall i :: 0 <= i < |attempts| - 1 ==> !Final(attempts[i]))
    && (forall i :: 0 <= i < |attempts| && attempts[i].Failed? ==> forall e :: e in attempts[i].landed ==> e in batch)
  }

  function Pow2(n: nat): nat {
    if n == 0 then 1 else 2 * Pow2(n - 1)
  }

  /** The wait before retry `k`: doubled each time and capped. */
  function Wait(initial: nat, max: nat, k: nat): nat {
    if initial > max then initial else if initial * Pow2(k) < max then initial * Pow2(k) else max
  }

  lemma {:induction false} WaitStep(initial: nat, max: nat, k: nat)
    ensures Wait(initial, max, 0) == initial
    ensures var w := Wait(initial, max, k);
      Wait(initial, max, k + 1) == if w < max then (if w * 2 > max then max else w * 2) else w
  {
    assert initial * Pow2(k + 1) == 2 * (initial * Pow2(k));
  }

  /** What the failed attempts left in the store. */
  function Landed(attempts: seq<Attempt>): seq<StoredEvent> {
    if attempts == [] then []
    else
      var last := |attempts| - 1;
      Landed(attempts[..last]) + (if attempts[last].Failed? then attempts[last].landed else [])
  }

  ghost function Fails(attempts: seq<Attempt>): seq<Label>
    requires forall i :: 0 <= i < |attempts| ==> attempts[i].Failed?
  {
    seq(|attempts|, i requires 0 <= i < |attempts| => WriteFails(attempts[i].landed))
  }

  lemma {:induction false} FailsRun(lim: Limits, s: State, attempts: seq<Attempt>)
    requires s.phase.Flushing? && forall i :: 0 <= i < |attempts| ==>
      attempts[i].Failed? && forall e :: e in attempts[i].landed ==> e in s.batch
    ensures Exec(lim, s, Fails(attempts)) == Some(s.(store := s.store + Landed(attempts)))
    decreases |attempts|
  {
    if attempts == [] {
      assert s.store + [] == s.store;
    } else {
      var last := |attempts| - 1;
      FailsRun(lim, s, attempts[..last]);
      assert Fails(attempts) == Fails(attempts[..last]) + [WriteFails(attempts[last].landed)];
      hide Exec;
      ExecThen(lim, s, Fails(attempts[..last]), WriteFails(attempts[last].landed));
      assert s.store + Landed(attempts[..last]) + attempts[last].landed == s.store + Landed(attempts);
    }
  }

  /** The labels of one whole flush, acknowledgement included. */
  ghost function FlushLabels(attempts: seq<Attempt>): seq<Label>
    requires |attempts| > 0 && forall i :: 0 <= i < |attempts| - 1 ==> attempts[i].Failed?
  {
    var last := |attempts| - 1;
    match attempts[last]
    case Written => Fails(attempts[..last]) + [WriteSucceeds] + [AckPop] + [AckMark]
    case Failed(_, _) => Fails(attempts) + [Abandon]
  }

  /** The state one whole flush leads to. */
  ghost function Flushed(s: State, attempts: seq<Attempt>): State
    requires |attempts| > 0
  {
    var n := PopCount(s);
    if attempts[|attempts| - 1].Written?
    then s.(store := s.store + Landed(attempts) + s.batch, pending := s.pending[n..], batch := [],
            marked := MarkAll(s.marked, s.pending[..n]), phase := Collecting)
    else s.(store := s.store + Landed(attempts), batch := [], abandoned := s.abandoned + |s.batch|, phase := Collecting)
  }

  lemma {:induction false} FlushRun(lim: Limits, s: State, attempts: seq<Attempt>)
    requires s.phase.Flushing? && OneFlush(s.batch, attempts)
    ensures Exec(lim, s, FlushLabels(attempts)) == Some(Flushed(s, attempts))
  {
    hide Exec, Fails, MarkAll, Decoded;
    var last := |attempts| - 1;
    if attempts[last].Written? {
      var failed := attempts[..last];
      FailsRun(lim, s, failed);
      assert Landed(attempts) == Landed(failed) + [] == Landed(failed);
      ExecThen(lim, s, Fails(failed), WriteSucceeds);
      ExecThen(lim, s, Fails(failed) + [WriteSucceeds], AckPop);
      ExecThen(lim, s, Fails(failed) + [WriteSucceeds] + [AckPop], AckMark);
    } else {
      FailsRun(lim, s, attempts);
      ExecThen(lim, s, Fails(attempts), Abandon);
    }
  }

  lemma {:induction false} FlushedFields(s: State, attempts: seq<Attempt>)
    requires |attempts| > 0
    ensures var t := Flushed(s, attempts);
      && t.channel == s.channel && t.batch == [] && Flushed(s.(phase := Flushing), attempts) == t
      && t.store == s.store + Landed(attempts) + (if attempts[|attempts| - 1].Written? then s.batch else [])
      && t.pending == (if attempts[|attempts| - 1].Written? then s.pending[PopCount(s)..] else s.pending)
      && t.marked == (if attempts[|attempts| - 1].Written? then MarkAll(s.marked, s.pending[..PopCount(s)])
           else s.marked)
  {
    assert s.store + Landed(attempts) + [] == s.store + Landed(attempts);
  }

  class Writer {
    const batchSize: nat
    const initialBackoff: nat
    const maxBackoff: nat
    const broker: KafkaBroker
    var store: seq<StoredEvent>
    var batch: seq<StoredEvent>

    ghost predicate Sees(s: State)
      reads this, broker
    {
      broker.Sees(s) && s.store == store && s.batch == batch
    }

    constructor (b: KafkaBroker, size: int, initial: nat, max: nat)
      ensures broker == b && batchSize == (if size <= 0 then 256 else size) && initialBackoff == initial
      ensures maxBackoff == max
      ensures batch == [] && store == []
    {
      broker, batchSize, initialBackoff, maxBackoff := b, if size <= 0 then 256 else size, initial, max;
      batch, store := [], [];
    }

    /** Retries until a write succeeds or the Writer is told to stop; the waits between
        attempts double up to the cap. */
    method FlushWithRetry(attempts: seq<Attempt>) returns (ok: bool, waits: seq<nat>)
      requires OneFlush(batch, attempts)
      modifies this`store
      ensures ok == attempts[|attempts| - 1].Written?
      ensures store == old(store) + Landed(attempts) + if ok then batch else []
      ensures |waits| == |attempts| - 1
      ensures forall k :: 0 <= k < |waits| ==> waits[k] == Wait(initialBackoff, maxBackoff, k)
    {
      hide Wait;
      var backoff := initialBackoff;
      WaitStep(initialBackoff, maxBackoff, 0);
      waits := [];
      var i := 0;
      while true
        invariant 0 <= i < |attempts| && |waits| == i
        invariant store == old(store) + Landed(attempts[..i])
        invariant backoff == Wait(initialBackoff, maxBackoff, i)
        invariant forall k :: 0 <= k < i ==> waits[k] == Wait(initialBackoff, maxBackoff, k)
        decreases |attempts| - i
      {
        assert attempts[..i + 1][..i] == attempts[..i];
        match attempts[i] {
          case Written =>
            store := store + batch;
            assert i == |attempts| - 1 && attempts[..i + 1] == attempts;
            return true, waits;
          case Failed(landed, stop) =>
            store := store + landed;
            if stop {
              assert i == |attempts| - 1 && attempts[..i + 1] == attempts;
              return false, waits;
            }
        }
        waits := waits + [backoff];
        WaitStep(initialBackoff, maxBackoff, i);
        if backoff < maxBackoff {
          backoff := backoff * 2;
          if backoff > maxBackoff {
            backoff := maxBackoff;
          }
        }
        i := i + 1;
      }
    }

    /** A flush acknowledges its batch exactly when it was persisted, and starts a new
        batch either way. */
    method Flush(lim: Limits, attempts: seq<Attempt>, ghost s: State) returns (ghost labels: seq<Label>, ghost t: State)
      requires Sees(s) && (s.phase.Flushing? || s.phase.Collecting?) && (batch != [] ==> OneFlush(batch, attempts))
      modifies this, broker
      ensures Exec(lim, s, labels) == Some(t) && Sees(t) && broker.out == old(broker.out)
      ensures old(batch) == [] ==> t == s
      ensures old(batch) != [] ==> t == Flushed(s, attempts)
    {
      hide Exec, Flushed;
      NoLabels(lim, s);
      labels, t := [], s;
      if |batch| == 0 {
        return;
      }
      ghost var u := s;
      if s.phase.Collecting? {
        ExecThen(lim, s, [], IngestPipeline.Flush);
        labels, u := [] + [IngestPipeline.Flush], s.(phase := Flushing);
      }
      var ok, _ := FlushWithRetry(attempts);
      if ok {
        broker.Ack(|batch|);
      }
      batch := [];
      FlushRun(lim, u, attempts);
      ExecAppend(lim, s, labels, FlushLabels(attempts));
      labels, t := labels + FlushLabels(attempts), Flushed(s, attempts);
      FlushedFields(s, attempts);
    }

    /** Takes the next event off the channel, and flushes when the batch is full. */
    method Add(lim: Limits, attempts: seq<Attempt>, ghost s: State) returns (ghost labels: seq<Label>, ghost t: State)
      requires Sees(s) && s.phase.Collecting? && lim.batchSize == batchSize && broker.out != []
      requires OneFlush(batch + [broker.out[0]], attempts)
      modifies this, broker
      ensures Exec(lim, s, labels) == Some(t) && Sees(t)
      ensures var u := Step(lim, s, Receive).value; t == if |u.batch| >= batchSize then Flushed(u, attempts) else u
      ensures t.phase.Collecting? && broker.out == old(broker.out)[1..]
      ensures attempts[|attempts| - 1].Written? ==>
        store + batch == old(store) + (old(batch) + [old(broker.out[0])])
        || store == old(store) + Landed(attempts) + (old(batch) + [old(broker.out[0])])
    {
      hide Exec;
      ghost var u := Step(lim, s, Receive).value;
      ghost var l := [Receive];
      NoLabels(lim, s);
      ExecThen(lim, s, [], Receive);
      assert [] + l == l;
      batch := batch + [broker.out[0]];
      broker.out := broker.out[1..];
      labels, t := l, u;
      if |batch| >= batchSize {
        labels, t := Flush(lim, attempts, u);
        ExecAppend(lim, s, l, labels);
        labels := l + labels;
      }
    }

    /** Takes everything buffered in the channel. `outcomes` says how the flush of a batch
        goes when it is the n-th of the drain; when each is written in the end, nothing
        that was stored, batched or buffered is lost, copy for copy. */
    method Drain(lim: Limits, outcomes: (nat, seq<StoredEvent>) -> seq<Attempt>, ghost s: State)
        returns (ghost labels: seq<Label>, ghost t: State)
      requires Sees(s) && s.phase.Collecting? && lim.batchSize == batchSize
      requires forall n: nat, b: seq<StoredEvent> :: b != [] ==> OneFlush(b, outcomes(n, b))
      modifies this, broker
      ensures Exec(lim, s, labels) == Some(t) && Sees(t) && t.phase.Collecting?
      ensures broker.out == []
      ensures AllWritten(outcomes) ==>
        old(multiset(store) + multiset(batch) + multiset(broker.out)) <= multiset(store) + multiset(batch)
    {
      hide Exec, AllWritten;
      NoLabels(lim, s);
      labels, t := [], s;
      var n := 0;
      while broker.out != []
        invariant Exec(lim, s, labels) == Some(t) && Sees(t) && t.phase.Collecting?
        invariant AllWritten(outcomes) ==>
          old(multiset(store) + multiset(batch) + multiset(broker.out)) <= multiset(store) + multiset(batch) +
            multiset(broker.out)
        decreases |broker.out|
      {
        ghost var more: seq<Label>, next: State;
        ghost var was, taken, rest := store, batch + [broker.out[0]], broker.out[1..];
        assert broker.out == [broker.out[0]] + rest;
        assert multiset(batch) + multiset(broker.out) == multiset(taken) + multiset(rest);
        if AllWritten(outcomes) {
          EndsWritten(outcomes, n, taken);
        }
        more, next := Add(lim, outcomes(n, batch + [broker.out[0]]), t);
        if AllWritten(outcomes) {
          NoneLost(was, taken, store, batch, Landed(outcomes(n, taken)));
        }
        ExecAppend(lim, s, labels, more);
        labels, t := labels + more, next;
        n := n + 1;
      }
    }
  }

  lemma {:induction false} NoneLost(
    was: seq<StoredEvent>, taken: seq<StoredEvent>, store: seq<StoredEvent>, batch: seq<StoredEvent>,
    landed: seq<StoredEvent>)
    requires store + batch == was + taken || store == was + landed + taken
    ensures multiset(was) + multiset(taken) <= multiset(store) + multiset(batch)
  {
    if store + batch == was + taken {
      assert multiset(store + batch) == multiset(was + taken);
    } else {
      assert multiset(store) == multiset(was) + multiset(landed) + multiset(taken);
    }
  }

  /** The store accepts every batch sooner or later. */
  ghost predicate AllWritten(outcomes: (nat, seq<StoredEvent>) -> seq<Attempt>) {
    forall n: nat, b: seq<StoredEvent> :: b != [] ==>
      |outcomes(n, b)| > 0 && outcomes(n, b)[|outcomes(n, b)| - 1].Written?
  }

  lemma {:induction false} EndsWritten(outcomes: (nat, seq<StoredEvent>) -> seq<Attempt>, n: nat, b: seq<StoredEvent>)
    requires AllWritten(outcomes) && b != []
    ensures |outcomes(n, b)| > 0 && outcomes(n, b)[|outcomes(n, b)| - 1].Written?
  {
  }
}
