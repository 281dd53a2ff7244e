/** The SIEM exporter's pipes as a protocol (server/data-plane/siem/exporter.go): callers
    submitting events, one pipe per tenant with a bounded queue and a goroutine that
    batches and delivers, the reaping of idle pipes, and Stop. One step is one lock
    section or one channel operation. Pipes are numbered in order of creation. */
module Siem {
  import opened Bytes

  datatype Event = Event(tenant: Str, id: nat)

  /** Where a pipe's goroutine is. `Closing` is between marking the pipe closed and
      taking it out of the map; `Draining` and `Leaving` follow a quit signal. */
  datatype Stage = Running | Closing | Draining | Leaving | Exited

  datatype Pipe = Pipe(tenant: Str, queue: seq<Event>, batch: seq<Event>, closed: bool, quit: bool, stage: Stage)

  /** Where a Submit call is: before the map lookup, after a miss, holding a pipe, or
      about to remove a pipe it found closed. */
  datatype Caller =
    | Looking(ev: Event)
    | Missed(ev: Event)
    | Holding(ev: Event, pipe: nat)
    | Retrying(ev: Event, pipe: nat)

  datatype Config = Config(queueSize: nat, batchSize: nat)

  datatype State = State(
    pipes: map<Str, nat>, all: seq<Pipe>, callers: map<nat, Caller>, stopped: bool, signals: set<nat>,
    accepted: map<Str, seq<Event>>, delivered: map<Str, seq<Event>>)

  datatype Label =
    | Begin(caller: nat, ev: Event)
    | Lookup(caller: nat)
    | Create(caller: nat)
    | Enqueue(caller: nat)
    | Remove(caller: nat)
    | Take(pipe: nat)
    | Flush(pipe: nat)
    | Reap(pipe: nat)
    | Unregister(pipe: nat)
    | Stop
    | Signal(pipe: nat)
    | Quit(pipe: nat)
    | Drain(pipe: nat)
    | Drained(pipe: nat)
    | Leave(pipe: nat)

  function Of(m: map<Str, seq<Event>>, t: Str): seq<Event> {
    if t in m then m[t] else []
  }

  // ---- A pipe by itself ----

  datatype EnqueueResult = Accepted | Full | Closed

  function NewPipe(tenant: Str): Pipe {
    Pipe(tenant, [], [], false, false, Running)
  }

  function EnqueueOn(p: Pipe, ev: Event, size: nat): (Pipe, EnqueueResult) {
    if p.closed then (p, Closed)
    else if |p.queue| < size then (p.(queue := p.queue + [ev]), Accepted)
    else (p, Full)
  }

  /** tryClose: only a pipe with nothing queued closes. */
  function TryClose(p: Pipe): (Pipe, bool) {
    if |p.queue| > 0 then (p, false) else (p.(closed := true, stage := Closing), true)
  }

  function TakeFrom(p: Pipe): Pipe
    requires p.queue != []
  {
    p.(queue := p.queue[1..], batch := p.batch + [p.queue[0]])
  }

  // ---- Steps ----

  function Initial(): State {
    State(map[], [], map[], false, {}, map[], map[])
  }

  function RemovePipe(pipes: map<Str, nat>, tenant: Str, p: nat): map<Str, nat> {
    if tenant in pipes && pipes[tenant] == p then pipes - {tenant} else pipes
  }

  function WithPipe(s: State, i: nat, p: Pipe): State
    requires i < |s.all|
  {
    s.(all := s.all[i := p])
  }

  /** The batch goes out to the tenant's connectors. */
  function Deliver(s: State, i: nat, stage: Stage): State
    requires i < |s.all|
  {
    var p := s.all[i];
    WithPipe(s, i, p.(batch := [],
      stage := stage)).(delivered := s.delivered[p.tenant := Of(s.delivered, p.tenant) + p.batch])
  }

  function CallerStep(cfg: Config, s: State, l: Label): Option<State>
    requires l.Begin? || l.Lookup? || l.Create? || l.Enqueue? || l.Remove?
  {
    var id := l.caller;
    if l.Begin? then
      if id in s.callers || l.ev.tenant == [] || s.stopped then None
      else Some(s.(callers := s.callers[id := Looking(l.ev)]))
    else if id !in s.callers then None
    else
      var c := s.callers[id];
      match l
      case Lookup(_) =>
        if !c.Looking? then None
        else if c.ev.tenant in s.pipes then Some(s.(callers := s.callers[id := Holding(c.ev, s.pipes[c.ev.tenant])]))
        else Some(s.(callers := s.callers[id := Missed(c.ev)]))
      case Create(_) =>
        if !c.Missed? then None
        else if c.ev.tenant in s.pipes then Some(s.(callers := s.callers[id := Holding(c.ev, s.pipes[c.ev.tenant])]))
        else if s.stopped then Some(s.(callers := s.callers - {id}))
        else Some(s.(callers := s.callers[id := Holding(c.ev, |s.all|)], pipes := s.pipes[c.ev.tenant := |s.all|],
                     all := s.all + [NewPipe(c.ev.tenant)]))
      case Enqueue(_) =>
        if !c.Holding? || c.pipe >= |s.all| then None
        else
          var (p, r) := EnqueueOn(s.all[c.pipe], c.ev, cfg.queueSize);
          (match r
           case Accepted =>
             Some(WithPipe(s, c.pipe, p).(callers := s.callers - {id},
               accepted := s.accepted[c.ev.tenant := Of(s.accepted, c.ev.tenant) + [c.ev]]))
           case Full => Some(s.(callers := s.callers - {id}))
           case Closed => Some(s.(callers := s.callers[id := Retrying(c.ev, c.pipe)])))
      case Remove(_) =>
        if !c.Retrying? then None
        else Some(s.(pipes := RemovePipe(s.pipes, c.ev.tenant, c.pipe), callers := s.callers[id := Looking(c.ev)]))
      case _ => None
  }

  function PipeStep(cfg: Config, s: State, l: Label): Option<State>
    requires !(l.Begin? || l.Lookup? || l.Create? || l.Enqueue? || l.Remove? || l.Stop?)
  {
    var i := l.pipe;
    if i >= |s.all| then None
    else
      var p := s.all[i];
      match l
      case Take(_) =>
        // A full batch is flushed before the next event is taken.
        if p.stage.Running? && p.queue != [] && |p.batch| < cfg.batchSize then Some(WithPipe(s, i, TakeFrom(p)))
        else None
      case Flush(_) => if p.stage.Running? && p.batch != [] then Some(Deliver(s, i, Running)) else None
      case Reap(_) => if p.stage.Running? && p.batch == [] then Some(WithPipe(s, i, TryClose(p).0)) else None
      case Unregister(_) =>
        if p.stage.Closing? then Some(WithPipe(s, i, p.(stage := Exited)).(pipes := RemovePipe(s.pipes, p.tenant, i)))
        else None
      case Signal(_) => if i in s.signals then Some(WithPipe(s, i, p.(quit := true)).(signals := s.signals - {i}))
        else None
      case Quit(_) => if p.stage.Running? && p.quit then Some(WithPipe(s, i, p.(stage := Draining))) else None
      case Drain(_) => if p.stage.Draining? && p.queue != [] then Some(WithPipe(s, i, TakeFrom(p))) else None
      case Drained(_) => if p.stage.Draining? && p.queue == [] then Some(WithPipe(s, i, p.(stage := Leaving))) else None
      case Leave(_) => if p.stage.Leaving? then Some(Deliver(s, i, Exited)) else None
      case _ => None
  }

  function Step(cfg: Config, s: State, l: Label): Option<State> {
    if l.Stop? then
      if s.stopped then None
      else Some(s.(stopped := true, signals := set t | t in s.pipes :: s.pipes[t]))
    else if l.Begin? || l.Lookup? || l.Create? || l.Enqueue? || l.Remove? then CallerStep(cfg, s, l)
    else PipeStep(cfg, s, l)
  }

  // ---- Invariant ----

  /** A closed pipe is empty for good and its goroutine is on its way out. */
  predicate PipeOk(p: Pipe) {
    && (p.closed ==> p.queue == [] && p.batch == [] && (p.stage.Closing? || p.stage.Exited?))
    && (p.stage.Closing? ==> p.closed)
    && (p.stage.Exited? ==> p.batch == [])
    && (forall k :: 0 <= k < |p.queue| ==> p.queue[k].tenant == p.tenant)
    && (forall k :: 0 <= k < |p.batch| ==> p.batch[k].tenant == p.tenant)
  }

  ghost predicate PipesOk(s: State) {
    forall i :: 0 <= i < |s.all| ==> PipeOk(s.all[i])
  }

  /** The map holds every open pipe: a tenant never has two. */
  ghost predicate Registered(s: State) {
    && (forall t :: t in s.pipes ==> s.pipes[t] < |s.all| && s.all[s.pipes[t]].tenant == t)
    && (forall i :: 0 <= i < |s.all| && !s.all[i].closed ==>
           s.all[i].tenant in s.pipes && s.pipes[s.all[i].tenant] == i)
  }

  predicate CallerOk(all: seq<Pipe>, c: Caller) {
    && ((c.Holding? || c.Retrying?) ==> c.pipe < |all| && all[c.pipe].tenant == c.ev.tenant)
    && (c.Retrying? ==> all[c.pipe].closed)
  }

  ghost predicate CallersOk(s: State) {
    forall id :: id in s.callers ==> CallerOk(s.all, s.callers[id])
  }

  function Held(s: State, t: Str): seq<Event> {
    if t in s.pipes && s.pipes[t] < |s.all| then s.all[s.pipes[t]].batch + s.all[s.pipes[t]].queue else []
  }

  /** Each tenant's accepted events, in order, are those delivered followed by those its
      pipe still holds. */
  ghost predicate Conserved(s: State) {
    forall t :: Of(s.accepted, t) == Of(s.delivered, t) + Held(s, t)
  }

  ghost predicate Inv(s: State) {
    PipesOk(s) && Registered(s) && CallersOk(s) && Conserved(s)
  }

  // ---- The shapes of the steps ----

  lemma {:induction false} CallerMoves(s: State, t: State, id: nat)
    requires Inv(s) && t.(callers := s.callers) == s
    requires forall k :: k in t.callers && k != id ==> k in s.callers && t.callers[k] == s.callers[k]
    requires id in t.callers ==> CallerOk(t.all, t.callers[id])
    ensures Inv(t)
  {
    hide PipesOk, Registered, Conserved;
    assert PipesOk(t) && Registered(t) && Conserved(t) by {
      SameButCallers(s, t);
    }
  }

  lemma {:induction false} SameButCallers(s: State, t: State)
    requires PipesOk(s) && Registered(s) && Conserved(s) && t.(callers := s.callers) == s
    ensures PipesOk(t) && Registered(t) && Conserved(t)
  {
    forall x ensures Of(t.accepted, x) == Of(t.delivered, x) + Held(t, x) {
      assert Held(t, x) == Held(s, x);
    }
  }

  /** Replacing one pipe by another of its tenant, never reopening it. */
  lemma {:induction false} PipeSet(s: State, t: State, i: nat, p: Pipe)
    requires Inv(s) && i < |s.all| && PipeOk(p) && p.tenant == s.all[i].tenant && (s.all[i].closed ==> p.closed)
    requires t.all == s.all[i := p] && t.pipes == s.pipes
    requires forall k :: k in t.callers ==> k in s.callers && t.callers[k] == s.callers[k]
    ensures PipesOk(t) && Registered(t) && CallersOk(t)
  {
    hide PipeOk, Conserved;
    assert forall k :: 0 <= k < |t.all| ==> t.all[k] == if k == i then p else s.all[k];
  }

  lemma {:induction false} HeldElsewhere(s: State, t: State, i: nat, x: Str)
    requires Registered(s) && i < |s.all| && |t.all| == |s.all| && t.pipes == s.pipes && x != s.all[i].tenant
    requires forall k :: 0 <= k < |s.all| && k != i ==> t.all[k] == s.all[k]
    ensures Held(t, x) == Held(s, x)
  {
  }

  /** A pipe changes without gaining or losing events. */
  lemma {:induction false} PipeMoves(s: State, i: nat, p: Pipe)
    requires Inv(s) && i < |s.all| && PipeOk(p) && p.tenant == s.all[i].tenant && (s.all[i].closed ==> p.closed)
    requires p.batch + p.queue == s.all[i].batch + s.all[i].queue
    ensures Inv(WithPipe(s, i, p))
  {
    var t := WithPipe(s, i, p);
    PipeSet(s, t, i, p);
    hide PipesOk, Registered, CallersOk, PipeOk;
    forall x ensures Of(t.accepted, x) == Of(t.delivered, x) + Held(t, x) {
      assert Of(s.accepted, x) == Of(s.delivered, x) + Held(s, x);
      if x in s.pipes && s.pipes[x] == i {
        assert Held(t, x) == Held(s, x);
      }
    }
  }

  lemma {:induction false} DeliverKeeps(s: State, i: nat, stage: Stage)
    requires Inv(s) && i < |s.all| && !s.all[i].closed && (stage.Running? || stage.Exited?)
    ensures Inv(Deliver(s, i, stage))
  {
    var t, p := Deliver(s, i, stage), s.all[i];
    assert PipeOk(p);
    assert s.pipes[p.tenant] == i;
    PipeSet(s, t, i, p.(batch := [], stage := stage));
    hide PipesOk, CallersOk, PipeOk, Conserved, Registered;
    DeliverConserves(s, t, i);
  }

  lemma {:induction false} DeliverConserves(s: State, t: State, i: nat)
    requires Registered(s) && Conserved(s) && i < |s.all| && !s.all[i].closed
    requires |t.all| == |s.all| && t.pipes == s.pipes && t.accepted == s.accepted
    requires t.all[i].batch == [] && t.all[i].queue == s.all[i].queue
    requires forall k :: 0 <= k < |s.all| && k != i ==> t.all[k] == s.all[k]
    requires t.delivered == s.delivered[s.all[i].tenant := Of(s.delivered, s.all[i].tenant) + s.all[i].batch]
    ensures Conserved(t)
  {
    var p := s.all[i];
    forall x ensures Of(t.accepted, x) == Of(t.delivered, x) + Held(t, x) {
      assert Of(s.accepted, x) == Of(s.delivered, x) + Held(s, x);
      if x == p.tenant {
        assert Of(s.delivered, x) + (p.batch + p.queue) == Of(s.delivered, x) + p.batch + ([] + p.queue);
      } else {
        HeldElsewhere(s, t, i, x);
      }
    }
  }

  lemma {:induction false} EnqueueKeeps(s: State, id: nat, i: nat, ev: Event)
    requires Inv(s) && id in s.callers && s.callers[id] == Holding(ev, i) && i < |s.all| && !s.all[i].closed
    ensures Inv(WithPipe(s, i, s.all[i].(queue := s.all[i].queue + [ev])).(
      callers := s.callers - {id}, accepted := s.accepted[ev.tenant := Of(s.accepted, ev.tenant) + [ev]]))
  {
    var p := s.all[i];
    var p' := p.(queue := p.queue + [ev]);
    var t := WithPipe(s, i, p').(callers := s.callers - {id},
      accepted := s.accepted[ev.tenant := Of(s.accepted, ev.tenant) + [ev]]);
    assert p.tenant == ev.tenant;
    assert PipeOk(p) && PipeOk(p');
    hide PipeOk, Conserved, PipesOk, Registered, CallersOk;
    PipeSet(s, t, i, p');
    EnqueueConserves(s, t, i, ev);
  }

  lemma {:induction false} EnqueueConserves(s: State, t: State, i: nat, ev: Event)
    requires Registered(s) && Conserved(s) && i < |s.all| && !s.all[i].closed && s.all[i].tenant == ev.tenant
    requires t.all == s.all[i := s.all[i].(queue := s.all[i].queue + [ev])] && t.pipes == s.pipes
    requires t.delivered == s.delivered
    requires t.accepted == s.accepted[ev.tenant := Of(s.accepted, ev.tenant) + [ev]]
    ensures Conserved(t)
  {
    var p := s.all[i];
    forall x ensures Of(t.accepted, x) == Of(t.delivered, x) + Held(t, x) {
      assert Of(s.accepted, x) == Of(s.delivered, x) + Held(s, x);
      if x == ev.tenant {
        assert Of(s.delivered, x) + (p.batch + p.queue) + [ev] == Of(s.delivered, x) + (p.batch + (p.queue + [ev]));
      } else {
        HeldElsewhere(s, t, i, x);
      }
    }
  }

  lemma {:induction false} CreateKeeps(s: State, id: nat, ev: Event)
    requires Inv(s) && id in s.callers && ev.tenant !in s.pipes
    ensures Inv(s.(callers := s.callers[id := Holding(ev, |s.all|)], pipes := s.pipes[ev.tenant := |s.all|],
      all := s.all + [NewPipe(ev.tenant)]))
  {
    var t := s.(callers := s.callers[id := Holding(ev, |s.all|)], pipes := s.pipes[ev.tenant := |s.all|],
      all := s.all + [NewPipe(ev.tenant)]);
    assert PipeOk(NewPipe(ev.tenant));
    hide PipeOk;
    forall x ensures Of(t.accepted, x) == Of(t.delivered, x) + Held(t, x) {
      assert Of(s.accepted, x) == Of(s.delivered, x) + Held(s, x);
      assert Held(t, x) == Held(s, x);
    }
  }

  /** A closed pipe may leave the map, whoever takes it out. */
  lemma {:induction false} RemoveKeeps(s: State, tenant: Str, i: nat)
    requires Inv(s) && i < |s.all| && s.all[i].closed && s.all[i].tenant == tenant
    ensures Inv(s.(pipes := RemovePipe(s.pipes, tenant, i)))
  {
    var t := s.(pipes := RemovePipe(s.pipes, tenant, i));
    assert s.all[i].batch + s.all[i].queue == [];
    hide PipeOk;
    forall x ensures Of(t.accepted, x) == Of(t.delivered, x) + Held(t, x) {
      assert Of(s.accepted, x) == Of(s.delivered, x) + Held(s, x);
      assert Held(t, x) == Held(s, x);
    }
  }

  lemma {:induction false} FlagsKeep(s: State, t: State)
    requires Inv(s) && t.(stopped := s.stopped, signals := s.signals) == s
    ensures Inv(t)
  {
    hide PipeOk;
    forall x ensures Of(t.accepted, x) == Of(t.delivered, x) + Held(t, x) {
      assert Held(t, x) == Held(s, x);
    }
  }

  // ---- Every step keeps the invariant ----

  lemma {:induction false} CallerStepKeeps(cfg: Config, s: State, l: Label)
    requires Inv(s) && (l.Begin? || l.Lookup? || l.Create? || l.Enqueue? || l.Remove?) && CallerStep(cfg, s, l).Some?
    ensures Inv(CallerStep(cfg, s, l).value)
  {
    hide Inv, CallerStep;
    if l.Create? {
      CreateStepKeeps(cfg, s, l);
    } else if l.Enqueue? {
      EnqueueStepKeeps(cfg, s, l);
    } else if l.Remove? {
      RemoveStepKeeps(cfg, s, l);
    } else {
      LookupStepKeeps(cfg, s, l);
    }
  }

  lemma {:induction false} LookupStepKeeps(cfg: Config, s: State, l: Label)
    requires Inv(s) && (l.Begin? || l.Lookup?) && CallerStep(cfg, s, l).Some?
    ensures Inv(CallerStep(cfg, s, l).value)
  {
    hide PipesOk, Conserved, CallersOk;
    var t := CallerStep(cfg, s, l).value;
    assert CallerOk(t.all, t.callers[l.caller]);
    hide Inv;
    CallerMoves(s, t, l.caller);
  }

  lemma {:induction false} CreateStepKeeps(cfg: Config, s: State, l: Label)
    requires Inv(s) && l.Create? && CallerStep(cfg, s, l).Some?
    ensures Inv(CallerStep(cfg, s, l).value)
  {
    hide PipesOk, Conserved, CallersOk;
    var t := CallerStep(cfg, s, l).value;
    var c := s.callers[l.caller];
    if c.ev.tenant !in s.pipes && !s.stopped {
      hide Inv;
      CreateKeeps(s, l.caller, c.ev);
    } else {
      assert l.caller in t.callers ==> CallerOk(t.all, t.callers[l.caller]);
      hide Inv;
      CallerMoves(s, t, l.caller);
    }
  }

  lemma {:induction false} EnqueueStepKeeps(cfg: Config, s: State, l: Label)
    requires Inv(s) && l.Enqueue? && CallerStep(cfg, s, l).Some?
    ensures Inv(CallerStep(cfg, s, l).value)
  {
    hide PipesOk, Conserved, Registered;
    var t := CallerStep(cfg, s, l).value;
    var c := s.callers[l.caller];
    if EnqueueOn(s.all[c.pipe], c.ev, cfg.queueSize).1.Accepted? {
      hide Inv;
      EnqueueKeeps(s, l.caller, c.pipe, c.ev);
    } else {
      assert l.caller in t.callers ==> CallerOk(t.all, t.callers[l.caller]);
      hide Inv;
      CallerMoves(s, t, l.caller);
    }
  }

  lemma {:induction false} RemoveStepKeeps(cfg: Config, s: State, l: Label)
    requires Inv(s) && l.Remove? && CallerStep(cfg, s, l).Some?
    ensures Inv(CallerStep(cfg, s, l).value)
  {
    hide PipesOk, Conserved, Registered;
    var c := s.callers[l.caller];
    assert CallerOk(s.all, c);
    hide Inv;
    RemoveKeeps(s, c.ev.tenant, c.pipe);
    CallerMoves(s.(pipes := RemovePipe(s.pipes, c.ev.tenant, c.pipe)), CallerStep(cfg, s, l).value, l.caller);
  }

  lemma {:induction false} TakeMoves(p: Pipe)
    requires PipeOk(p) && p.queue != [] && !p.stage.Exited?
    ensures PipeOk(TakeFrom(p)) && TakeFrom(p).batch + TakeFrom(p).queue == p.batch + p.queue
  {
    assert p.queue == [p.queue[0]] + p.queue[1..];
  }

  lemma {:induction false} PipeStepKeeps(cfg: Config, s: State, l: Label)
    requires Inv(s) && !(l.Begin? || l.Lookup? || l.Create? || l.Enqueue? || l.Remove? || l.Stop?)
    requires PipeStep(cfg, s, l).Some?
    ensures Inv(PipeStep(cfg, s, l).value)
  {
    var i := l.pipe;
    var p := s.all[i];
    assert PipeOk(p);
    hide Inv;
    match l {
      case Take(_) =>
        TakeMoves(p);
        PipeMoves(s, i, TakeFrom(p));
      case Flush(_) => DeliverKeeps(s, i, Running);
      case Reap(_) => PipeMoves(s, i, TryClose(p).0);
      case Unregister(_) =>
        PipeMoves(s, i, p.(stage := Exited));
        RemoveKeeps(WithPipe(s, i, p.(stage := Exited)), p.tenant, i);
      case Signal(_) =>
        PipeMoves(s, i, p.(quit := true));
        FlagsKeep(WithPipe(s, i, p.(quit := true)), PipeStep(cfg, s, l).value);
      case Quit(_) => PipeMoves(s, i, p.(stage := Draining));
      case Drain(_) =>
        TakeMoves(p);
        PipeMoves(s, i, TakeFrom(p));
      case Drained(_) => PipeMoves(s, i, p.(stage := Leaving));
      case Leave(_) => DeliverKeeps(s, i, Exited);
      case _ =>
    }
  }

  lemma {:induction false} StepKeeps(cfg: Config, s: State, l: Label)
    requires Inv(s) && Step(cfg, s, l).Some?
    ensures Inv(Step(cfg, s, l).value)
  {
    hide Inv, CallerStep, PipeStep;
    if l.Stop? {
      FlagsKeep(s, Step(cfg, s, l).value);
    } else if l.Begin? || l.Lookup? || l.Create? || l.Enqueue? || l.Remove? {
      CallerStepKeeps(cfg, s, l);
    } else {
      PipeStepKeeps(cfg, s, l);
    }
  }

  ghost predicate IsRun(cfg: Config, states: seq<State>, labels: seq<Label>) {
    && |states| == |labels| + 1 && states[0] == Initial()
    && forall i :: 0 <= i < |labels| ==> Step(cfg, states[i], labels[i]) == Some(states[i + 1])
  }

  lemma {:induction false} RunInv(cfg: Config, states: seq<State>, labels: seq<Label>, n: nat)
    requires IsRun(cfg, states, labels) && n <= |labels|
    ensures Inv(states[n])
  {
    if n == 0 {
    } else {
      hide Inv, Step;
      RunInv(cfg, states, labels, n - 1);
      assert Step(cfg, states[n - 1], labels[n - 1]) == Some(states[n]);
      StepKeeps(cfg, states[n - 1], labels[n - 1]);
    }
  }

  /** On every interleaving: a closed pipe holds nothing, so no event is accepted onto a
      pipe that was reaped; a tenant has at most one open pipe, and it is the one in the
      map; and each tenant's accepted events are, in order, those delivered followed by
      those its pipe holds. */
  lemma {:induction false} PipesConserve(cfg: Config, states: seq<State>, labels: seq<Label>, n: nat)
    requires IsRun(cfg, states, labels) && n <= |labels|
    ensures var s := states[n];
      && (forall i :: 0 <= i < |s.all| && s.all[i].closed ==> s.all[i].queue == [] && s.all[i].batch == [])
      && (forall i :: 0 <= i < |s.all| && !s.all[i].closed ==>
             s.all[i].tenant in s.pipes && s.pipes[s.all[i].tenant] == i)
      && (forall t :: Of(s.accepted, t) == Of(s.delivered, t) + Held(s, t))
  {
    RunInv(cfg, states, labels, n);
    var s := states[n];
    hide IsRun;
    forall i | 0 <= i < |s.all| && s.all[i].closed ensures s.all[i].queue == [] && s.all[i].batch == [] {
      assert PipeOk(s.all[i]);
    }
  }

  // ---- Stop ----

  /** The goroutine has drained its queue for the last time. */
  predicate PastDrain(p: Pipe) {
    p.stage.Leaving? || p.stage.Exited?
  }

  /** A goroutine past its last drain has nothing queued. */
  ghost predicate Settled(s: State) {
    forall i :: 0 <= i < |s.all| && PastDrain(s.all[i]) ==> s.all[i].queue == []
  }

  /** Nothing is accepted onto a pipe whose goroutine has drained it for the last time. */
  ghost predicate InTime(cfg: Config, s: State, l: Label) {
    l.Enqueue? && l.caller in s.callers && s.callers[l.caller].Holding? && s.callers[l.caller].pipe < |s.all| ==>
      var p := s.all[s.callers[l.caller].pipe];
      PastDrain(p) ==> !EnqueueOn(p, s.callers[l.caller].ev, cfg.queueSize).1.Accepted?
  }

  /** One step keeps it so if and only if the step is in time. */
  lemma {:induction false} SettledExact(cfg: Config, s: State, l: Label)
    requires Inv(s) && Settled(s) && Step(cfg, s, l).Some?
    ensures Settled(Step(cfg, s, l).value) <==> InTime(cfg, s, l)
  {
    hide Registered, Conserved, CallersOk;
    if l.Stop? {
    } else if l.Begin? || l.Lookup? || l.Create? || l.Enqueue? || l.Remove? {
      hide PipesOk, PipeStep;
      CallerSettled(cfg, s, l);
    } else {
      hide CallerStep;
      assert PipeOk(s.all[l.pipe]);
      hide PipesOk;
      PipeSettled(cfg, s, l);
    }
  }

  lemma {:induction false} CallerSettled(cfg: Config, s: State, l: Label)
    requires Settled(s) && (l.Begin? || l.Lookup? || l.Create? || l.Enqueue? || l.Remove?)
    requires CallerStep(cfg, s, l).Some?
    ensures Settled(CallerStep(cfg, s, l).value) <==> InTime(cfg, s, l)
  {
    var t := CallerStep(cfg, s, l).value;
    if l.Enqueue? {
      var i := s.callers[l.caller].pipe;
      if EnqueueOn(s.all[i], s.callers[l.caller].ev, cfg.queueSize).1.Accepted? {
        assert t.all[i].queue != [] && t.all[i].stage == s.all[i].stage;
      }
    }
  }

  lemma {:induction false} PipeSettled(cfg: Config, s: State, l: Label)
    requires Settled(s) && !(l.Begin? || l.Lookup? || l.Create? || l.Enqueue? || l.Remove? || l.Stop?)
    requires PipeStep(cfg, s, l).Some?
    requires PipeOk(s.all[l.pipe])
    ensures Settled(PipeStep(cfg, s, l).value)
  {
    var t := PipeStep(cfg, s, l).value;
    assert |t.all| == |s.all| && forall k :: 0 <= k < |s.all| && k != l.pipe ==> t.all[k] == s.all[k];
    assert s.all[l.pipe].stage.Leaving? || s.all[l.pipe].stage.Closing? ==> s.all[l.pipe].queue == [];
  }

  /** Past its last drain, and what is queued stays queued. */
  ghost predicate Stuck(p: Pipe, q: Pipe) {
    PastDrain(q) && p.queue <= q.queue && (p.stage.Exited? ==> q.stage.Exited?)
  }

  lemma {:induction false} CallerPastDrain(cfg: Config, s: State, l: Label, i: nat)
    requires i < |s.all| && PastDrain(s.all[i])
    requires (l.Begin? || l.Lookup? || l.Create? || l.Enqueue? || l.Remove?) && CallerStep(cfg, s, l).Some?
    ensures var t := CallerStep(cfg, s, l).value; i < |t.all| && Stuck(s.all[i], t.all[i])
  {
    var t := CallerStep(cfg, s, l).value;
    if l.Enqueue? {
      var c := s.callers[l.caller];
      assert t.all == s.all || t.all == s.all[c.pipe := EnqueueOn(s.all[c.pipe], c.ev, cfg.queueSize).0];
    } else {
      assert s.all <= t.all;
    }
  }

  lemma {:induction false} PipePastDrain(cfg: Config, s: State, l: Label, i: nat)
    requires i < |s.all| && PastDrain(s.all[i])
    requires !(l.Begin? || l.Lookup? || l.Create? || l.Enqueue? || l.Remove? || l.Stop?) && PipeStep(cfg, s, l).Some?
    ensures var t := PipeStep(cfg, s, l).value; i < |t.all| && Stuck(s.all[i], t.all[i])
  {
    var t := PipeStep(cfg, s, l).value;
    if i != l.pipe {
      assert |t.all| == |s.all| && t.all[i] == s.all[i];
    }
  }

  /** What is queued on a pipe past its last drain stays there through every step. */
  lemma {:induction false} PastDrainForGood(cfg: Config, s: State, l: Label, i: nat)
    requires i < |s.all| && PastDrain(s.all[i]) && Step(cfg, s, l).Some?
    ensures var t := Step(cfg, s, l).value; i < |t.all| && Stuck(s.all[i], t.all[i])
  {
    hide CallerStep, PipeStep;
    if l.Begin? || l.Lookup? || l.Create? || l.Enqueue? || l.Remove? {
      CallerPastDrain(cfg, s, l, i);
    } else if !l.Stop? {
      PipePastDrain(cfg, s, l, i);
    }
  }

  lemma {:induction false} UnsettledForGood(cfg: Config, s: State, l: Label)
    requires !Settled(s) && Step(cfg, s, l).Some?
    ensures !Settled(Step(cfg, s, l).value)
  {
    hide Step;
    var i :| 0 <= i < |s.all| && PastDrain(s.all[i]) && s.all[i].queue != [];
    PastDrainForGood(cfg, s, l, i);
    assert Step(cfg, s, l).value.all[i].queue != [];
  }

  ghost predicate InTimeUntil(cfg: Config, states: seq<State>, labels: seq<Label>, n: nat)
    requires |states| == |labels| + 1 && n <= |labels|
  {
    forall i :: 0 <= i < n ==> InTime(cfg, states[i], labels[i])
  }

  /** Along a run, nothing waits behind a last drain if and only if every step so far was
      in time. */
  lemma {:induction false} RunSettledExact(cfg: Config, states: seq<State>, labels: seq<Label>, n: nat)
    requires IsRun(cfg, states, labels) && n <= |labels|
    ensures Settled(states[n]) <==> InTimeUntil(cfg, states, labels, n)
  {
    if n == 0 {
    } else {
      hide Inv, Step, Settled, InTime;
      var s, l := states[n - 1], labels[n - 1];
      RunSettledExact(cfg, states, labels, n - 1);
      RunInv(cfg, states, labels, n - 1);
      assert Step(cfg, s, l) == Some(states[n]);
      if Settled(s) {
        SettledExact(cfg, s, l);
      } else {
        UnsettledForGood(cfg, s, l);
      }
    }
  }

  ghost predicate AllDelivered(s: State) {
    forall t :: Of(s.accepted, t) == Of(s.delivered, t)
  }

  ghost predicate AllExited(s: State) {
    forall i :: 0 <= i < |s.all| ==> s.all[i].stage.Exited?
  }

  /** When every pipe has exited, everything accepted was delivered if and only if no
      queue has anything left. */
  lemma {:induction false} ExitedExact(s: State)
    requires Inv(s) && AllExited(s)
    ensures AllDelivered(s) <==> Settled(s)
  {
    if Settled(s) {
      ExitedIsEmpty(s);
      assert AllDelivered(s);
    } else {
      var i :| 0 <= i < |s.all| && PastDrain(s.all[i]) && s.all[i].queue != [];
      var t := s.all[i].tenant;
      assert PipeOk(s.all[i]);
      assert s.pipes[t] == i && Held(s, t) != [];
      assert |Of(s.accepted, t)| == |Of(s.delivered, t)| + |Held(s, t)|;
    }
  }

  /** Stop loses nothing exactly when nothing is accepted late: at a point of a run where
      every pipe has exited, everything accepted was delivered if and only if every step
      up to it was in time. */
  lemma {:induction false} StopExact(cfg: Config, states: seq<State>, labels: seq<Label>, n: nat)
    requires IsRun(cfg, states, labels) && n <= |labels| && AllExited(states[n])
    ensures AllDelivered(states[n]) <==> InTimeUntil(cfg, states, labels, n)
  {
    hide Inv, Step, Settled, InTime;
    RunInv(cfg, states, labels, n);
    RunSettledExact(cfg, states, labels, n);
    ExitedExact(states[n]);
  }

  /** Tenant by tenant: while every step is in time, a pipe that has exited has delivered
      everything its tenant was accepted, whatever the other pipes are doing. */
  lemma {:induction false} StopDelivers(cfg: Config, states: seq<State>, labels: seq<Label>, n: nat)
    requires IsRun(cfg, states, labels) && n <= |labels| && InTimeUntil(cfg, states, labels, n)
    ensures var s := states[n];
      forall t :: (t in s.pipes ==> s.pipes[t] < |s.all| && s.all[s.pipes[t]].stage.Exited?) ==>
        Of(s.accepted, t) == Of(s.delivered, t)
  {
    hide Inv, Step, Settled, InTime;
    RunInv(cfg, states, labels, n);
    RunSettledExact(cfg, states, labels, n);
    ExitedIsEmpty(states[n]);
  }

  lemma {:induction false} ExitedIsEmpty(s: State)
    requires Inv(s) && Settled(s)
    ensures forall t :: (t in s.pipes ==> s.pipes[t] < |s.all| && s.all[s.pipes[t]].stage.Exited?) ==>
      Of(s.accepted, t) == Of(s.delivered, t)
  {
    forall t | t in s.pipes ==> s.pipes[t] < |s.all| && s.all[s.pipes[t]].stage.Exited?
      ensures Of(s.accepted, t) == Of(s.delivered, t)
    {
      assert Of(s.accepted, t) == Of(s.delivered, t) + Held(s, t);
      if t in s.pipes {
        assert PipeOk(s.all[s.pipes[t]]);
      }
      assert Held(s, t) == [];
    }
  }

  /** A state with one pipe and at most caller zero. */
  ghost predicate Alone(s: State, p: Pipe, c: Option<Caller>, stopped: bool, signalled: bool, accepted: seq<Event>) {
    && s.all == [p] && p.tenant in s.pipes && s.pipes[p.tenant] == 0
    && (c.Some? <==> 0 in s.callers) && (c.Some? ==> s.callers[0] == c.value)
    && s.stopped == stopped && (signalled <==> 0 in s.signals)
    && Of(s.accepted, p.tenant) == accepted && Of(s.delivered, p.tenant) == []
  }

  lemma {:induction false} Then(
    cfg: Config, states: seq<State>, labels: seq<Label>, l: Label)
    returns (states': seq<State>, labels': seq<Label>)
    requires IsRun(cfg, states, labels) && Step(cfg, states[|labels|], l).Some?
    ensures |states'| == |labels'| + 1 && IsRun(cfg, states', labels')
    ensures states'[|labels'|] == Step(cfg, states[|labels|], l).value
  {
    hide Step;
    states', labels' := states + [Step(cfg, states[|labels|], l).value], labels + [l];
  }

  lemma {:induction false} CallerHolds(cfg: Config, ev: Event) returns (states: seq<State>, labels: seq<Label>)
    requires ev.tenant != []
    ensures |states| == |labels| + 1 && IsRun(cfg, states, labels)
    ensures Alone(states[|labels|], NewPipe(ev.tenant), Some(Holding(ev, 0)), false, false, [])
  {
    states, labels := [Initial()], [];
    assert IsRun(cfg, states, labels);
    hide IsRun;
    states, labels := Then(cfg, states, labels, Begin(0, ev));
    states, labels := Then(cfg, states, labels, Lookup(0));
    states, labels := Then(cfg, states, labels, Create(0));
  }

  lemma {:induction false} PipeQuits(
    cfg: Config, ev: Event, states0: seq<State>, labels0: seq<Label>)
    returns (states: seq<State>, labels: seq<Label>)
    requires IsRun(cfg, states0, labels0)
    requires Alone(states0[|labels0|], NewPipe(ev.tenant), Some(Holding(ev, 0)), false, false, [])
    ensures |states| == |labels| + 1 && IsRun(cfg, states, labels)
    ensures Alone(states[|labels|], Pipe(ev.tenant, [], [], false, true, Draining), Some(Holding(ev, 0)),
      true, false, [])
  {
    hide IsRun;
    states, labels := Then(cfg, states0, labels0, Stop);
    assert Alone(states[|labels|], NewPipe(ev.tenant), Some(Holding(ev, 0)), true, true, []);
    states, labels := Then(cfg, states, labels, Signal(0));
    states, labels := Then(cfg, states, labels, Quit(0));
  }

  /** A caller that was looked up a pipe before Stop can still be accepted after the
      pipe's goroutine has gone: the event is queued and nothing will ever take it. */
  lemma {:induction false} StopLoses(cfg: Config, ev: Event) returns (states: seq<State>, labels: seq<Label>)
    requires ev.tenant != [] && cfg.queueSize > 0
    ensures |states| == |labels| + 1 && IsRun(cfg, states, labels)
    ensures Alone(states[|labels|], Pipe(ev.tenant, [ev], [], false, true, Exited), None, true, false, [ev])
  {
    hide IsRun;
    states, labels := CallerHolds(cfg, ev);
    states, labels := PipeQuits(cfg, ev, states, labels);
    states, labels := Then(cfg, states, labels, Drained(0));
    assert Alone(states[|labels|], Pipe(ev.tenant, [], [], false, true, Leaving), Some(Holding(ev, 0)),
      true, false, []);
    states, labels := Then(cfg, states, labels, Leave(0));
    assert Alone(states[|labels|], Pipe(ev.tenant, [], [], false, true, Exited), Some(Holding(ev, 0)), true, false, []);
    assert [] + [ev] == [ev];
    states, labels := Then(cfg, states, labels, Enqueue(0));
  }
}
