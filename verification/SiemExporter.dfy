/** The exporter's objects (server/data-plane/siem/exporter.go). A pipe's methods are
    proved against the pipe functions of the protocol; Submit is one caller running
    without interference. */
module SiemExporter {
  import opened Bytes
  import opened Siem

  class TenantPipe {
    const tenant: Str
    const queueSize: nat
    var queue: seq<Event>
    var batch: seq<Event>
    var closed: bool
    var quit: bool
    var stage: Stage

    function View(): Pipe
      reads this
    {
      Pipe(tenant, queue, batch, closed, quit, stage)
    }

    constructor (tenant: Str, queueSize: nat)
      ensures View() == NewPipe(tenant) && this.queueSize == queueSize
    {
      this.tenant, this.queueSize := tenant, queueSize;
      queue, batch, closed, quit, stage := [], [], false, false, Running;
    }

    method Enqueue(ev: Event) returns (r: EnqueueResult)
      modifies this
      ensures (View(), r) == EnqueueOn(old(View()), ev, queueSize)
    {
      if closed {
        return Closed;
      }
      if |queue| < queueSize {
        queue := queue + [ev];
        r := Accepted;
      } else {
        r := Full;
      }
    }

    /** The locked part of tryClose. */
    method TryClose() returns (ok: bool)
      modifies this
      ensures (View(), ok) == Siem.TryClose(old(View()))
    {
      if |queue| > 0 {
        return false;
      }
      closed, stage := true, Closing;
      ok := true;
    }

    /** drainInto: everything queued joins the batch, in order. */
    method DrainInto()
      modifies this
      ensures queue == [] && batch == old(batch) + old(queue)
      ensures closed == old(closed) && quit == old(quit) && stage == old(stage)
    {
      while queue != []
        invariant batch + queue == old(batch) + old(queue)
        invariant closed == old(closed) && quit == old(quit) && stage == old(stage)
        decreases |queue|
      {
        assert queue == [queue[0]] + queue[1..];
        batch, queue := batch + [queue[0]], queue[1..];
      }
    }

    /** Hands the batch over, and keeps nothing of it. */
    method Flush() returns (out: seq<Event>)
      modifies this`batch
      ensures out == old(batch) && batch == []
    {
      out := batch;
      batch := [];
    }
  }

  datatype Outcome = Dropped | Queued | Shed

  class Exporter {
    const queueSize: nat
    var pipes: map<Str, TenantPipe>
    var stopped: bool

    constructor (queueSize: nat)
      ensures this.queueSize == queueSize && pipes == map[] && !stopped
    {
      this.queueSize := queueSize;
      pipes, stopped := map[], false;
    }

    ghost predicate Valid()
      reads this, pipes.Values
    {
      forall t :: t in pipes ==> pipes[t].tenant == t && pipes[t].queueSize == queueSize
    }

    method GetOrCreate(tenant: Str) returns (p: TenantPipe?)
      requires Valid()
      modifies this
      ensures Valid() && stopped == old(stopped)
      ensures p == null <==> tenant !in old(pipes) && stopped
      ensures p == null ==> pipes == old(pipes)
      ensures p != null ==> pipes == old(pipes)[tenant := p]
      ensures tenant in old(pipes) ==> p == old(pipes[tenant])
      ensures p != null && tenant !in old(pipes) ==> fresh(p) && p.View() == NewPipe(tenant)
    {
      if tenant in pipes {
        p := pipes[tenant];
        assert pipes == pipes[tenant := p];
        return;
      }
      if stopped {
        return null;
      }
      p := new TenantPipe(tenant, queueSize);
      pipes := pipes[tenant := p];
    }

    /** Takes the pipe out only if it is still the registered one. */
    method RemovePipe(tenant: Str, p: TenantPipe)
      requires Valid()
      modifies this
      ensures Valid() && stopped == old(stopped)
      ensures pipes == if tenant in old(pipes) && old(pipes[tenant]) == p then old(pipes) - {tenant} else old(pipes)
    {
      if tenant in pipes && pipes[tenant] == p {
        pipes := pipes - {tenant};
      }
    }

    /** The pipe an undisturbed Submit ends on: the registered one if it is open,
        otherwise a new one. */
    method Submit(ev: Event) returns (r: Outcome)
      requires Valid()
      modifies this, pipes.Values
      ensures Valid() && stopped == old(stopped)
      ensures r.Dropped? <==> ev.tenant == [] || old(stopped)
      ensures r.Dropped? ==> pipes == old(pipes)
      ensures forall t :: t in old(pipes) && (t != ev.tenant || old(pipes[t].closed) || r.Dropped?) ==>
        old(pipes[t]).View() == old(pipes[t].View())
      ensures forall t :: t != ev.tenant ==>
        (t in pipes <==> t in old(pipes)) && (t in pipes ==> pipes[t] == old(pipes[t]))
      ensures !r.Dropped? ==>
        var was := if ev.tenant in old(pipes) && !old(pipes[ev.tenant].closed) then old(pipes[ev.tenant].View())
          else NewPipe(ev.tenant);
        && ev.tenant in pipes && pipes[ev.tenant].View() == EnqueueOn(was, ev, queueSize).0
        && (r.Queued? <==> EnqueueOn(was, ev, queueSize).1.Accepted?)
    {
      if ev.tenant == [] || stopped {
        return Dropped;
      }
      while true
        invariant Valid() && !stopped && !old(stopped)
        invariant pipes == old(pipes) ||
          (ev.tenant in old(pipes) && old(pipes[ev.tenant].closed) && pipes == old(pipes) - {ev.tenant})
        invariant forall t :: t in old(pipes) ==> old(pipes[t]).View() == old(pipes[t].View())
        decreases ev.tenant in pipes
      {
        var p := GetOrCreate(ev.tenant);
        var res := p.Enqueue(ev);
        match res {
          case Accepted => return Queued;
          case Full => return Shed;
          case Closed => RemovePipe(ev.tenant, p);
        }
      }
    }
  }
}
