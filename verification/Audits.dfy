/** The publisher of audit events as an object: registering observers, publishing and closing. */
module Audits {
  import opened AuditRuns

  const DEFAULT_QUEUE_SIZE := 1024

  /** The non-blocking send to a queue of the given size. */
  function Offer(size: nat, queue: seq<Event>, e: Event): seq<Event> {
    if |queue| < size then queue + [e] else queue
  }

  /** The observers whose queues are full, in the order they registered. */
  function FullOnes(size: nat, queues: seq<seq<Event>>, names: seq<string>): seq<string>
    requires |queues| == |names|
  {
    if queues == [] then []
    else
      var last := |queues| - 1;
      FullOnes(size, queues[..last], names[..last]) + if |queues[last]| < size then [] else [names[last]]
  }

  /** Every full queue among the first n is named once, by the name at its position, in the order of the positions. */
  ghost predicate AreNamed(size: nat, queues: seq<seq<Event>>, names: seq<string>, n: nat, full: seq<string>,
                           at: seq<nat>)
    requires n <= |queues| == |names|
  {
    && |at| == |full|
    && (forall k | 0 <= k < |at| :: at[k] < n && size <= |queues[at[k]]| && full[k] == names[at[k]])
    && (forall k, l | 0 <= k < l < |at| :: at[k] < at[l])
    && (forall i: nat | i < n && size <= |queues[i]| :: i in at)
  }

  lemma {:induction false} FullOnesAreNamed(size: nat, queues: seq<seq<Event>>, names: seq<string>, n: nat)
    returns (at: seq<nat>)
    requires n <= |queues| == |names|
    ensures AreNamed(size, queues, names, n, FullOnes(size, queues[..n], names[..n]), at)
  {
    at := [];
    if n > 0 {
      at := FullOnesAreNamed(size, queues, names, n - 1);
      OneMoreName(size, queues, names, n);
      if size <= |queues[n - 1]| {
        OneMoreFull(size, queues, names, n - 1, FullOnes(size, queues[..n - 1], names[..n - 1]), at);
        at := at + [n - 1];
      }
    }
  }

  lemma OneMoreFull(size: nat, queues: seq<seq<Event>>, names: seq<string>, n: nat, full: seq<string>, at: seq<nat>)
    requires n < |queues| == |names| && size <= |queues[n]| && AreNamed(size, queues, names, n, full, at)
    ensures AreNamed(size, queues, names, n + 1, full + [names[n]], at + [n])
  {
    assert (at + [n])[|at|] == n;
  }

  class Observed {
    const name: string
    var queue: seq<Event>
    var shut: bool

    constructor (name: string)
      ensures this.name == name && queue == [] && !shut
    {
      this.name := name;
      queue := [];
      shut := false;
    }

    /** A send that does not wait. */
    method TrySend(size: nat, e: Event) returns (sent: bool)
      requires !shut
      modifies this`queue
      ensures queue == Offer(size, old(queue), e) && sent == (|old(queue)| < size)
    {
      sent := |queue| < size;
      if sent {
        queue := queue + [e];
      }
    }
  }

  class Publisher {
    const queueSize: nat
    var workers: seq<Observed>
    var closed: bool

    ghost predicate Valid()
      reads this, workers
    {
      && 0 < queueSize
      && (forall i, j | 0 <= i < j < |workers| :: workers[i] != workers[j])
      && (forall i | 0 <= i < |workers| :: |workers[i].queue| <= queueSize && (workers[i].shut <==> closed))
    }

    ghost function Queues(): (r: seq<seq<Event>>)
      reads this, workers
    {
      seq(|workers|, i requires 0 <= i < |workers| reads this, workers => workers[i].queue)
    }

    ghost function Names(): (r: seq<string>)
      reads this, workers
    {
      seq(|workers|, i requires 0 <= i < |workers| reads this, workers => workers[i].name)
    }

    /** A queue size below one keeps the default. */
    constructor (queueSize: int)
      ensures Valid() && workers == [] && !closed
      ensures this.queueSize == if 0 < queueSize then queueSize else DEFAULT_QUEUE_SIZE
    {
      this.queueSize := if 0 < queueSize then queueSize else DEFAULT_QUEUE_SIZE;
      workers := [];
      closed := false;
    }

    method Register(name: string)
      requires Valid()
      modifies this`workers
      ensures Valid() && Queues() == old(Queues()) + (if closed then [] else [[]])
      ensures Names() == old(Names()) + if closed then [] else [name]
      ensures old(workers) <= workers && forall i | |old(workers)| <= i < |workers| :: fresh(workers[i])
    {
      if closed {
        return;
      }
      var w := new Observed(name);
      workers := workers + [w];
    }

    /** Queues e for every observer with room and names the others, which lose it. */
    method Publish(e: Event) returns (dropped: seq<string>)
      requires Valid()
      modifies workers
      ensures Valid() && Names() == old(Names())
      ensures |Queues()| == |old(Queues())|
      ensures forall i | 0 <= i < |workers| ::
                workers[i].queue == if !closed && |old(workers[i].queue)| < queueSize
                                    then old(workers[i].queue) + [e] else old(workers[i].queue)
      ensures dropped == if closed then [] else old(FullOnes(queueSize, Queues(), Names()))
    {
      dropped := [];
      if closed {
        return;
      }
      ghost var queues, names := Queues(), Names();
      var i := 0;
      while i < |workers|
        invariant i <= |workers|
        invariant forall j | i <= j < |workers| :: workers[j].queue == old(workers[j].queue)
        invariant forall j | 0 <= j < i :: workers[j].queue == Offer(queueSize, old(workers[j].queue), e)
        invariant forall j | 0 <= j < |workers| :: !workers[j].shut
        invariant dropped == FullOnes(queueSize, queues[..i], names[..i])
      {
        OneMoreName(queueSize, queues, names, i + 1);
        var sent := workers[i].TrySend(queueSize, e);
        if !sent {
          dropped := dropped + [workers[i].name];
        }
        i := i + 1;
      }
      assert queues[..i] == queues && names[..i] == names;
    }

    /** Closes every queue; closing again changes nothing. */
    method Close()
      requires Valid()
      modifies this`closed, workers
      ensures Valid() && closed && Queues() == old(Queues()) && Names() == old(Names())
    {
      if !closed {
        closed := true;
        var i := 0;
        while i < |workers|
          invariant i <= |workers| && closed
          invariant forall j | 0 <= j < |workers| ::
                      workers[j].queue == old(workers[j].queue) && |workers[j].queue| <= queueSize
          invariant forall j | 0 <= j < |workers| :: workers[j].shut <==> j < i
        {
          workers[i].shut := true;
          i := i + 1;
        }
      }
    }
  }

  // ---------------------------------------------------------------- one call of the machine is one call of the object

  ghost function EventsOf(items: seq<Item>): seq<Event> {
    seq(|items|, i requires 0 <= i < |items| => items[i].event)
  }

  ghost function QueuesOf(s: State): seq<seq<Event>> {
    seq(|s.workers|, w requires 0 <= w < |s.workers| => EventsOf(s.workers[w].queue))
  }

  ghost function NamesOf(drops: seq<nat>, names: seq<string>): seq<string>
    requires forall i | 0 <= i < |drops| :: drops[i] < |names|
  {
    seq(|drops|, i requires 0 <= i < |drops| => names[drops[i]])
  }

  /** Call p sends n times with no other step in between. */
  ghost predicate SendsAlone(size: nat, s: State, p: nat, n: nat, s': State) {
    if n == 0 then s' == s
    else exists m :: SendsAlone(size, s, p, n - 1, m) && Next(size, m, Send(p), s')
  }

  /** Where the queues of s, and the observers call p has dropped its event for, are after n sends that led to s'. */
  ghost predicate IsSentTo(size: nat, s: State, p: nat, names: seq<string>, n: nat, s': State)
    requires p < |s.calls| && |names| == |s.workers| && n <= |s.workers|
  {
    && |s'.workers| == |s.workers| && p < |s'.calls|
    && s'.calls[p].phase.Sending? && s'.calls[p].position == n && s'.calls[p].event == s.calls[p].event
    && (forall w | 0 <= w < |s.workers| ::
          QueuesOf(s')[w] == if w < n then Offer(size, QueuesOf(s)[w], s.calls[p].event) else QueuesOf(s)[w])
    && (forall i | 0 <= i < |s'.calls[p].drops| :: s'.calls[p].drops[i] < |names|)
    && NamesOf(s'.calls[p].drops, names) == FullOnes(size, QueuesOf(s)[..n], names[..n])
  }

  /**
   * A call that nobody interrupts under the lock does to the queues what
   * Publisher.Publish does, and drops the event for the observers it names.
   */
  lemma {:induction false} PublishAlone(size: nat, s: State, p: nat, names: seq<string>, n: nat, s': State)
    requires Inv(size, s) && p < |s.calls| && s.calls[p].phase.Sending? && s.calls[p].position == 0
    requires |names| == |s.workers| && n <= |s.workers| && SendsAlone(size, s, p, n, s')
    ensures Inv(size, s') && IsSentTo(size, s, p, names, n, s')
  {
    if n == 0 {
      NothingDropped(size, s, p);
    } else {
      var m :| SendsAlone(size, s, p, n - 1, m) && Next(size, m, Send(p), s');
      PublishAlone(size, s, p, names, n - 1, m);
      StepKeeps(size, m, Send(p), s');
      OneMoreSend(size, s, p, names, n, m, s');
    }
  }

  /** Registering in the machine is registering with the object. */
  lemma RegisterAlone(size: nat, s: State, s': State)
    requires Inv(size, s) && Next(size, s, Register, s')
    ensures QueuesOf(s') == QueuesOf(s) + (if s.closed then [] else [[]]) && s'.closed == s.closed
    ensures s'.running == s.running + if s.closed then 0 else 1
  {
    assert !s.closed ==> s'.workers[..|s.workers|] == s.workers;
  }

  /** So is closing: every queue is closed, and keeps what is in it. */
  lemma CloseAlone(size: nat, s: State, s': State)
    requires Inv(size, s) && Next(size, s, CloseQueues, s')
    ensures QueuesOf(s') == QueuesOf(s) && s'.closed && forall w | 0 <= w < |s'.workers| :: s'.workers[w].shut
  {
  }

  lemma NothingDropped(size: nat, s: State, p: nat)
    requires Inv(size, s) && p < |s.calls| && s.calls[p].position == 0
    ensures s.calls[p].drops == []
  {
    assert CallOk(s, s.calls[p]);
  }

  lemma OneMoreSend(size: nat, s: State, p: nat, names: seq<string>, n: nat, m: State, s': State)
    requires p < |s.calls| && |names| == |s.workers| && 0 < n <= |s.workers|
    requires Inv(size, m) && IsSentTo(size, s, p, names, n - 1, m) && s' == Offered(size, m, p)
    ensures IsSentTo(size, s, p, names, n, s')
  {
    OneSend(size, m, p, names);
    var w := n - 1;
    assert QueuesOf(m)[w] == QueuesOf(s)[w];
    assert forall v | 0 <= v < |s.workers| ::
        QueuesOf(s')[v] == if v < n then Offer(size, QueuesOf(s)[v], s.calls[p].event) else QueuesOf(s)[v];
    OneMoreName(size, QueuesOf(s), names, n);
    NamesSnoc(m.calls[p].drops, w, names);
  }

  lemma NamesSnoc(drops: seq<nat>, w: nat, names: seq<string>)
    requires w < |names| && forall i | 0 <= i < |drops| :: drops[i] < |names|
    ensures NamesOf(drops + [w], names) == NamesOf(drops, names) + [names[w]]
  {
  }

  lemma OneMoreName(size: nat, queues: seq<seq<Event>>, names: seq<string>, n: nat)
    requires |queues| == |names| && 0 < n <= |names|
    ensures FullOnes(size, queues[..n], names[..n])
            == FullOnes(size, queues[..n - 1], names[..n - 1]) + if |queues[n - 1]| < size then [] else [names[n - 1]]
  {
    assert queues[..n][..n - 1] == queues[..n - 1] && names[..n][..n - 1] == names[..n - 1];
  }

  lemma OneSend(size: nat, m: State, p: nat, names: seq<string>)
    requires Inv(size, m) && p < |m.calls| && m.calls[p].phase.Sending? && |names| == |m.workers|
    requires m.calls[p].position < |m.workers|
    requires forall i | 0 <= i < |m.calls[p].drops| :: m.calls[p].drops[i] < |names|
    ensures var c, c' := m.calls[p], Offered(size, m, p).calls[p];
            var full := |QueuesOf(m)[c.position]| >= size;
            && (forall w | 0 <= w < |m.workers| ::
                  QueuesOf(Offered(size, m, p))[w]
                  == if w == c.position then Offer(size, QueuesOf(m)[w], c.event) else QueuesOf(m)[w])
            && c' == c.(position := c.position + 1, drops := c.drops + if full then [c.position] else [])
  {
    assert CallOk(m, m.calls[p]);
    var c := m.calls[p];
    var queue := m.workers[c.position].queue;
    assert EventsOf(queue + [Item(p, c.event)]) == EventsOf(queue) + [c.event];
  }
}
