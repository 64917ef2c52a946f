/**
 * The audit publisher under load: any number of Publish calls overlap under
 * the shared lock, one send at a time each; observers register, every
 * observer's goroutine delivers, and Close may be called at any moment.
 * Nothing below is guarded against the panics of channels and wait groups:
 * they are recorded when they happen.
 */
module AuditRuns {
  import opened Wrappers

  datatype Event = Event(ts: int, metrics: seq<string>, ip: string)

  /** An event on its way, with the number of the Publish call it comes from. */
  datatype Item = Item(call: nat, event: Event)

  /**
   * The worker of one observer: its queue, whether the channel is closed, the
   * event being delivered, those delivered, and whether its goroutine is gone.
   * accepted lists everything ever put in the queue.
   */
  datatype Worker = Worker(queue: seq<Item>, shut: bool, busy: Option<Item>, delivered: seq<Item>, exited: bool,
                           accepted: seq<Item>)

  datatype Phase = Entered | Sending | Reporting | Ended | Ignored

  /**
   * One Publish call. after holds the calls that had returned when it started.
   * Under the lock it sends to the first total workers; position is the next
   * of them. drops are the workers whose queue was full, told how many of
   * those have been reported.
   */
  datatype Call = Call(event: Event, after: set<nat>, phase: Phase, position: nat, total: nat,
                       drops: seq<nat>, told: nat)

  datatype State = State(workers: seq<Worker>, closed: bool, calls: seq<Call>,
                         running: nat, waiting: bool, done: bool, panicked: bool)

  datatype Step =
    | Register
    | Start(e: Event)
    | Lock(p: nat)
    | Send(p: nat)
    | Unlock(p: nat)
    | Report(p: nat)
    | Return(p: nat)
    | CloseQueues
    | StartWaiting
    | AllGone
    | Take(w: nat)
    | Deliver(w: nat)
    | Exit(w: nat)

  const NEW_WORKER := Worker([], false, None, [], false, [])

  /** Nobody holds the lock shared, so it can be had exclusively. */
  ghost predicate NoReaders(s: State) {
    forall p | 0 <= p < |s.calls| :: !s.calls[p].phase.Sending?
  }

  ghost function Returned(s: State): set<nat> {
    set p: nat | p < |s.calls| && (s.calls[p].phase.Ended? || s.calls[p].phase.Ignored?)
  }

  ghost function WithCall(s: State, p: nat, c: Call): State
    requires p < |s.calls|
  {
    s.(calls := s.calls[p := c])
  }

  ghost function WithWorker(s: State, w: nat, k: Worker): State
    requires w < |s.workers|
  {
    s.(workers := s.workers[w := k])
  }

  ghost function AllShut(ws: seq<Worker>): seq<Worker> {
    seq(|ws|, i requires 0 <= i < |ws| => ws[i].(shut := true))
  }

  ghost function Filled(k: Worker, item: Item): Worker {
    k.(queue := k.queue + [item], accepted := k.accepted + [item])
  }

  /** The next worker takes the event of call p in its queue. */
  ghost function Accepted(s: State, p: nat): State
    requires p < |s.calls| && s.calls[p].position < |s.workers|
  {
    var c := s.calls[p];
    WithCall(WithWorker(s, c.position, Filled(s.workers[c.position], Item(p, c.event))),
             p, c.(position := c.position + 1))
  }

  /** The select of Publish: the event is queued if there is room and dropped if there is none. */
  ghost function Offered(size: nat, s: State, p: nat): State
    requires p < |s.calls| && s.calls[p].position < |s.workers|
  {
    var c := s.calls[p];
    var k := s.workers[c.position];
    if k.shut then
      s.(panicked := true)
    else if |k.queue| < size then
      Accepted(s, p)
    else
      WithCall(s, p, c.(position := c.position + 1, drops := c.drops + [c.position]))
  }

  ghost predicate Next(size: nat, s: State, step: Step, s': State) {
    match step
    case Register =>
      && NoReaders(s)
      && s' == if s.closed then s
               else s.(workers := s.workers + [NEW_WORKER], running := s.running + 1,
                       panicked := s.panicked || s.waiting)
    case Start(e) => s' == s.(calls := s.calls + [Call(e, Returned(s), Entered, 0, 0, [], 0)])
    case Lock(p) =>
      && p < |s.calls| && s.calls[p].phase.Entered?
      && s' == WithCall(s, p, if s.closed then s.calls[p].(phase := Ignored)
                              else s.calls[p].(phase := Sending, total := |s.workers|))
    case Send(p) =>
      && p < |s.calls| && s.calls[p].phase.Sending? && s.calls[p].position < s.calls[p].total
      && s.calls[p].position < |s.workers| && s' == Offered(size, s, p)
    case Unlock(p) =>
      && p < |s.calls| && s.calls[p].phase.Sending? && s.calls[p].position == s.calls[p].total
      && s' == WithCall(s, p, s.calls[p].(phase := Reporting))
    case Report(p) =>
      && p < |s.calls| && s.calls[p].phase.Reporting? && s.calls[p].told < |s.calls[p].drops|
      && s' == WithCall(s, p, s.calls[p].(told := s.calls[p].told + 1))
    case Return(p) =>
      && p < |s.calls| && s.calls[p].phase.Reporting? && s.calls[p].told == |s.calls[p].drops|
      && s' == WithCall(s, p, s.calls[p].(phase := Ended))
    case CloseQueues =>
      && NoReaders(s)
      && s' == if s.closed then s
               else s.(closed := true, workers := AllShut(s.workers),
                       panicked := s.panicked || exists w :: 0 <= w < |s.workers| && s.workers[w].shut)
    case StartWaiting => s.closed && s' == s.(waiting := true)
    case AllGone => s.waiting && s.running == 0 && s' == s.(done := true)
    case Take(w) =>
      && w < |s.workers| && !s.workers[w].exited && s.workers[w].busy.None? && s.workers[w].queue != []
      && s' == WithWorker(s, w, s.workers[w].(busy := Some(s.workers[w].queue[0]), queue := s.workers[w].queue[1..]))
    case Deliver(w) =>
      && w < |s.workers| && s.workers[w].busy.Some?
      && var done := s.workers[w].delivered + [s.workers[w].busy.value];
      && s' == WithWorker(s, w, s.workers[w].(busy := None, delivered := done))
    case Exit(w) =>
      && w < |s.workers| && !s.workers[w].exited && s.workers[w].busy.None? && s.workers[w].queue == []
      && s.workers[w].shut
      && s' == if s.running == 0 then s.(panicked := true)
               else WithWorker(s, w, s.workers[w].(exited := true)).(running := s.running - 1)
  }

  ghost predicate Init(s: State) {
    s == State([], false, [], 0, false, false, false)
  }

  ghost predicate IsRun(size: nat, states: seq<State>, steps: seq<Step>) {
    && 0 < size && |states| == |steps| + 1 && Init(states[0])
    && forall n | 0 <= n < |steps| :: IsEdge(size, states, steps, n)
  }

  ghost predicate IsEdge(size: nat, states: seq<State>, steps: seq<Step>, n: nat)
    requires |states| == |steps| + 1 && n < |steps|
  {
    Next(size, states[n], steps[n], states[n + 1])
  }

  // ---------------------------------------------------------------- invariant

  ghost function Pending(k: Worker): seq<Item> {
    (if k.busy.Some? then [k.busy.value] else []) + k.queue
  }

  ghost predicate WorkerOk(size: nat, k: Worker) {
    && k.accepted == k.delivered + Pending(k) && |k.queue| <= size
    && (k.exited ==> k.shut && k.queue == [] && k.busy.None?)
  }

  /** How many goroutines are still there. */
  ghost function Alive(ws: seq<Worker>): nat {
    if ws == [] then 0 else Alive(ws[..|ws| - 1]) + if ws[|ws| - 1].exited then 0 else 1
  }

  ghost predicate LifeOk(s: State) {
    && (forall w | 0 <= w < |s.workers| :: s.workers[w].shut <==> s.closed)
    && s.running == Alive(s.workers) && (s.waiting ==> s.closed) && (s.done ==> s.waiting && s.running == 0)
    && !s.panicked
  }

  ghost predicate CallOk(s: State, c: Call) {
    && c.position <= c.total <= |s.workers| && c.told <= |c.drops| <= c.position
    && (forall i | 0 <= i < |c.drops| :: c.drops[i] < c.position)
    && (forall i, j | 0 <= i < j < |c.drops| :: c.drops[i] < c.drops[j])
    && c.after <= Returned(s)
    && match c.phase
       case Entered => c.position == 0 && c.total == 0
       case Sending => !s.closed && c.total == |s.workers|
       case Reporting => c.position == c.total
       case Ended => c.position == c.total && c.told == |c.drops|
       case Ignored => s.closed && c.position == 0 && c.total == 0
  }

  /** The number of events of one call in a list. */
  ghost function Times(items: seq<Item>, p: nat): nat {
    if items == [] then 0 else Times(items[..|items| - 1], p) + if items[|items| - 1].call == p then 1 else 0
  }

  /** Call p has dealt with worker w: accepted once or dropped once, never both. */
  ghost predicate Accounted(s: State, w: nat, p: nat)
    requires w < |s.workers| && p < |s.calls|
  {
    Times(s.workers[w].accepted, p) + (if w in s.calls[p].drops then 1 else 0)
    == if w < s.calls[p].position then 1 else 0
  }

  /** Everything accepted comes from a call, and no call came after a later one had started only once it was over. */
  ghost predicate InOrder(s: State, k: Worker) {
    && (forall i | 0 <= i < |k.accepted| ::
          && k.accepted[i].call < |s.calls| && k.accepted[i].event == s.calls[k.accepted[i].call].event)
    && (forall i, j | 0 <= i < j < |k.accepted| :: k.accepted[j].call !in s.calls[k.accepted[i].call].after)
  }

  ghost predicate Inv(size: nat, s: State) {
    && LifeOk(s)
    && (forall w | 0 <= w < |s.workers| :: WorkerOk(size, s.workers[w]) && InOrder(s, s.workers[w]))
    && (forall p | 0 <= p < |s.calls| :: CallOk(s, s.calls[p]))
    && (forall w, p | 0 <= w < |s.workers| && 0 <= p < |s.calls| :: Accounted(s, w, p))
  }

  // ---------------------------------------------------------------- every step keeps it

  predicate IsOver(c: Call) {
    c.phase.Ended? || c.phase.Ignored?
  }

  lemma TimesSnoc(items: seq<Item>, item: Item, p: nat)
    ensures Times(items + [item], p) == Times(items, p) + if item.call == p then 1 else 0
  {
    assert (items + [item])[..|items + [item]| - 1] == items;
  }

  lemma {:induction false} TimesAbsent(items: seq<Item>, p: nat)
    requires forall i | 0 <= i < |items| :: items[i].call != p
    ensures Times(items, p) == 0
  {
    if items != [] {
      TimesAbsent(items[..|items| - 1], p);
    }
  }

  lemma {:induction false} AliveUpdate(ws: seq<Worker>, w: nat, k: Worker)
    requires w < |ws|
    ensures Alive(ws[w := k]) == Alive(ws) - (if ws[w].exited then 0 else 1) + (if k.exited then 0 else 1)
  {
    var front := ws[..|ws| - 1];
    if w == |front| {
      assert ws[w := k][..|front|] == front;
    } else {
      assert ws[w := k][..|front|] == front[w := k];
      AliveUpdate(front, w, k);
    }
  }

  lemma {:induction false} AliveOfShut(ws: seq<Worker>)
    ensures Alive(AllShut(ws)) == Alive(ws)
  {
    if ws != [] {
      AliveOfShut(ws[..|ws| - 1]);
      assert AllShut(ws)[..|ws| - 1] == AllShut(ws[..|ws| - 1]);
    }
  }

  /** A call moves on without touching a queue. */
  lemma CallMoves(size: nat, s: State, p: nat, c: Call)
    requires Inv(size, s) && p < |s.calls|
    requires c.event == s.calls[p].event && c.after == s.calls[p].after && c.position == s.calls[p].position
    requires c.drops == s.calls[p].drops
    requires IsOver(s.calls[p]) ==> IsOver(c)
    requires CallOk(WithCall(s, p, c), c)
    ensures Inv(size, WithCall(s, p, c))
  {
    var s' := WithCall(s, p, c);
    assert Returned(s) <= Returned(s');
    forall q | 0 <= q < |s'.calls|
      ensures CallOk(s', s'.calls[q])
    {
      assert q != p ==> CallOk(s, s.calls[q]);
    }
    forall w, q | 0 <= w < |s'.workers| && 0 <= q < |s'.calls|
      ensures Accounted(s', w, q)
    {
      assert Accounted(s, w, q);
    }
  }

  lemma RegisterKeeps(size: nat, s: State, s': State)
    requires Inv(size, s) && Next(size, s, Register, s')
    ensures Inv(size, s')
  {
    if !s.closed {
      assert s'.workers[..|s'.workers| - 1] == s.workers;
      assert Returned(s') == Returned(s);
      forall w | 0 <= w < |s'.workers|
        ensures WorkerOk(size, s'.workers[w]) && InOrder(s', s'.workers[w])
      {
        assert w < |s.workers| ==> WorkerOk(size, s.workers[w]) && InOrder(s, s.workers[w]);
      }
      forall q | 0 <= q < |s'.calls|
        ensures CallOk(s', s'.calls[q])
      {
        assert CallOk(s, s.calls[q]);
      }
      RegisterAccounted(size, s, s');
    }
  }

  lemma RegisterAccounted(size: nat, s: State, s': State)
    requires Inv(size, s) && s'.calls == s.calls && s'.workers == s.workers + [NEW_WORKER]
    ensures forall w, q | 0 <= w < |s'.workers| && 0 <= q < |s'.calls| :: Accounted(s', w, q)
  {
    forall w, q | 0 <= w < |s'.workers| && 0 <= q < |s'.calls|
      ensures Accounted(s', w, q)
    {
      assert CallOk(s, s.calls[q]);
      assert w < |s.workers| ==> Accounted(s, w, q);
    }
  }

  lemma StartKeeps(size: nat, s: State, e: Event, s': State)
    requires Inv(size, s) && Next(size, s, Start(e), s')
    ensures Inv(size, s')
  {
    var newest := |s.calls|;
    assert Returned(s) <= Returned(s');
    forall w, q | 0 <= w < |s'.workers| && 0 <= q < |s'.calls|
      ensures Accounted(s', w, q)
    {
      if q == newest {
        assert InOrder(s, s.workers[w]);
        TimesAbsent(s.workers[w].accepted, newest);
      } else {
        assert Accounted(s, w, q);
      }
    }
    forall q | 0 <= q < |s'.calls|
      ensures CallOk(s', s'.calls[q])
    {
      assert q < newest ==> CallOk(s, s.calls[q]);
    }
    forall w | 0 <= w < |s'.workers|
      ensures InOrder(s', s'.workers[w])
    {
      assert InOrder(s, s.workers[w]);
    }
  }

  /** No call that is still sending had returned before another started. */
  lemma AppendedInOrder(s: State, k: Worker, item: Item)
    requires InOrder(s, k) && item.call < |s.calls| && s.calls[item.call].phase.Sending?
    requires item.event == s.calls[item.call].event
    requires forall p | 0 <= p < |s.calls| :: s.calls[p].after <= Returned(s)
    ensures InOrder(s, Filled(k, item))
  {
    assert item.call !in Returned(s);
  }

  lemma AcceptAccounted(s: State, p: nat, w: nat, q: nat)
    requires p < |s.calls| && q < |s.calls| && w < |s.workers| && s.calls[p].position < |s.workers|
    requires Accounted(s, w, q)
    ensures Accounted(Accepted(s, p), w, q)
  {
    TimesSnoc(s.workers[s.calls[p].position].accepted, Item(p, s.calls[p].event), q);
  }

  lemma AcceptKeepsWorkers(size: nat, s: State, p: nat, w: nat)
    requires Inv(size, s) && p < |s.calls| && s.calls[p].phase.Sending? && s.calls[p].position < s.calls[p].total
    requires w < |s.workers|
    requires s.calls[p].position < |s.workers| && |s.workers[s.calls[p].position].queue| < size && !s.closed
    ensures WorkerOk(size, Accepted(s, p).workers[w]) && InOrder(Accepted(s, p), Accepted(s, p).workers[w])
  {
    var c := s.calls[p];
    assert WorkerOk(size, s.workers[w]) && InOrder(s, s.workers[w]);
    forall q | 0 <= q < |s.calls|
      ensures s.calls[q].after <= Returned(s)
    {
      assert CallOk(s, s.calls[q]);
    }
    AppendedInOrder(s, s.workers[c.position], Item(p, c.event));
  }

  lemma AcceptKeeps(size: nat, s: State, p: nat)
    requires Inv(size, s) && p < |s.calls| && s.calls[p].phase.Sending? && s.calls[p].position < s.calls[p].total
    requires s.calls[p].position < |s.workers| && |s.workers[s.calls[p].position].queue| < size && !s.closed
    ensures Inv(size, Accepted(s, p))
  {
    var s', c := Accepted(s, p), s.calls[p];
    assert Returned(s') == Returned(s);
    AliveUpdate(s.workers, c.position, s'.workers[c.position]);
    forall w | 0 <= w < |s'.workers|
      ensures WorkerOk(size, s'.workers[w]) && InOrder(s', s'.workers[w])
    {
      AcceptKeepsWorkers(size, s, p, w);
    }
    forall q | 0 <= q < |s'.calls|
      ensures CallOk(s', s'.calls[q])
    {
      assert CallOk(s, s.calls[q]);
    }
    forall w, q | 0 <= w < |s'.workers| && 0 <= q < |s'.calls|
      ensures Accounted(s', w, q)
    {
      assert Accounted(s, w, q);
      AcceptAccounted(s, p, w, q);
    }
  }

  /** The queue of the next worker is full. */
  lemma DropKeeps(size: nat, s: State, p: nat)
    requires Inv(size, s) && p < |s.calls| && s.calls[p].phase.Sending? && s.calls[p].position < s.calls[p].total
    requires !s.workers[s.calls[p].position].shut && |s.workers[s.calls[p].position].queue| >= size
    ensures Inv(size, Offered(size, s, p))
  {
    var s', c := Offered(size, s, p), s.calls[p];
    assert CallOk(s, c);
    assert Returned(s') == Returned(s);
    forall q | 0 <= q < |s'.calls|
      ensures CallOk(s', s'.calls[q])
    {
      assert CallOk(s, s.calls[q]);
    }
    forall w, q | 0 <= w < |s'.workers| && 0 <= q < |s'.calls|
      ensures Accounted(s', w, q)
    {
      assert Accounted(s, w, q);
      assert q == p ==> (w in s'.calls[q].drops <==> w in c.drops || w == c.position);
    }
  }

  lemma SendKeeps(size: nat, s: State, p: nat)
    requires Inv(size, s) && p < |s.calls| && s.calls[p].phase.Sending? && s.calls[p].position < s.calls[p].total
    ensures Inv(size, Offered(size, s, p))
  {
    assert CallOk(s, s.calls[p]);
    if |s.workers[s.calls[p].position].queue| < size {
      AcceptKeeps(size, s, p);
    } else {
      DropKeeps(size, s, p);
    }
  }

  lemma CloseKeeps(size: nat, s: State, s': State)
    requires Inv(size, s) && Next(size, s, CloseQueues, s')
    ensures Inv(size, s')
  {
    if !s.closed {
      AliveOfShut(s.workers);
      assert Returned(s') == Returned(s);
      forall w | 0 <= w < |s'.workers|
        ensures WorkerOk(size, s'.workers[w]) && InOrder(s', s'.workers[w])
      {
        assert WorkerOk(size, s.workers[w]) && InOrder(s, s.workers[w]);
      }
      forall q | 0 <= q < |s'.calls|
        ensures CallOk(s', s'.calls[q])
      {
        assert CallOk(s, s.calls[q]);
      }
      forall w, q | 0 <= w < |s'.workers| && 0 <= q < |s'.calls|
        ensures Accounted(s', w, q)
      {
        assert Accounted(s, w, q);
      }
    }
  }

  /** A worker moves on with what it has accepted. */
  lemma WorkerMoves(size: nat, s: State, w: nat, k: Worker, running: nat)
    requires Inv(size, s) && w < |s.workers|
    requires k.accepted == s.workers[w].accepted && k.shut == s.workers[w].shut && WorkerOk(size, k)
    requires running == s.running - (if s.workers[w].exited then 0 else 1) + (if k.exited then 0 else 1)
    requires s.workers[w].exited ==> k.exited
    ensures Inv(size, WithWorker(s, w, k).(running := running))
  {
    var s' := WithWorker(s, w, k).(running := running);
    AliveUpdate(s.workers, w, k);
    assert Returned(s') == Returned(s);
    forall v | 0 <= v < |s'.workers|
      ensures WorkerOk(size, s'.workers[v]) && InOrder(s', s'.workers[v])
    {
      assert WorkerOk(size, s.workers[v]) && InOrder(s, s.workers[v]);
    }
    forall q | 0 <= q < |s'.calls|
      ensures CallOk(s', s'.calls[q])
    {
      assert CallOk(s, s.calls[q]);
    }
    forall v, q | 0 <= v < |s'.workers| && 0 <= q < |s'.calls|
      ensures Accounted(s', v, q)
    {
      assert Accounted(s, v, q);
    }
  }

  lemma {:induction false} AliveMeansRunning(ws: seq<Worker>, w: nat)
    requires w < |ws| && !ws[w].exited
    ensures 0 < Alive(ws)
  {
    if w < |ws| - 1 {
      AliveMeansRunning(ws[..|ws| - 1], w);
    }
  }

  lemma LockKeeps(size: nat, s: State, p: nat, s': State)
    requires Inv(size, s) && Next(size, s, Lock(p), s')
    ensures Inv(size, s')
  {
    assert CallOk(s, s.calls[p]);
    CallMoves(size, s, p, s'.calls[p]);
  }

  /** Under the lock no more, a call unlocks, reports or returns. */
  lemma CallStepKeeps(size: nat, s: State, step: Step, s': State)
    requires Inv(size, s) && Next(size, s, step, s')
    requires step.Unlock? || step.Report? || step.Return?
    ensures Inv(size, s')
  {
    assert CallOk(s, s.calls[step.p]);
    CallMoves(size, s, step.p, s'.calls[step.p]);
  }

  lemma TakeKeeps(size: nat, s: State, w: nat, s': State)
    requires Inv(size, s) && Next(size, s, Take(w), s')
    ensures Inv(size, s')
  {
    var k := s.workers[w];
    assert WorkerOk(size, k);
    var k' := k.(busy := Some(k.queue[0]), queue := k.queue[1..]);
    assert Pending(k') == Pending(k);
    WorkerMoves(size, s, w, k', s.running);
  }

  lemma DeliverKeeps(size: nat, s: State, w: nat, s': State)
    requires Inv(size, s) && Next(size, s, Deliver(w), s')
    ensures Inv(size, s')
  {
    var k := s.workers[w];
    assert WorkerOk(size, k);
    WorkerMoves(size, s, w, k.(busy := None, delivered := k.delivered + [k.busy.value]), s.running);
  }

  lemma ExitKeeps(size: nat, s: State, w: nat, s': State)
    requires Inv(size, s) && Next(size, s, Exit(w), s')
    ensures Inv(size, s')
  {
    assert WorkerOk(size, s.workers[w]);
    AliveMeansRunning(s.workers, w);
    WorkerMoves(size, s, w, s.workers[w].(exited := true), s.running - 1);
  }

  lemma StepKeeps(size: nat, s: State, step: Step, s': State)
    requires Inv(size, s) && Next(size, s, step, s')
    ensures Inv(size, s')
  {
    match step
    case Register => RegisterKeeps(size, s, s');
    case Start(e) => StartKeeps(size, s, e, s');
    case Lock(p) => LockKeeps(size, s, p, s');
    case Send(p) => SendKeeps(size, s, p);
    case CloseQueues => CloseKeeps(size, s, s');
    case StartWaiting => UncalledKeeps(size, s, s');
    case AllGone => UncalledKeeps(size, s, s');
    case Take(w) => TakeKeeps(size, s, w, s');
    case Deliver(w) => DeliverKeeps(size, s, w, s');
    case Exit(w) => ExitKeeps(size, s, w, s');
    case _ => CallStepKeeps(size, s, step, s');
  }

  lemma UncalledKeeps(size: nat, s: State, s': State)
    requires Inv(size, s) && LifeOk(s')
    requires s' == s.(waiting := s'.waiting, done := s'.done)
    ensures Inv(size, s')
  {
    assert Returned(s') == Returned(s);
    forall q | 0 <= q < |s'.calls|
      ensures CallOk(s', s'.calls[q])
    {
      assert CallOk(s, s.calls[q]);
    }
    forall w | 0 <= w < |s'.workers|
      ensures InOrder(s', s'.workers[w])
    {
      assert InOrder(s, s.workers[w]);
    }
    forall w, q | 0 <= w < |s'.workers| && 0 <= q < |s'.calls|
      ensures Accounted(s', w, q)
    {
      assert Accounted(s, w, q);
    }
  }

  lemma {:induction false} RunKeeps(size: nat, states: seq<State>, steps: seq<Step>, n: nat)
    requires IsRun(size, states, steps) && n <= |steps|
    ensures Inv(size, states[n])
  {
    if n > 0 {
      RunKeeps(size, states, steps, n - 1);
      assert IsEdge(size, states, steps, n - 1);
      StepKeeps(size, states[n - 1], steps[n - 1], states[n]);
    }
  }

  // ---------------------------------------------------------------- what it means

  /** No run sends on a closed queue, closes one twice, or touches the wait group wrongly. */
  lemma NeverPanics(size: nat, states: seq<State>, steps: seq<Step>, n: nat)
    requires IsRun(size, states, steps) && n <= |steps|
    ensures !states[n].panicked
    ensures states[n].waiting && n < |steps| ==> |states[n + 1].workers| == |states[n].workers|
  {
    RunKeeps(size, states, steps, n);
    assert n < |steps| ==> IsEdge(size, states, steps, n);
  }

  /**
   * Every observer gets its events first in, first out: what it was delivered,
   * what it is being delivered and what is queued are, in this order, the
   * events it accepted; and the queue keeps its bound.
   */
  lemma DeliveredInOrder(size: nat, states: seq<State>, steps: seq<Step>, n: nat, w: nat)
    requires IsRun(size, states, steps) && n <= |steps| && w < |states[n].workers|
    ensures var k := states[n].workers[w];
            k.accepted == k.delivered + Pending(k) && |k.queue| <= size
  {
    RunKeeps(size, states, steps, n);
  }

  /**
   * If one Publish call had returned before another started, no observer gets
   * their events the other way round, whatever other calls do in between.
   */
  lemma PublishOrderKept(size: nat, states: seq<State>, steps: seq<Step>, n: nat, w: nat, i: nat, j: nat)
    requires IsRun(size, states, steps) && n <= |steps| && w < |states[n].workers|
    requires i < |states[n].workers[w].accepted| && j < |states[n].workers[w].accepted|
    requires states[n].workers[w].accepted[j].call < |states[n].calls|
    requires states[n].workers[w].accepted[i].call in states[n].calls[states[n].workers[w].accepted[j].call].after
    ensures i < j
  {
    RunKeeps(size, states, steps, n);
    var s := states[n];
    var k := s.workers[w];
    assert InOrder(s, k);
    if i == j {
      var p := k.accepted[i].call;
      OwnStartIsNotAfter(size, states, steps, n, p);
    }
  }

  /** What a call had to come after is settled when it starts. */
  lemma StartsAreSettled(size: nat, s: State, step: Step, s': State, p: nat)
    requires Next(size, s, step, s') && p < |s'.calls|
    ensures s'.calls[p].after == if p < |s.calls| then s.calls[p].after else Returned(s)
  {
    if step.Send? {
      SendingSettlesNothing(size, s, step.p, p);
    }
  }

  lemma SendingSettlesNothing(size: nat, s: State, q: nat, p: nat)
    requires q < |s.calls| && s.calls[q].position < |s.workers| && p < |s.calls|
    ensures |Offered(size, s, q).calls| == |s.calls| && Offered(size, s, q).calls[p].after == s.calls[p].after
  {
  }

  /** A call has not returned before it started. */
  lemma {:induction false} OwnStartIsNotAfter(size: nat, states: seq<State>, steps: seq<Step>, n: nat, p: nat)
    requires IsRun(size, states, steps) && n <= |steps| && p < |states[n].calls|
    ensures p !in states[n].calls[p].after
  {
    if n > 0 {
      assert IsEdge(size, states, steps, n - 1);
      StartsAreSettled(size, states[n - 1], steps[n - 1], states[n], p);
      if p < |states[n - 1].calls| {
        OwnStartIsNotAfter(size, states, steps, n - 1, p);
      }
    }
  }

  /**
   * Every call that got past the lock is accounted for with each of the
   * observers registered then: its event was accepted exactly once or dropped
   * exactly once, never both, and once the call has returned every drop has
   * been reported. Observers registered later get nothing of it, and a call
   * that found the publisher closed reaches nobody.
   */
  lemma EveryEventAccountedFor(size: nat, states: seq<State>, steps: seq<Step>, n: nat, w: nat, p: nat)
    requires IsRun(size, states, steps) && n <= |steps| && w < |states[n].workers| && p < |states[n].calls|
    ensures var s := states[n];
            var c, accepted := s.calls[p], Times(s.workers[w].accepted, p);
            && (c.phase.Reporting? || c.phase.Ended? ==>
                  if w < c.total then accepted == 1 <==> w !in c.drops else accepted == 0)
            && accepted <= 1
            && (c.phase.Ended? ==> c.told == |c.drops|)
            && (forall a, b | 0 <= a < b < |c.drops| :: c.drops[a] != c.drops[b])
            && (c.phase.Ignored? ==> s.closed && accepted == 0 && c.drops == [])
  {
    RunKeeps(size, states, steps, n);
    var c := states[n].calls[p];
    assert Accounted(states[n], w, p) && CallOk(states[n], c);
  }

  /** Once a call is past the lock, which observers it sends to is settled. */
  lemma TotalIsSettled(size: nat, s: State, step: Step, s': State, p: nat)
    requires Next(size, s, step, s') && p < |s.calls| && IsPast(s.calls[p])
    ensures p < |s'.calls| && IsPast(s'.calls[p]) && s'.calls[p].total == s.calls[p].total
  {
    if step.Send? {
      SendingKeepsTotal(size, s, step.p, p);
    }
  }

  lemma SendingKeepsTotal(size: nat, s: State, q: nat, p: nat)
    requires q < |s.calls| && s.calls[q].position < |s.workers| && p < |s.calls|
    ensures var s' := Offered(size, s, q);
            |s'.calls| == |s.calls| && s'.calls[p].phase == s.calls[p].phase && s'.calls[p].total == s.calls[p].total
  {
  }

  /** The call took the lock of an open publisher. */
  predicate IsPast(c: Call) {
    c.phase.Sending? || c.phase.Reporting? || c.phase.Ended?
  }

  /** A call that takes the lock of an open publisher sends to the observers registered at that moment. */
  lemma {:induction false} LockSettlesTotal(size: nat, states: seq<State>, steps: seq<Step>, m: nat, n: nat, p: nat)
    requires IsRun(size, states, steps) && m < n <= |steps| && steps[m] == Lock(p) && !states[m].closed
    ensures p < |states[n].calls| && IsPast(states[n].calls[p])
    ensures states[n].calls[p].total == |states[m].workers|
  {
    assert IsEdge(size, states, steps, n - 1);
    if m < n - 1 {
      LockSettlesTotal(size, states, steps, m, n - 1, p);
      TotalIsSettled(size, states[n - 1], steps[n - 1], states[n], p);
    }
  }

  /**
   * From the moment step m took the lock of an open publisher: once call p has
   * released it, each of the observers registered at step m has accepted its
   * event exactly once or is among the drops, never both; observers registered
   * later get nothing of it.
   */
  lemma EveryObserverIsServed(size: nat, states: seq<State>, steps: seq<Step>, m: nat, n: nat, p: nat, w: nat)
    requires IsRun(size, states, steps) && m < n <= |steps| && steps[m] == Lock(p) && !states[m].closed
    requires w < |states[n].workers|
    ensures p < |states[n].calls|
    ensures var c, accepted := states[n].calls[p], Times(states[n].workers[w].accepted, p);
            c.phase.Reporting? || c.phase.Ended? ==>
              if w < |states[m].workers| then accepted == if w in c.drops then 0 else 1 else accepted == 0
  {
    LockSettlesTotal(size, states, steps, m, n, p);
    EveryEventAccountedFor(size, states, steps, n, w, p);
  }

  /** A send drops the event exactly when the queue of the next observer is full, and queues it otherwise. */
  lemma SendDropsExactlyWhenFull(size: nat, s: State, p: nat, s': State)
    requires Inv(size, s) && Next(size, s, Send(p), s')
    ensures var c, c' := s.calls[p], s'.calls[p];
            var k, k' := s.workers[c.position], s'.workers[c.position];
            && (|k.queue| == size <==> c'.drops == c.drops + [c.position])
            && (|k.queue| < size <==> k'.queue == k.queue + [Item(p, c.event)])
            && (forall w | 0 <= w < |s.workers| && w != c.position :: s'.workers[w] == s.workers[w])
  {
    var c := s.calls[p];
    assert CallOk(s, c) && WorkerOk(size, s.workers[c.position]);
  }

  /** The step a call that is not over makes next. */
  ghost function StepOf(c: Call, p: nat): Step
    requires !IsOver(c)
  {
    match c.phase
    case Entered => Lock(p)
    case Sending => if c.position < c.total then Send(p) else Unlock(p)
    case _ => if c.told < |c.drops| then Report(p) else Return(p)
  }

  /**
   * Publishing never blocks: whatever the queues hold and whoever else is at
   * it, a call that is not over has its next step to make.
   */
  lemma PublishNeverBlocks(size: nat, states: seq<State>, steps: seq<Step>, n: nat, p: nat) returns (s': State)
    requires IsRun(size, states, steps) && n <= |steps| && p < |states[n].calls| && !IsOver(states[n].calls[p])
    ensures Next(size, states[n], StepOf(states[n].calls[p], p), s')
  {
    RunKeeps(size, states, steps, n);
    var s, c := states[n], states[n].calls[p];
    assert CallOk(s, c);
    if c.phase.Entered? {
      s' := WithCall(s, p, if s.closed then c.(phase := Ignored) else c.(phase := Sending, total := |s.workers|));
    } else if c.phase.Sending? {
      s' := if c.position < c.total then Offered(size, s, p) else WithCall(s, p, c.(phase := Reporting));
    } else {
      s' := WithCall(s, p, if c.told < |c.drops| then c.(told := c.told + 1) else c.(phase := Ended));
    }
  }

  lemma {:induction false} NobodyAlive(ws: seq<Worker>, w: nat)
    requires Alive(ws) == 0 && w < |ws|
    ensures ws[w].exited
  {
    if w < |ws| - 1 {
      NobodyAlive(ws[..|ws| - 1], w);
    }
  }

  /**
   * Close returns nil only when the queues are drained: every event an
   * observer accepted has then been delivered to it exactly once, in order,
   * so a call that is over was delivered exactly where it did not report a drop.
   */
  lemma CloseNilMeansDelivered(size: nat, states: seq<State>, steps: seq<Step>, n: nat, w: nat)
    requires IsRun(size, states, steps) && n <= |steps| && states[n].done && w < |states[n].workers|
    ensures states[n].workers[w].delivered == states[n].workers[w].accepted
    ensures forall p: nat | p < |states[n].calls| && IsOver(states[n].calls[p]) ::
              Times(states[n].workers[w].delivered, p)
              == if w < states[n].calls[p].total && w !in states[n].calls[p].drops then 1 else 0
  {
    RunKeeps(size, states, steps, n);
    var s := states[n];
    var k := s.workers[w];
    NobodyAlive(s.workers, w);
    assert WorkerOk(size, k);
    assert k.delivered == k.accepted;
    forall p: nat | p < |s.calls| && IsOver(s.calls[p])
      ensures Times(k.delivered, p) == if w < s.calls[p].total && w !in s.calls[p].drops then 1 else 0
    {
      assert Accounted(s, w, p) && CallOk(s, s.calls[p]);
    }
  }

  /**
   * So a call that took the lock at step m is over by then only with its event
   * delivered once to each of the observers registered at step m, but for
   * those it reported a drop for.
   */
  lemma CloseNilMeansServedAreDelivered(size: nat, states: seq<State>, steps: seq<Step>, m: nat, n: nat, p: nat, w: nat)
    requires IsRun(size, states, steps) && m < n <= |steps| && steps[m] == Lock(p) && !states[m].closed
    requires states[n].done && w < |states[n].workers| && p < |states[n].calls| && IsOver(states[n].calls[p])
    ensures Times(states[n].workers[w].delivered, p)
            == if w < |states[m].workers| && w !in states[n].calls[p].drops then 1 else 0
  {
    LockSettlesTotal(size, states, steps, m, n, p);
    CloseNilMeansDelivered(size, states, steps, n, w);
  }

  /** A call that starts at step m comes after all calls that are over by then. */
  lemma {:induction false} StartSettlesAfter(size: nat, states: seq<State>, steps: seq<Step>, m: nat, n: nat, p: nat)
    requires IsRun(size, states, steps) && m < n <= |steps| && steps[m].Start?
    requires p < |states[m].calls| && IsOver(states[m].calls[p])
    ensures var q := |states[m].calls|; q < |states[n].calls| && p in states[n].calls[q].after
  {
    var q := |states[m].calls|;
    assert IsEdge(size, states, steps, n - 1);
    if m < n - 1 {
      StartSettlesAfter(size, states, steps, m, n - 1, p);
      CallsStay(size, states[n - 1], steps[n - 1], states[n]);
      StartsAreSettled(size, states[n - 1], steps[n - 1], states[n], q);
    }
  }

  lemma CallsStay(size: nat, s: State, step: Step, s': State)
    requires Next(size, s, step, s')
    ensures |s.calls| <= |s'.calls|
  {
    if step.Send? {
      SendingSettlesNothing(size, s, step.p, step.p);
    }
  }

  /**
   * From the callers' side: a call that starts at step m, when another is
   * over, is behind it in every queue both get into.
   */
  lemma LaterCallsComeLater(size: nat, states: seq<State>, steps: seq<Step>, m: nat, n: nat, p: nat, w: nat, i: nat,
                            j: nat)
    requires IsRun(size, states, steps) && m < n <= |steps| && steps[m].Start?
    requires p < |states[m].calls| && IsOver(states[m].calls[p])
    requires w < |states[n].workers| && i < |states[n].workers[w].accepted| && j < |states[n].workers[w].accepted|
    requires states[n].workers[w].accepted[i].call == p
    requires states[n].workers[w].accepted[j].call == |states[m].calls|
    ensures i < j
  {
    StartSettlesAfter(size, states, steps, m, n, p);
    PublishOrderKept(size, states, steps, n, w, i, j);
  }

  // ---------------------------------------------------------------- the queues drain

  /** The steps a worker still has to make: two for a queued event, one for the event in delivery, one to leave. */
  ghost function Work(ws: seq<Worker>): nat {
    if ws == [] then 0 else Work(ws[..|ws| - 1]) + Left(ws[|ws| - 1])
  }

  ghost function Left(k: Worker): nat {
    2 * |k.queue| + (if k.busy.Some? then 1 else 0) + (if k.exited then 0 else 1)
  }

  lemma {:induction false} WorkUpdate(ws: seq<Worker>, w: nat, k: Worker)
    requires w < |ws|
    ensures Work(ws[w := k]) == Work(ws) - Left(ws[w]) + Left(k)
  {
    var front := ws[..|ws| - 1];
    if w == |front| {
      assert ws[w := k][..|front|] == front;
    } else {
      assert ws[w := k][..|front|] == front[w := k];
      WorkUpdate(front, w, k);
    }
  }

  predicate IsWorkerStep(step: Step) {
    step.Take? || step.Deliver? || step.Exit?
  }

  /** Once closed, the work left only shrinks: by one with every step of a worker, and no other step adds to it. */
  lemma WorkShrinks(size: nat, s: State, step: Step, s': State)
    requires Inv(size, s) && s.closed && Next(size, s, step, s')
    ensures s'.closed && Work(s'.workers) == Work(s.workers) - if IsWorkerStep(step) then 1 else 0
  {
    if IsWorkerStep(step) {
      assert WorkerOk(size, s.workers[step.w]);
      if step.Exit? {
        AliveMeansRunning(s.workers, step.w);
      }
      WorkUpdate(s.workers, step.w, s'.workers[step.w]);
    }
  }

  function WorkerSteps(steps: seq<Step>): nat {
    if steps == [] then 0 else WorkerSteps(steps[..|steps| - 1]) + if IsWorkerStep(steps[|steps| - 1]) then 1 else 0
  }

  lemma StepOfDraining(size: nat, states: seq<State>, steps: seq<Step>, n: nat, m: nat)
    requires IsRun(size, states, steps) && n < m <= |steps| && states[m - 1].closed
    ensures states[m].closed
    ensures WorkerSteps(steps[n..m]) + Work(states[m].workers)
         == WorkerSteps(steps[n..m - 1]) + Work(states[m - 1].workers)
  {
    RunKeeps(size, states, steps, m - 1);
    assert IsEdge(size, states, steps, m - 1);
    WorkShrinks(size, states[m - 1], steps[m - 1], states[m]);
    assert steps[n..m][..m - n - 1] == steps[n..m - 1];
  }

  /**
   * After Close the workers together make no more steps than were left when it
   * closed the queues, whatever else goes on ...
   */
  lemma {:induction false} DrainingIsBounded(size: nat, states: seq<State>, steps: seq<Step>, n: nat, m: nat)
    requires IsRun(size, states, steps) && n <= m <= |steps| && states[n].closed
    ensures states[m].closed && WorkerSteps(steps[n..m]) + Work(states[m].workers) == Work(states[n].workers)
  {
    if n == m {
      assert steps[n..m] == [];
    } else {
      DrainingIsBounded(size, states, steps, n, m - 1);
      StepOfDraining(size, states, steps, n, m);
    }
  }

  /** ... and until Close can return nil one of them always has a step to make, so none waits for another. */
  lemma DrainingNeverStuck(size: nat, states: seq<State>, steps: seq<Step>, n: nat, w: nat)
    requires IsRun(size, states, steps) && n <= |steps| && states[n].closed && w < |states[n].workers|
    requires !states[n].workers[w].exited
    ensures exists step, s' :: IsWorkerStep(step) && step.w == w && Next(size, states[n], step, s')
  {
    RunKeeps(size, states, steps, n);
    var s := states[n];
    var k := s.workers[w];
    AliveMeansRunning(s.workers, w);
    assert k.shut;
    if k.busy.Some? {
      assert Next(size, s, Deliver(w), WithWorker(s, w, k.(busy := None, delivered := k.delivered + [k.busy.value])));
    } else if k.queue != [] {
      assert Next(size, s, Take(w), WithWorker(s, w, k.(busy := Some(k.queue[0]), queue := k.queue[1..])));
    } else {
      assert Next(size, s, Exit(w), WithWorker(s, w, k.(exited := true)).(running := s.running - 1));
    }
  }

  /** With every worker gone Close returns nil. */
  lemma DrainedMeansDone(size: nat, states: seq<State>, steps: seq<Step>, n: nat)
    requires IsRun(size, states, steps) && n <= |steps| && states[n].waiting
    ensures Next(size, states[n], AllGone, states[n].(done := true))
        <==> forall w | 0 <= w < |states[n].workers| :: states[n].workers[w].exited
  {
    RunKeeps(size, states, steps, n);
    var s := states[n];
    if s.running == 0 {
      forall w | 0 <= w < |s.workers|
        ensures s.workers[w].exited
      {
        NobodyAlive(s.workers, w);
      }
    } else {
      SomeoneAlive(s.workers);
    }
  }

  lemma {:induction false} SomeoneAlive(ws: seq<Worker>)
    requires 0 < Alive(ws)
    ensures exists w :: 0 <= w < |ws| && !ws[w].exited
  {
    if ws[|ws| - 1].exited {
      SomeoneAlive(ws[..|ws| - 1]);
      var w :| 0 <= w < |ws| - 1 && !ws[..|ws| - 1][w].exited;
      assert !ws[w].exited;
    }
  }
}
