/**
 * The agent at work: collectors count, a reporter cuts batches and hands them
 * to workers, SendMetrics may be called on the side, requests are applied,
 * answered, refused or lost, and failed batches are repeated or given back.
 * The steps interleave in any order; the server is an in-memory storage.
 */
module Reporting {
  import opened GoInt
  import opened Models
  import opened Batch
  import opened Retry
  import opened AgentState

  /** Where the request for the chunk at hand stands; GivenUp once it has failed for good. */
  datatype Request = NotSent | InFlight(applied: bool) | GivenUp

  /**
   * A goroutine holding metrics the server has not acknowledged: a worker,
   * which repeats a failed request, or a SendMetrics call, which does not.
   * An idle one holds nothing.
   */
  datatype Holder = Holder(retries: bool, rest: seq<Sample>, attempt: nat, request: Request) {
    function Chunk(size: nat): seq<Sample> {
      if size < |rest| then rest[..size] else rest
    }

    function AfterChunk(size: nat): seq<Sample> {
      if size < |rest| then rest[size..] else []
    }
  }

  datatype Reporter = Waiting | Cutting(rest: seq<Sample>) | Stopped

  /**
   * polls counts the polls without bound. acked is the sum of the PollCount
   * deltas the server has acknowledged, lost the sum of those it applied in
   * requests the agent saw fail. Requests the agent gave up on while they were
   * still on their way are in orphans.
   */
  datatype State = State(polls: nat, counters: map<string, Int64>, lastSent: map<string, Int64>,
                         reporter: Reporter, holders: seq<Holder>, orphans: seq<seq<Sample>>,
                         cancelled: bool, server: Store, acked: int, lost: int)

  /** The batch size and the number of workers. */
  datatype Setup = Setup(size: nat, workers: nat)

  datatype Step =
    | Poll
    | Tick(gauges: seq<Sample>)
    | Hand(w: nat)
    | EndCut
    | Cancel
    | ReturnRest
    | Stop
    | Call(gauges: seq<Sample>)
    | Post(i: nat)
    | Serve(i: nat)
    | Ack(i: nat)
    | Fail(i: nat, late: bool, repeat: bool)
    | GiveBack(i: nat)
    | ServeLate(k: nat)
    | Vanish(k: nat)

  ghost predicate OnlyGauges(ms: seq<Sample>) {
    forall m | m in ms :: m.mtype == GAUGE
  }

  const IDLE := Holder(true, [], 0, NotSent)

  /** The batch cut from the current state. */
  ghost function Collected(s: State, gauges: seq<Sample>): seq<Sample> {
    gauges + CounterPart(COUNTER_NAMES, s.counters, s.lastSent)
  }

  ghost function Marked(s: State): State {
    s.(lastSent := MarkSent(COUNTER_NAMES, s.counters, s.lastSent))
  }

  ghost function WithHolder(s: State, i: nat, h: Holder): State
    requires i < |s.holders|
  {
    s.(holders := s.holders[i := h])
  }

  /** The books after the request of holder i has failed, before the holder reacts. */
  ghost function AfterFailure(c: Setup, s: State, i: nat, late: bool): State
    requires i < |s.holders| && s.holders[i].request.InFlight?
  {
    var h := s.holders[i];
    if h.request.applied then s.(lost := s.lost + Carried(h.Chunk(c.size)))
    else if late then s.(orphans := s.orphans + [h.Chunk(c.size)])
    else s
  }

  ghost predicate Next(c: Setup, s: State, step: Step, s': State) {
    match step
    case Poll =>
      s' == s.(polls := s.polls + 1, counters := s.counters[POLL_COUNT := Add(At(s.counters, POLL_COUNT), 1)])
    case Tick(gauges) =>
      s.reporter.Waiting? && OnlyGauges(gauges) && s' == Marked(s).(reporter := Cutting(Collected(s, gauges)))
    case Hand(w) =>
      && w < c.workers && w < |s.holders| && s.holders[w] == IDLE && s.reporter.Cutting? && s.reporter.rest != []
      && var offer := Holder(true, s.reporter.rest, 0, NotSent);
      && s' == WithHolder(s, w, offer.(rest := offer.Chunk(c.size))).(reporter := Cutting(offer.AfterChunk(c.size)))
    case EndCut => s.reporter == Cutting([]) && s' == s.(reporter := Waiting)
    case Cancel => s' == s.(cancelled := true)
    case ReturnRest =>
      && s.cancelled && s.reporter.Cutting? && s.reporter.rest != []
      && s' == s.(lastSent := Returned(s.lastSent, s.reporter.rest), reporter := Stopped)
    case Stop => s.cancelled && s.reporter.Waiting? && s' == s.(reporter := Stopped)
    case Call(gauges) =>
      OnlyGauges(gauges) && s' == Marked(s).(holders := s.holders + [Holder(false, Collected(s, gauges), 0, NotSent)])
    case Post(i) =>
      && i < |s.holders| && s.holders[i].rest != [] && s.holders[i].request.NotSent?
      && s' == WithHolder(s, i, s.holders[i].(request := InFlight(false)))
    case Serve(i) =>
      && i < |s.holders| && s.holders[i].request == InFlight(false) && Wellformed(s.holders[i].Chunk(c.size))
      && var h := s.holders[i];
      && s' == WithHolder(s, i, h.(request := InFlight(true))).(server := ApplyAll(s.server, h.Chunk(c.size)))
    case Ack(i) =>
      && i < |s.holders| && s.holders[i].request == InFlight(true)
      && var h := s.holders[i];
      && s' == WithHolder(s, i, h.(rest := h.AfterChunk(c.size), attempt := 0, request := NotSent))
               .(acked := s.acked + Carried(h.Chunk(c.size)))
    // refused, broken off or timed out; a request not applied yet may still be on its way
    case Fail(i, late, repeat) =>
      && i < |s.holders| && s.holders[i].request.InFlight?
      && var h := s.holders[i];
      && var told := AfterFailure(c, s, i, late);
      && if repeat then
           && h.retries && h.attempt < |DEFAULT_INTERVALS|
           && s' == WithHolder(told, i, h.(attempt := h.attempt + 1, request := NotSent))
         else
           s' == WithHolder(told, i, h.(request := GivenUp))
    case GiveBack(i) =>
      && i < |s.holders| && s.holders[i].request.GivenUp?
      && s' == WithHolder(s, i, s.holders[i].(rest := [], attempt := 0, request := NotSent))
               .(lastSent := Returned(s.lastSent, s.holders[i].rest))
    case ServeLate(k) =>
      && k < |s.orphans| && Wellformed(s.orphans[k])
      && s' == s.(orphans := s.orphans[..k] + s.orphans[k + 1..], server := ApplyAll(s.server, s.orphans[k]),
                  lost := s.lost + Carried(s.orphans[k]))
    case Vanish(k) =>
      k < |s.orphans| && s' == s.(orphans := s.orphans[..k] + s.orphans[k + 1..])
  }

  ghost predicate Init(c: Setup, s: State) {
    && 0 < c.size && s.polls == 0 && s.counters == map[] && s.lastSent == map[] && s.reporter == Waiting
    && s.holders == seq(c.workers, i => IDLE) && s.orphans == [] && s.acked == 0 && s.lost == 0
  }

  ghost predicate IsRun(c: Setup, states: seq<State>, steps: seq<Step>) {
    && |states| == |steps| + 1 && Init(c, states[0])
    && forall n | 0 <= n < |steps| :: Next(c, states[n], steps[n], states[n + 1])
  }

  // ---------------------------------------------------------------- sums

  predicate CarriesPolls(m: Sample) {
    m.mtype == COUNTER && m.id == POLL_COUNT && m.delta.Some?
  }

  /** The PollCount deltas of a batch, added up without wrapping. */
  ghost function Carried(ms: seq<Sample>): int {
    if ms == [] then 0
    else Carried(ms[..|ms| - 1]) + if CarriesPolls(ms[|ms| - 1]) then ms[|ms| - 1].delta.value else 0
  }

  ghost function Sum(xs: seq<int>): int {
    if xs == [] then 0 else Sum(xs[..|xs| - 1]) + xs[|xs| - 1]
  }

  ghost function HeldBy(h: Holder): int {
    Carried(h.rest)
  }

  /** Applied by the server, with the answer still to come. */
  ghost function ServedFor(h: Holder, size: nat): int {
    if h.request == InFlight(true) then Carried(h.Chunk(size)) else 0
  }

  ghost function AllHeld(hs: seq<Holder>): seq<int> {
    seq(|hs|, i requires 0 <= i < |hs| => HeldBy(hs[i]))
  }

  ghost function AllServed(hs: seq<Holder>, size: nat): seq<int> {
    seq(|hs|, i requires 0 <= i < |hs| => ServedFor(hs[i], size))
  }

  /** Held by the reporter and the holders together. */
  ghost function Held(s: State): int {
    Sum(AllHeld(s.holders)) + if s.reporter.Cutting? then Carried(s.reporter.rest) else 0
  }

  lemma {:induction false} CarriedJoin(a: seq<Sample>, b: seq<Sample>)
    ensures Carried(a + b) == Carried(a) + Carried(b)
  {
    if b == [] {
      assert a + b == a;
    } else {
      CarriedJoin(a, b[..|b| - 1]);
      assert (a + b)[..|a + b| - 1] == a + b[..|b| - 1];
    }
  }

  lemma ChunkSplits(h: Holder, size: nat)
    ensures Carried(h.rest) == Carried(h.Chunk(size)) + Carried(h.AfterChunk(size))
  {
    assert h.rest == h.Chunk(size) + h.AfterChunk(size);
    CarriedJoin(h.Chunk(size), h.AfterChunk(size));
  }

  lemma {:induction false} SumUpdate(xs: seq<int>, i: nat, x: int)
    requires i < |xs|
    ensures Sum(xs[i := x]) == Sum(xs) - xs[i] + x
  {
    var front := xs[..|xs| - 1];
    if i == |front| {
      assert xs[i := x][..|front|] == front;
    } else {
      assert xs[i := x][..|front|] == front[i := x];
      SumUpdate(front, i, x);
    }
  }

  lemma SumSnoc(xs: seq<int>, x: int)
    ensures Sum(xs + [x]) == Sum(xs) + x
  {
    assert (xs + [x])[..|xs + [x]| - 1] == xs;
  }

  lemma {:induction false} SumNonNegative(xs: seq<int>)
    requires forall i | 0 <= i < |xs| :: 0 <= xs[i]
    ensures 0 <= Sum(xs)
  {
    if xs != [] {
      SumNonNegative(xs[..|xs| - 1]);
    }
  }

  lemma HolderReplaced(hs: seq<Holder>, i: nat, h: Holder, size: nat)
    requires i < |hs|
    ensures Sum(AllHeld(hs[i := h])) == Sum(AllHeld(hs)) - HeldBy(hs[i]) + HeldBy(h)
    ensures Sum(AllServed(hs[i := h], size)) == Sum(AllServed(hs, size)) - ServedFor(hs[i], size) + ServedFor(h, size)
  {
    assert AllHeld(hs[i := h]) == AllHeld(hs)[i := HeldBy(h)];
    assert AllServed(hs[i := h], size) == AllServed(hs, size)[i := ServedFor(h, size)];
    SumUpdate(AllHeld(hs), i, HeldBy(h));
    SumUpdate(AllServed(hs, size), i, ServedFor(h, size));
  }

  lemma HolderAdded(hs: seq<Holder>, h: Holder, size: nat)
    ensures Sum(AllHeld(hs + [h])) == Sum(AllHeld(hs)) + HeldBy(h)
    ensures Sum(AllServed(hs + [h], size)) == Sum(AllServed(hs, size)) + ServedFor(h, size)
  {
    assert AllHeld(hs + [h]) == AllHeld(hs) + [HeldBy(h)];
    assert AllServed(hs + [h], size) == AllServed(hs, size) + [ServedFor(h, size)];
    SumSnoc(AllHeld(hs), HeldBy(h));
    SumSnoc(AllServed(hs, size), ServedFor(h, size));
  }

  /** The deltas of a batch as the storage adds them are the wrapped sum. */
  lemma {:induction false} DeltaSumWraps(ms: seq<Sample>)
    ensures DeltaSum(ms, Key(COUNTER, POLL_COUNT)) == Wrap(Carried(ms))
  {
    if ms != [] {
      DeltaSumWraps(ms[..|ms| - 1]);
      var m := ms[|ms| - 1];
      if CarriesPolls(m) {
        WrapAdds(Carried(ms[..|ms| - 1]), m.delta.value);
      }
    }
  }

  /** What a request does to the server's PollCount. */
  lemma ServerAdds(server: Store, ms: seq<Sample>, total: int)
    requires Wellformed(ms) && server.Counter(POLL_COUNT) == Wrap(total)
    ensures ApplyAll(server, ms).Counter(POLL_COUNT) == Wrap(total + Carried(ms))
  {
    ApplyAllPerKey(server, ms, POLL_COUNT);
    DeltaSumWraps(ms);
    WrapAdds(total, Carried(ms));
  }

  /** Giving a batch back takes its deltas off what is marked as sent. */
  lemma {:induction false} ReturnedAt(lastSent: map<string, Int64>, ms: seq<Sample>, total: int)
    requires At(lastSent, POLL_COUNT) == Wrap(total)
    ensures At(Returned(lastSent, ms), POLL_COUNT) == Wrap(total - Carried(ms))
  {
    if ms != [] {
      ReturnedAt(lastSent, ms[..|ms| - 1], total);
      var m := ms[|ms| - 1];
      if CarriesPolls(m) {
        WrapSubtracts(total - Carried(ms[..|ms| - 1]), m.delta.value);
      }
    }
  }

  lemma {:induction false} GaugesCarryNothing(ms: seq<Sample>)
    requires OnlyGauges(ms)
    ensures Carried(ms) == 0
  {
    if ms != [] {
      assert ms[|ms| - 1] in ms;
      GaugesCarryNothing(ms[..|ms| - 1]);
    }
  }

  /** With PollCount the only counter, a batch carries all that is unsent of it, and marks it as sent. */
  lemma SingleCounter(names: seq<string>, counters: map<string, Int64>, lastSent: map<string, Int64>)
    requires names == [POLL_COUNT]
    ensures var delta := Unsent(counters, lastSent, POLL_COUNT);
            CounterPart(names, counters, lastSent) == if delta == 0 then [] else [CounterSample(POLL_COUNT, delta)]
    ensures MarkSent(names, counters, lastSent) == lastSent[POLL_COUNT := At(counters, POLL_COUNT)]
  {
    assert names == [] + [POLL_COUNT];
    NamesSnoc([], POLL_COUNT, counters, lastSent);
  }

  lemma CollectedCarries(s: State, gauges: seq<Sample>)
    requires OnlyGauges(gauges)
    ensures Carried(Collected(s, gauges)) == Unsent(s.counters, s.lastSent, POLL_COUNT)
    ensures At(Marked(s).lastSent, POLL_COUNT) == At(s.counters, POLL_COUNT)
  {
    var part := CounterPart(COUNTER_NAMES, s.counters, s.lastSent);
    SingleCounter(COUNTER_NAMES, s.counters, s.lastSent);
    CarriedJoin(gauges, part);
    GaugesCarryNothing(gauges);
    if part != [] {
      assert part[..0] == [];
    }
  }

  // ---------------------------------------------------------------- invariant

  /** No delta of the batch is negative. */
  ghost predicate NonNegative(ms: seq<Sample>) {
    forall m | m in ms && CarriesPolls(m) :: 0 <= m.delta.value
  }

  lemma {:induction false} NonNegativeSum(ms: seq<Sample>)
    requires NonNegative(ms)
    ensures 0 <= Carried(ms)
  {
    if ms != [] {
      assert ms[|ms| - 1] in ms && forall m | m in ms[..|ms| - 1] :: m in ms;
      NonNegativeSum(ms[..|ms| - 1]);
    }
  }

  /** The accounts, modulo 2^64. base is the server's PollCount at the start. */
  ghost predicate Balanced(c: Setup, s: State, base: int) {
    && At(s.counters, POLL_COUNT) == Wrap(s.polls)
    && At(s.lastSent, POLL_COUNT) == Wrap(s.acked + Held(s))
    && s.server.Counter(POLL_COUNT) == Wrap(base + s.acked + s.lost + Sum(AllServed(s.holders, c.size)))
  }

  ghost predicate HolderOk(c: Setup, h: Holder, worker: bool) {
    && h.attempt <= |DEFAULT_INTERVALS| && (h.rest == [] ==> h.request.NotSent? && h.attempt == 0)
    && (worker ==> h.retries && |h.rest| <= c.size)
  }

  ghost predicate Shaped(c: Setup, s: State) {
    && 0 < c.size && c.workers <= |s.holders|
    && forall i | 0 <= i < |s.holders| :: HolderOk(c, s.holders[i], i < c.workers)
  }

  /** As long as the polls fit in int64, nothing wraps and nothing is negative. */
  ghost predicate Exact(s: State) {
    s.polls < TWO_63 ==>
      && 0 <= s.acked && 0 <= s.lost && s.acked + Held(s) <= s.polls
      && (s.reporter.Cutting? ==> NonNegative(s.reporter.rest))
      && (forall i | 0 <= i < |s.holders| :: NonNegative(s.holders[i].rest))
      && (forall k | 0 <= k < |s.orphans| :: NonNegative(s.orphans[k]))
  }

  ghost predicate Inv(c: Setup, s: State, base: int) {
    Balanced(c, s, base) && Shaped(c, s) && Exact(s)
  }

  lemma PollKeeps(c: Setup, s: State, s': State, base: int)
    requires Inv(c, s, base) && Next(c, s, Poll, s')
    ensures Inv(c, s', base)
  {
    WrapAdds(s.polls, 1);
  }

  /** Cutting a batch moves all that is unsent into it. */
  lemma CutAccounts(s: State, gauges: seq<Sample>, total: int)
    requires OnlyGauges(gauges)
    requires At(s.counters, POLL_COUNT) == Wrap(s.polls) && At(s.lastSent, POLL_COUNT) == Wrap(total)
    ensures Carried(Collected(s, gauges)) == Wrap(s.polls - total)
    ensures At(Marked(s).lastSent, POLL_COUNT) == Wrap(total + Carried(Collected(s, gauges)))
  {
    CollectedCarries(s, gauges);
    WrapSubtracts(s.polls, total);
    WrapOfWrapped(total, s.polls - total);
    assert total + (s.polls - total) == s.polls;
  }

  lemma CollectedNonNegative(s: State, gauges: seq<Sample>)
    requires OnlyGauges(gauges) && 0 <= Unsent(s.counters, s.lastSent, POLL_COUNT)
    ensures NonNegative(Collected(s, gauges))
  {
    SingleCounter(COUNTER_NAMES, s.counters, s.lastSent);
  }

  /** A cut while the polls fit in int64. */
  lemma CutExact(s: State, gauges: seq<Sample>, total: int)
    requires OnlyGauges(gauges) && 0 <= total <= s.polls < TWO_63
    requires At(s.counters, POLL_COUNT) == Wrap(s.polls) && At(s.lastSent, POLL_COUNT) == Wrap(total)
    ensures Carried(Collected(s, gauges)) == s.polls - total && NonNegative(Collected(s, gauges))
  {
    CutAccounts(s, gauges, total);
    CollectedCarries(s, gauges);
    CollectedNonNegative(s, gauges);
  }

  lemma TickKeeps(c: Setup, s: State, gauges: seq<Sample>, s': State, base: int)
    requires Inv(c, s, base) && Next(c, s, Tick(gauges), s')
    ensures Inv(c, s', base)
  {
    var total := s.acked + Held(s);
    CutAccounts(s, gauges, total);
    HeldIsNonNegative(s);
    assert Held(s') == Held(s) + Carried(Collected(s, gauges));
    if s.polls < TWO_63 {
      CutExact(s, gauges, total);
    }
  }

  lemma CallAdds(c: Setup, s: State, gauges: seq<Sample>, s': State)
    requires OnlyGauges(gauges) && Next(c, s, Call(gauges), s')
    ensures Held(s') == Held(s) + Carried(Collected(s, gauges))
    ensures Sum(AllServed(s'.holders, c.size)) == Sum(AllServed(s.holders, c.size))
  {
    HolderAdded(s.holders, Holder(false, Collected(s, gauges), 0, NotSent), c.size);
  }

  /** Where the server and what it has served stay, only what is marked as sent is to be looked at. */
  lemma StillBalanced(c: Setup, s: State, s': State, base: int)
    requires Balanced(c, s, base) && s'.polls == s.polls && s'.counters == s.counters && s'.server == s.server
    requires s'.acked == s.acked && s'.lost == s.lost
    requires Sum(AllServed(s'.holders, c.size)) == Sum(AllServed(s.holders, c.size))
    requires At(s'.lastSent, POLL_COUNT) == Wrap(s'.acked + Held(s'))
    ensures Balanced(c, s', base)
  {
  }

  lemma CallBalances(c: Setup, s: State, gauges: seq<Sample>, s': State, base: int)
    requires Inv(c, s, base) && Next(c, s, Call(gauges), s')
    ensures Balanced(c, s', base) && Held(s') == Held(s) + Carried(Collected(s, gauges))
  {
    CutAccounts(s, gauges, s.acked + Held(s));
    CallAdds(c, s, gauges, s');
    assert s'.acked + Held(s') == s.acked + Held(s) + Carried(Collected(s, gauges));
    StillBalanced(c, s, s', base);
  }

  lemma CallKeeps(c: Setup, s: State, gauges: seq<Sample>, s': State, base: int)
    requires Inv(c, s, base) && Next(c, s, Call(gauges), s')
    ensures Inv(c, s', base)
  {
    CallBalances(c, s, gauges, s', base);
    assert Shaped(c, s');
    if s.polls < TWO_63 {
      HeldIsNonNegative(s);
      CutExact(s, gauges, s.acked + Held(s));
    }
  }

  lemma HeldIsNonNegative(s: State)
    requires Exact(s)
    ensures s.polls < TWO_63 ==> 0 <= Held(s)
  {
    if s.polls < TWO_63 {
      forall i | 0 <= i < |s.holders|
        ensures 0 <= AllHeld(s.holders)[i]
      {
        NonNegativeSum(s.holders[i].rest);
      }
      SumNonNegative(AllHeld(s.holders));
      if s.reporter.Cutting? {
        NonNegativeSum(s.reporter.rest);
      }
    }
  }

  /** Handing a chunk to a worker moves it and nothing else. */
  lemma HandMoves(c: Setup, s: State, w: nat, s': State)
    requires Next(c, s, Hand(w), s')
    ensures Held(s') == Held(s) && Sum(AllServed(s'.holders, c.size)) == Sum(AllServed(s.holders, c.size))
  {
    var offer := Holder(true, s.reporter.rest, 0, NotSent);
    ChunkSplits(offer, c.size);
    HolderReplaced(s.holders, w, offer.(rest := offer.Chunk(c.size)), c.size);
  }

  lemma HandBalances(c: Setup, s: State, w: nat, s': State, base: int)
    requires Inv(c, s, base) && Next(c, s, Hand(w), s')
    ensures Balanced(c, s', base) && Held(s') == Held(s)
  {
    HandMoves(c, s, w, s');
  }

  lemma HandKeeps(c: Setup, s: State, w: nat, s': State, base: int)
    requires Inv(c, s, base) && Next(c, s, Hand(w), s')
    ensures Inv(c, s', base)
  {
    HandBalances(c, s, w, s', base);
    if s.polls < TWO_63 {
      ChunkNonNegative(Holder(true, s.reporter.rest, 0, NotSent), c.size);
    }
  }

  lemma ReturnRestKeeps(c: Setup, s: State, s': State, base: int)
    requires Inv(c, s, base) && Next(c, s, ReturnRest, s')
    ensures Inv(c, s', base)
  {
    ReturnedAt(s.lastSent, s.reporter.rest, s.acked + Held(s));
    if s.polls < TWO_63 {
      NonNegativeSum(s.reporter.rest);
    }
  }

  /** The accounts of s' after holder i has become h, given that the step has kept the books. */
  ghost predicate Booked(c: Setup, s: State, i: nat, h: Holder, s': State, base: int)
    requires i < |s.holders|
  {
    && s'.holders == s.holders[i := h] && HolderOk(c, h, i < c.workers)
    && s'.polls == s.polls && s'.counters == s.counters && s'.reporter == s.reporter
    && At(s'.lastSent, POLL_COUNT) == Wrap(s'.acked + Held(s) - HeldBy(s.holders[i]) + HeldBy(h))
    && s'.server.Counter(POLL_COUNT) ==
       Wrap(base + s'.acked + s'.lost + Sum(AllServed(s.holders, c.size))
            - ServedFor(s.holders[i], c.size) + ServedFor(h, c.size))
    && (s.polls < TWO_63 ==>
          && 0 <= s'.acked && 0 <= s'.lost && s'.acked + Held(s) - HeldBy(s.holders[i]) + HeldBy(h) <= s.polls
          && NonNegative(h.rest) && forall k | 0 <= k < |s'.orphans| :: NonNegative(s'.orphans[k]))
  }

  lemma BookedKeeps(c: Setup, s: State, i: nat, h: Holder, s': State, base: int)
    requires Inv(c, s, base) && i < |s.holders| && Booked(c, s, i, h, s', base)
    ensures Inv(c, s', base)
  {
    HolderReplaced(s.holders, i, h, c.size);
  }

  lemma PostKeeps(c: Setup, s: State, i: nat, s': State, base: int)
    requires Inv(c, s, base) && Next(c, s, Post(i), s')
    ensures Inv(c, s', base)
  {
    BookedKeeps(c, s, i, s.holders[i].(request := InFlight(false)), s', base);
  }

  lemma ServeKeeps(c: Setup, s: State, i: nat, s': State, base: int)
    requires Inv(c, s, base) && Next(c, s, Serve(i), s')
    ensures Inv(c, s', base)
  {
    ServerAdds(s.server, s.holders[i].Chunk(c.size), base + s.acked + s.lost + Sum(AllServed(s.holders, c.size)));
    BookedKeeps(c, s, i, s.holders[i].(request := InFlight(true)), s', base);
  }

  lemma ChunkNonNegative(h: Holder, size: nat)
    requires NonNegative(h.rest)
    ensures NonNegative(h.Chunk(size)) && NonNegative(h.AfterChunk(size)) && 0 <= Carried(h.Chunk(size))
    ensures 0 <= Carried(h.rest)
  {
    NonNegativeSum(h.Chunk(size));
    NonNegativeSum(h.rest);
  }

  /** The holder after its request was answered. */
  ghost function Acked(h: Holder, size: nat): Holder {
    h.(rest := h.AfterChunk(size), attempt := 0, request := NotSent)
  }

  lemma AckedIsOk(c: Setup, h: Holder, worker: bool)
    requires HolderOk(c, h, worker)
    ensures HolderOk(c, Acked(h, c.size), worker)
  {
  }

  lemma AckedAccounts(h: Holder, size: nat)
    ensures HeldBy(Acked(h, size)) == HeldBy(h) - Carried(h.Chunk(size)) && ServedFor(Acked(h, size), size) == 0
    ensures NonNegative(h.rest) ==> NonNegative(Acked(h, size).rest) && 0 <= Carried(h.Chunk(size))
  {
    ChunkSplits(h, size);
    if NonNegative(h.rest) {
      ChunkNonNegative(h, size);
    }
  }

  lemma AckIsBooked(c: Setup, s: State, i: nat, s': State, base: int)
    requires Inv(c, s, base) && Next(c, s, Ack(i), s')
    ensures Booked(c, s, i, Acked(s.holders[i], c.size), s', base)
  {
    AckedIsOk(c, s.holders[i], i < c.workers);
    AckedAccounts(s.holders[i], c.size);
  }

  lemma AckKeeps(c: Setup, s: State, i: nat, s': State, base: int)
    requires Inv(c, s, base) && Next(c, s, Ack(i), s')
    ensures Inv(c, s', base)
  {
    AckIsBooked(c, s, i, s', base);
    BookedKeeps(c, s, i, Acked(s.holders[i], c.size), s', base);
  }

  lemma FailureIsBooked(c: Setup, s: State, i: nat, late: bool, attempt: nat, next: Request, base: int)
    requires Inv(c, s, base) && i < |s.holders| && s.holders[i].request.InFlight? && attempt <= |DEFAULT_INTERVALS|
    requires !next.InFlight?
    ensures var h := s.holders[i].(attempt := attempt, request := next);
            Booked(c, s, i, h, WithHolder(AfterFailure(c, s, i, late), i, h), base)
  {
    if s.polls < TWO_63 {
      ChunkNonNegative(s.holders[i], c.size);
    }
  }

  /**
   * The request failed and is no longer waited for; the holder still has its
   * metrics, to repeat it or to give them back.
   */
  lemma FailureKeeps(c: Setup, s: State, i: nat, late: bool, attempt: nat, next: Request, base: int)
    requires Inv(c, s, base) && i < |s.holders| && s.holders[i].request.InFlight? && attempt <= |DEFAULT_INTERVALS|
    requires !next.InFlight?
    ensures var h := s.holders[i].(attempt := attempt, request := next);
            Inv(c, WithHolder(AfterFailure(c, s, i, late), i, h), base)
  {
    var h := s.holders[i].(attempt := attempt, request := next);
    FailureIsBooked(c, s, i, late, attempt, next, base);
    BookedKeeps(c, s, i, h, WithHolder(AfterFailure(c, s, i, late), i, h), base);
  }

  lemma FailKeeps(c: Setup, s: State, i: nat, late: bool, repeat: bool, s': State, base: int)
    requires Inv(c, s, base) && Next(c, s, Fail(i, late, repeat), s')
    ensures Inv(c, s', base)
  {
    var h := s.holders[i];
    if repeat {
      FailureKeeps(c, s, i, late, h.attempt + 1, NotSent, base);
    } else {
      FailureKeeps(c, s, i, late, h.attempt, GivenUp, base);
      assert h.(attempt := h.attempt, request := GivenUp) == h.(request := GivenUp);
    }
  }

  lemma GiveBackIsBooked(c: Setup, s: State, i: nat, s': State, base: int)
    requires Inv(c, s, base) && Next(c, s, GiveBack(i), s')
    ensures Booked(c, s, i, s.holders[i].(rest := [], attempt := 0, request := NotSent), s', base)
  {
    var h := s.holders[i];
    ReturnedAt(s.lastSent, h.rest, s.acked + Held(s));
    EmptyAccounts(h, c.size);
    if s.polls < TWO_63 {
      NonNegativeSum(h.rest);
    }
  }

  lemma EmptyAccounts(h: Holder, size: nat)
    requires h.request.GivenUp?
    ensures var empty := h.(rest := [], attempt := 0, request := NotSent);
            && HeldBy(empty) == 0 && ServedFor(empty, size) == 0 && ServedFor(h, size) == 0 && NonNegative(empty.rest)
  {
  }

  /** A holder whose request has failed for good gives its metrics back. */
  lemma GiveBackKeeps(c: Setup, s: State, i: nat, s': State, base: int)
    requires Inv(c, s, base) && Next(c, s, GiveBack(i), s')
    ensures Inv(c, s', base)
  {
    GiveBackIsBooked(c, s, i, s', base);
    BookedKeeps(c, s, i, s.holders[i].(rest := [], attempt := 0, request := NotSent), s', base);
  }

  lemma LateBalances(c: Setup, s: State, k: nat, s': State, base: int)
    requires Balanced(c, s, base) && Next(c, s, ServeLate(k), s')
    ensures Balanced(c, s', base)
  {
    ServerAdds(s.server, s.orphans[k], base + s.acked + s.lost + Sum(AllServed(s.holders, c.size)));
  }

  lemma LateKeeps(c: Setup, s: State, k: nat, s': State, base: int)
    requires Inv(c, s, base) && Next(c, s, ServeLate(k), s')
    ensures Inv(c, s', base)
  {
    LateBalances(c, s, k, s', base);
    if s.polls < TWO_63 {
      NonNegativeSum(s.orphans[k]);
    }
  }

  lemma StepKeeps(c: Setup, s: State, step: Step, s': State, base: int)
    requires Inv(c, s, base) && Next(c, s, step, s')
    ensures Inv(c, s', base)
  {
    match step
    case Poll => PollKeeps(c, s, s', base);
    case Tick(gauges) => TickKeeps(c, s, gauges, s', base);
    case Hand(w) => HandKeeps(c, s, w, s', base);
    case ReturnRest => ReturnRestKeeps(c, s, s', base);
    case Call(gauges) => CallKeeps(c, s, gauges, s', base);
    case Post(i) => PostKeeps(c, s, i, s', base);
    case Serve(i) => ServeKeeps(c, s, i, s', base);
    case Ack(i) => AckKeeps(c, s, i, s', base);
    case Fail(i, late, repeat) => FailKeeps(c, s, i, late, repeat, s', base);
    case GiveBack(i) => GiveBackKeeps(c, s, i, s', base);
    case ServeLate(k) => LateKeeps(c, s, k, s', base);
    case _ => OtherStepKeeps(c, s, step, s', base);
  }

  lemma OtherStepKeeps(c: Setup, s: State, step: Step, s': State, base: int)
    requires Inv(c, s, base) && Next(c, s, step, s') && (step.EndCut? || step.Cancel? || step.Stop? || step.Vanish?)
    ensures Inv(c, s', base)
  {
  }

  lemma {:induction false} SumOfZeros(xs: seq<int>)
    requires forall i | 0 <= i < |xs| :: xs[i] == 0
    ensures Sum(xs) == 0
  {
    if xs != [] {
      SumOfZeros(xs[..|xs| - 1]);
    }
  }

  lemma InitEstablishes(c: Setup, s: State)
    requires Init(c, s)
    ensures Inv(c, s, s.server.Counter(POLL_COUNT))
  {
    SumOfZeros(AllHeld(s.holders));
    SumOfZeros(AllServed(s.holders, c.size));
  }

  lemma {:induction false} RunKeeps(c: Setup, states: seq<State>, steps: seq<Step>, n: nat)
    requires IsRun(c, states, steps) && n <= |steps|
    ensures Inv(c, states[n], states[0].server.Counter(POLL_COUNT))
  {
    if n == 0 {
      InitEstablishes(c, states[0]);
    } else {
      RunKeeps(c, states, steps, n - 1);
      StepKeeps(c, states[n - 1], steps[n - 1], states[n], states[0].server.Counter(POLL_COUNT));
    }
  }

  // ---------------------------------------------------------------- what it means

  /**
   * Delta conservation, at every point of every run: what is marked as sent is
   * what the server acknowledged plus what the reporter, the workers and the
   * SendMetrics calls still hold. While the polls fit in int64 this holds
   * without wrapping, never exceeds what was counted, and no poll is missing:
   * each one is acknowledged, held or still unsent.
   */
  lemma DeltasAreConserved(c: Setup, states: seq<State>, steps: seq<Step>, n: nat)
    requires IsRun(c, states, steps) && n <= |steps|
    ensures var s := states[n];
            && At(s.lastSent, POLL_COUNT) == Wrap(s.acked + Held(s))
            && At(s.counters, POLL_COUNT) == Wrap(s.polls)
            && (s.polls < TWO_63 ==>
                  && At(s.lastSent, POLL_COUNT) == s.acked + Held(s) <= At(s.counters, POLL_COUNT) == s.polls
                  && s.polls == s.acked + Held(s) + Unsent(s.counters, s.lastSent, POLL_COUNT))
  {
    RunKeeps(c, states, steps, n);
    HeldIsNonNegative(states[n]);
  }

  /** Run has returned and no SendMetrics call is active. */
  ghost predicate AtRest(s: State) {
    s.reporter.Stopped? && forall i | 0 <= i < |s.holders| :: s.holders[i].rest == []
  }

  /** Once everything has stopped, exactly what the server acknowledged is marked as sent. */
  lemma AtRestOnlyAcknowledgedIsSent(c: Setup, states: seq<State>, steps: seq<Step>, n: nat)
    requires IsRun(c, states, steps) && n <= |steps| && AtRest(states[n])
    ensures At(states[n].lastSent, POLL_COUNT) == Wrap(states[n].acked)
    ensures states[n].polls < TWO_63 ==> At(states[n].lastSent, POLL_COUNT) == states[n].acked
  {
    DeltasAreConserved(c, states, steps, n);
    SumOfZeros(AllHeld(states[n].holders));
  }

  /**
   * End to end: the server's total is what it started with, what it has
   * acknowledged, what it applied without the agent learning of it, and what
   * it has applied with the answer still on its way. Nothing acknowledged is
   * ever missing from it.
   */
  lemma ServerTotal(c: Setup, states: seq<State>, steps: seq<Step>, n: nat)
    requires IsRun(c, states, steps) && n <= |steps|
    ensures var s, base := states[n], states[0].server.Counter(POLL_COUNT);
            && s.server.Counter(POLL_COUNT) == Wrap(base + s.acked + s.lost + Sum(AllServed(s.holders, c.size)))
            && (s.polls < TWO_63 ==> 0 <= s.acked && 0 <= s.lost)
  {
    RunKeeps(c, states, steps, n);
  }

  /**
   * At rest the server has counted every acknowledged poll once, and no other,
   * exactly when the polls in requests it applied and the agent saw fail come
   * to a multiple of 2^64; while they stay below that, exactly when they carried
   * none.
   */
  lemma ExactlyOnceWhenNothingLost(c: Setup, states: seq<State>, steps: seq<Step>, n: nat)
    requires IsRun(c, states, steps) && n <= |steps| && AtRest(states[n])
    ensures var s, base := states[n], states[0].server.Counter(POLL_COUNT);
            && (s.server.Counter(POLL_COUNT) == Wrap(base + s.acked) <==> s.lost % TWO_64 == 0)
            && (s.polls < TWO_63 && s.lost < TWO_64 ==>
                  (s.server.Counter(POLL_COUNT) == Wrap(base + s.acked) <==> s.lost == 0))
  {
    RunKeeps(c, states, steps, n);
    var s, base := states[n], states[0].server.Counter(POLL_COUNT);
    SumOfZeros(AllServed(s.holders, c.size));
    WrapIsEqualExactlyWhen(base + s.acked + s.lost, base + s.acked);
  }

  /** How many of the holders wait for the answer to a request. */
  ghost function Awaiting(hs: seq<Holder>): nat {
    if hs == [] then 0 else Awaiting(hs[..|hs| - 1]) + if hs[|hs| - 1].request.InFlight? then 1 else 0
  }

  lemma {:induction false} AwaitingIsBounded(hs: seq<Holder>)
    ensures Awaiting(hs) <= |hs|
  {
    if hs != [] {
      AwaitingIsBounded(hs[..|hs| - 1]);
    }
  }

  /**
   * The pool is the rate limit: the workers together never wait for more
   * requests than there are workers, each carries one batch of at most the
   * batch size, and each request is at most its fourth. A request a worker has
   * given up on may still be on its way; it is not waited for.
   */
  lemma RateLimited(c: Setup, states: seq<State>, steps: seq<Step>, n: nat)
    requires IsRun(c, states, steps) && n <= |steps|
    ensures c.workers <= |states[n].holders| && Awaiting(states[n].holders[..c.workers]) <= c.workers
    ensures forall i | 0 <= i < |states[n].holders| ::
              && states[n].holders[i].attempt < 4
              && (i < c.workers ==> |states[n].holders[i].rest| <= c.size && states[n].holders[i].retries)
  {
    RunKeeps(c, states, steps, n);
    AwaitingIsBounded(states[n].holders[..c.workers]);
  }
}
