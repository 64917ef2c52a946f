/** The steps of the agent at work, one at a time: what each moves, how it counts, and what is possible. */
module ReportingSteps {
  import opened GoInt
  import opened Models
  import opened Batch
  import opened AgentState
  import opened Reporting

  // ---------------------------------------------------------------- the books are kept by the steps

  function Polls(steps: seq<Step>): nat {
    if steps == [] then 0 else Polls(steps[..|steps| - 1]) + if steps[|steps| - 1].Poll? then 1 else 0
  }

  /** The PollCount deltas in the chunk whose answer a step brings. */
  ghost function AckedBy(c: Setup, s: State, step: Step): int {
    if step.Ack? && step.i < |s.holders| then Carried(s.holders[step.i].Chunk(c.size)) else 0
  }

  /** Those the server has applied, or now applies, in a request that is seen to fail. */
  ghost function LostBy(c: Setup, s: State, step: Step): int {
    if step.Fail? && step.i < |s.holders| && s.holders[step.i].request == InFlight(true) then
      Carried(s.holders[step.i].Chunk(c.size))
    else if step.ServeLate? && step.k < |s.orphans| then Carried(s.orphans[step.k])
    else 0
  }

  ghost function AckedUpTo(c: Setup, states: seq<State>, steps: seq<Step>, n: nat): int
    requires n <= |steps| < |states|
  {
    if n == 0 then 0 else AckedUpTo(c, states, steps, n - 1) + AckedBy(c, states[n - 1], steps[n - 1])
  }

  ghost function LostUpTo(c: Setup, states: seq<State>, steps: seq<Step>, n: nat): int
    requires n <= |steps| < |states|
  {
    if n == 0 then 0 else LostUpTo(c, states, steps, n - 1) + LostBy(c, states[n - 1], steps[n - 1])
  }

  lemma StepCounts(c: Setup, s: State, step: Step, s': State)
    requires Next(c, s, step, s')
    ensures s'.polls == s.polls + if step.Poll? then 1 else 0
    ensures s'.acked == s.acked + AckedBy(c, s, step)
    ensures s'.lost == s.lost + LostBy(c, s, step)
  {
  }

  /**
   * The accounts are about what happens: polls are the polls made,
   * acknowledged what the answers were for, lost what failed requests had the
   * server apply all the same.
   */
  lemma {:induction false} AccountsAreOfSteps(c: Setup, states: seq<State>, steps: seq<Step>, n: nat)
    requires IsRun(c, states, steps) && n <= |steps|
    ensures states[n].polls == Polls(steps[..n])
    ensures states[n].acked == AckedUpTo(c, states, steps, n) && states[n].lost == LostUpTo(c, states, steps, n)
  {
    if n > 0 {
      AccountsAreOfSteps(c, states, steps, n - 1);
      StepCounts(c, states[n - 1], steps[n - 1], states[n]);
      assert steps[..n][..n - 1] == steps[..n - 1];
    }
  }

  // ---------------------------------------------------------------- batches

  /** A tick takes all gauges it finds and all that is unsent, and leaves nothing unsent. */
  lemma TickTakesAll(c: Setup, s: State, gauges: seq<Sample>, s': State)
    requires Next(c, s, Tick(gauges), s')
    ensures s'.reporter.Cutting? && gauges <= s'.reporter.rest
    ensures var polls := Unsent(s.counters, s.lastSent, POLL_COUNT);
            s'.reporter.rest == gauges + if polls == 0 then [] else [CounterSample(POLL_COUNT, polls)]
    ensures Unsent(s'.counters, s'.lastSent, POLL_COUNT) == 0
  {
    SingleCounter(COUNTER_NAMES, s.counters, s.lastSent);
  }

  /** A SendMetrics call takes the same, for a request at a time that it does not repeat. */
  lemma CallTakesAll(c: Setup, s: State, gauges: seq<Sample>, s': State)
    requires Next(c, s, Call(gauges), s')
    ensures |s'.holders| == |s.holders| + 1 && !s'.holders[|s.holders|].retries
    ensures var polls := Unsent(s.counters, s.lastSent, POLL_COUNT);
            s'.holders[|s.holders|].rest == gauges + if polls == 0 then [] else [CounterSample(POLL_COUNT, polls)]
    ensures Unsent(s'.counters, s'.lastSent, POLL_COUNT) == 0
  {
    SingleCounter(COUNTER_NAMES, s.counters, s.lastSent);
  }

  /** A worker is handed the next metrics, a full batch of them if there are so many, and none is left out. */
  lemma HandTakesNext(c: Setup, s: State, w: nat, s': State)
    requires Next(c, s, Hand(w), s')
    ensures s'.reporter.Cutting? && s.reporter.rest == s'.holders[w].rest + s'.reporter.rest
    ensures |s'.holders[w].rest| == if c.size < |s.reporter.rest| then c.size else |s.reporter.rest|
    ensures forall i | 0 <= i < |s.holders| && i != w :: s'.holders[i] == s.holders[i]
  {
  }

  /** An answer takes one batch off what the holder still has to send. */
  lemma AckTakesChunk(c: Setup, s: State, i: nat, s': State)
    requires Next(c, s, Ack(i), s')
    ensures var h, h' := s.holders[i], s'.holders[i];
            && h.rest == h.Chunk(c.size) + h'.rest && h'.attempt == 0 && h'.request.NotSent?
            && |h.Chunk(c.size)| == if c.size < |h.rest| then c.size else |h.rest|
  {
  }

  // ---------------------------------------------------------------- what is possible

  /** A holder with valid metrics can always have its next batch posted, applied and acknowledged, in three steps. */
  lemma ChunkCanBeAcknowledged(c: Setup, s: State, i: nat) returns (posted: State, served: State, acked: State)
    requires i < |s.holders| && s.holders[i].rest != [] && s.holders[i].request.NotSent?
    requires Wellformed(s.holders[i].Chunk(c.size))
    ensures Next(c, s, Post(i), posted) && Next(c, posted, Serve(i), served) && Next(c, served, Ack(i), acked)
    ensures var chunk := s.holders[i].Chunk(c.size);
            && acked.server == ApplyAll(s.server, chunk) && acked.acked == s.acked + Carried(chunk)
            && acked.holders[i].rest == s.holders[i].AfterChunk(c.size) && acked.lastSent == s.lastSent
  {
    var h := s.holders[i];
    posted := WithHolder(s, i, h.(request := InFlight(false)));
    served := WithHolder(posted, i, h.(request := InFlight(true))).(server := ApplyAll(s.server, h.Chunk(c.size)));
    var after := h.(rest := h.AfterChunk(c.size), attempt := 0, request := NotSent);
    acked := WithHolder(served, i, after).(acked := s.acked + Carried(h.Chunk(c.size)));
  }

  /**
   * A request that is on its way can fail at any moment, and it is repeated
   * exactly by a worker that has made at most three requests for the batch. The
   * holder keeps its metrics, and what the server makes of the request is not
   * forgotten: applied, it counts as lost, and otherwise it may still arrive.
   */
  lemma RepeatedExactlyWhen(c: Setup, s: State, i: nat, late: bool)
    requires i < |s.holders| && s.holders[i].request.InFlight?
    ensures (exists s' :: Next(c, s, Fail(i, late, true), s')) <==> s.holders[i].retries && s.holders[i].attempt < 3
    ensures exists s' :: Next(c, s, Fail(i, late, false), s')
    ensures forall s', repeat | Next(c, s, Fail(i, late, repeat), s') ::
              && s'.holders[i].rest == s.holders[i].rest && s'.lastSent == s.lastSent && s'.server == s.server
              && s'.holders[i].attempt == s.holders[i].attempt + (if repeat then 1 else 0)
              && (s'.holders[i].request.GivenUp? <==> !repeat)
              && s'.orphans == s.orphans + if late && !s.holders[i].request.applied
                                           then [s.holders[i].Chunk(c.size)] else []
  {
    var h, told := s.holders[i], AfterFailure(c, s, i, late);
    assert Next(c, s, Fail(i, late, false), WithHolder(told, i, h.(request := GivenUp)));
    if h.retries && h.attempt < 3 {
      assert Next(c, s, Fail(i, late, true), WithHolder(told, i, h.(attempt := h.attempt + 1, request := NotSent)));
    }
  }

  /** What a holder gives back or the reporter keeps when it is stopped becomes unsent again. */
  lemma GivenBackIsUnsent(c: Setup, s: State, step: Step, s': State)
    requires Next(c, s, step, s') && (step.ReturnRest? || step.GiveBack?)
    ensures var ms := if step.ReturnRest? then s.reporter.rest else s.holders[step.i].rest;
            Add(At(s'.lastSent, POLL_COUNT), DeltaSum(ms, Key(COUNTER, POLL_COUNT))) == At(s.lastSent, POLL_COUNT)
    ensures step.ReturnRest? ==> s'.reporter.Stopped?
    ensures step.GiveBack? ==> s'.holders[step.i].rest == []
  {
    ReturnedPerCounter(s.lastSent, if step.ReturnRest? then s.reporter.rest else s.holders[step.i].rest, POLL_COUNT);
  }

  /**
   * Nobody is stuck: a reporter that has not stopped can cut the next batch,
   * hand on the metrics of this one to any idle worker, or, cancelled, stop and
   * give them back at once, without waiting for a worker.
   */
  lemma ReporterHasStep(c: Setup, s: State, w: nat) returns (step: Step, s': State)
    requires 0 < c.size && !s.reporter.Stopped?
    requires s.cancelled || (w < c.workers && w < |s.holders| && s.holders[w] == IDLE)
    ensures Next(c, s, step, s') && s'.reporter != s.reporter
    ensures s.cancelled && s.reporter != Cutting([]) ==> s'.reporter.Stopped?
    ensures s.reporter.Waiting? && !s.cancelled ==> step == Tick([])
    ensures s.reporter.Cutting? && s.reporter.rest != [] && !s.cancelled ==> step == Hand(w)
    ensures s.reporter == Cutting([]) ==> step == EndCut
  {
    if s.reporter.Waiting? {
      step := if s.cancelled then Stop else Tick([]);
      s' := if s.cancelled then s.(reporter := Stopped) else Marked(s).(reporter := Cutting(Collected(s, [])));
    } else if s.reporter.rest == [] {
      step, s' := EndCut, s.(reporter := Waiting);
    } else if s.cancelled {
      step, s' := ReturnRest, s.(lastSent := Returned(s.lastSent, s.reporter.rest), reporter := Stopped);
    } else {
      var offer := Holder(true, s.reporter.rest, 0, NotSent);
      step := Hand(w);
      s' := WithHolder(s, w, offer.(rest := offer.Chunk(c.size))).(reporter := Cutting(offer.AfterChunk(c.size)));
      assert |offer.AfterChunk(c.size)| < |s.reporter.rest|;
    }
  }

  /** A holder with metrics can post them, be told that the request failed, or give them back. */
  lemma HolderHasStep(c: Setup, s: State, i: nat) returns (step: Step, s': State)
    requires i < |s.holders| && s.holders[i].rest != []
    ensures Next(c, s, step, s')
    ensures match s.holders[i].request
            case NotSent => step == Post(i)
            case InFlight(_) => step == Fail(i, false, false)
            case GivenUp => step == GiveBack(i) && s'.holders[i].rest == []
  {
    var h := s.holders[i];
    match h.request
    case NotSent =>
      step, s' := Post(i), WithHolder(s, i, h.(request := InFlight(false)));
    case InFlight(_) =>
      step, s' := Fail(i, false, false), WithHolder(AfterFailure(c, s, i, false), i, h.(request := GivenUp));
    case GivenUp =>
      step := GiveBack(i);
      s' := WithHolder(s, i, h.(rest := [], attempt := 0, request := NotSent))
            .(lastSent := Returned(s.lastSent, h.rest));
  }
}
